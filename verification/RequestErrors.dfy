/** Requests that go wrong: what malformed lines and bodies cut short lead to on a connection. */
module RequestErrors {
  import Bits
  import opened FieldNames
  import opened Text
  import opened Buffer
  import opened RequestParser
  import opened HttpResponse
  import opened HttpConn
  import opened HttpConnTheorems
  import opened RequestDelivery
  import R = RequestTheorems

  // ----- Malformed lines

  /** What makes a line malformed: a request line with fewer than two spaces, a header line without a colon. */
  predicate Malformed(p: Parser, line: string) {
    (p.state == REQUEST_LINE && FindChar(line, ' ') == RFindChar(line, ' '))
    || (p.state == HEADER && line != "" && ':' !in line)
  }

  lemma MalformedIff(p: Parser, line: string)
    requires p.state == REQUEST_LINE || p.state == HEADER
    ensures R.AfterLine(p, line).state == ERROR <==> Malformed(p, line)
    ensures Malformed(p, line) ==> R.AfterLine(p, line) == p.(state := ERROR)
  {
  }

  /** A read that ends a malformed line, whatever part of the line had come in before, is answered by 400 if and only if
      no further line end has come in with it; otherwise the read does not return. */
  lemma BadLineAnsweredIff(c: Conn, h: Handler, bytes: string, line: string, more: string)
    requires Malformed(c.request, line) && !Contains(line, CRLF)
    requires bytes != "" && c.unread + bytes == line + CRLF + more
    ensures var turn := Received(c, h, Got(bytes));
            if Contains(more, CRLF) then turn.Hung? else turn.Answering? && turn.c.response.code == 400 && turn.c.unread == more
  {
    MalformedIff(c.request, line);
    R.TakesLine(c.request, line, more);
    ErrorAhead(R.AfterLine(c.request, line), more);
  }

  /** An answer is queued behind what is pending, and written: what goes out, and when the connection is closed. */
  lemma AnswerOnItsWay(a: Conn, p: Parser, text: string, w: WriteResult)
    requires Inv(a) && Prints(text, a.response)
    ensures var c' := Written(Queued(a, p, text), w);
            && c'.replies == a.replies + [Reply(p, a.response, text)] && c'.wire + c'.pending == a.wire + a.pending + text
            && c'.request == a.request && c'.unread == a.unread
            && c'.closes == a.closes + if w == WriteFailed || c'.pending == "" then 1 else 0
  {
    var q := Queued(a, p, text);
    QueuedInv(a, p, text);
    WriteStep(q, w);
    PrintsSomething(text, a.response);
    WrittenCloses(q, w);
    ConcatAssoc(a.wire, a.pending, text);
  }

  /** The 400 goes out behind the earlier answers, and the connection is closed if the write fails or takes everything;
      if it does not, the connection stays open, in error. */
  lemma BadLineCloses(c: Conn, h: Handler, e: Event, line: string, more: string)
    requires Inv(c) && Malformed(c.request, line) && !Contains(line, CRLF) && !Contains(more, CRLF)
    requires e.Readable? && e.got.Got? && e.got.bytes != "" && c.unread + e.got.bytes == line + CRLF + more
    requires Faithful(c, h, e)
    ensures Step(c, h, e).Settled?
    ensures var c' := Step(c, h, e).c;
            && |c'.replies| == |c.replies| + 1 && c'.replies[|c.replies|].response == BadRequest(c.response)
            && c'.wire + c'.pending == c.wire + c.pending + e.text && c'.request.state == ERROR && c'.unread == more
            && c'.closes == c.closes + if e.w == WriteFailed || c'.pending == "" then 1 else 0
  {
    MalformedIff(c.request, line);
    R.TakesLine(c.request, line, more);
    ErrorAhead(R.AfterLine(c.request, line), more);
    var turn := Received(c, h, e.got);
    AnswerOnItsWay(turn.c, turn.p, e.text, e.w);
  }

  // ----- Bytes that get the parser stuck

  /** All replies but the first `n` are 400s. */
  ghost predicate Refused(rs: seq<Reply>, n: nat) { forall i :: n <= i < |rs| ==> rs[i].response.code == 400 }

  /** Since `b` the connection has not been closed, and its replies are all 400s; its parser is where `data` leads a fresh
      one. */
  ghost predicate Refusing(b: Conn, c: Conn, data: string) {
    && Inv(c) && c.closes == b.closes && AsFresh(c.request, c.unread, data)
    && |b.replies| <= |c.replies| && c.replies[..|b.replies|] == b.replies && Refused(c.replies, |b.replies|)
  }

  lemma NothingRefused(b: Conn)
    requires Inv(b) && b.request == FRESH
    ensures Refusing(b, b, b.unread)
  {
    assert b.replies[..|b.replies|] == b.replies;
  }

  /** Once done, done whatever follows: so no beginning of bytes that get a parser stuck is a whole request. */
  lemma NeverDone(a: string, b: string)
    requires Parse(FRESH, a + b).Hangs? && Parse(FRESH, a).Finished?
    ensures Parse(FRESH, a).p.state != DONE
  {
    R.ParseSplit(FRESH, a, b);
  }

  /** In ERROR a parser stays, so bytes that get it stuck in a body do not bring it there. */
  lemma ErrorStays(a: string, b: string)
    requires Parse(FRESH, a + b).Hangs? && Parse(FRESH, a).Finished? && Parse(FRESH, a).p.state == ERROR
    ensures Parse(FRESH, a + b).p.state == ERROR
  {
    R.ParseSplit(FRESH, a, b);
    ErrorAhead(Parse(FRESH, a).p, Parse(FRESH, a).unread + b);
  }

  /** A read that brings something or fails for now. */
  predicate OnlyRead(e: Event) { e.Readable? && e.got != Got("") }

  /** What closes a connection; `c'` is how it is left. */
  predicate Closing(e: Event, c': Conn) {
    match e
    case Readable(got, _, w) => got == Got("") || w == WriteFailed || c'.pending == ""
    case Writable(w) => w == WriteFailed || c'.pending == ""
    case _ => true
  }

  /** The event closes the connection, for a reason. */
  predicate Closes(c: Conn, h: Handler, e: Event) {
    var turn := Step(c, h, e);
    turn.Settled? && turn.c.closes == c.closes + 1 && Closing(e, turn.c)
  }

  /** A 400 is queued and written. */
  lemma RefusalGoesOut(b: Conn, c: Conn, a: Conn, p: Parser, text: string, w: WriteResult, data: string, data': string)
    requires Refusing(b, c, data) && Prints(text, BadRequest(c.response)) && AsFresh(a.request, a.unread, data')
    requires a == c.(request := a.request, unread := a.unread, response := BadRequest(c.response))
    ensures var c' := Written(Queued(a, p, text), w);
            Refusing(b, c', data') || (c'.closes == c.closes + 1 && (w == WriteFailed || c'.pending == ""))
  {
    QueuedInv(a, p, text);
    WriteStep(Queued(a, p, text), w);
    AnswerOnItsWay(a, p, text, w);
  }

  /** An event that brings nothing closes the connection or leaves it refusing. */
  lemma IdleRefusing(b: Conn, c: Conn, h: Handler, e: Event, data: string)
    requires Refusing(b, c, data) && Brings(e) == ""
    ensures Step(c, h, e).Settled? && Step(c, h, e).c.replies == c.replies
    ensures Refusing(b, Step(c, h, e).c, data) || (!OnlyRead(e) && Closes(c, h, e))
  {
    IdleStep(c, h, e);
    if e.Writable? && c.pending != "" { WrittenCloses(c, e.w); }
  }

  /** What a read comes to while its parser is on the way to getting stuck: the call does not return; or the connection
      has read on; or its parser is in ERROR and a 400 is due. */
  lemma ReadOutcome(b: Conn, c: Conn, h: Handler, bytes: string, data: string, rest: string)
    requires Refusing(b, c, data) && bytes != "" && Parse(FRESH, data + bytes + rest).Hangs?
    ensures var o, turn := Parse(FRESH, data + bytes), Received(c, h, Got(bytes));
            var a := c.(request := o.p, unread := if o.Finished? then o.unread else "");
            if o.Hangs? then turn.Hung?
            else AsFresh(o.p, o.unread, data + bytes)
                 && turn == if o.p.state == ERROR then Answering(a.(response := BadRequest(c.response)), o.p) else Settled(a)
  {
    AsFreshAfter(c.request, c.unread, data, bytes);
    if Parse(FRESH, data + bytes).Finished? { NeverDone(data + bytes, rest); }
  }

  /** A read that is answered by a 400 closes the connection or leaves it refusing. */
  lemma ErrorRead(b: Conn, c: Conn, h: Handler, e: Event, data: string, p: Parser, unread: string, data': string)
    requires Refusing(b, c, data) && AsFresh(p, unread, data') && e.Readable? && e.got != Got("") && Faithful(c, h, e)
    requires Received(c, h, e.got) == Answering(c.(request := p, unread := unread, response := BadRequest(c.response)), p)
    ensures Step(c, h, e).Settled? && (Closes(c, h, e) || Refusing(b, Step(c, h, e).c, data'))
  {
    var a := c.(request := p, unread := unread, response := BadRequest(c.response));
    RefusalGoesOut(b, c, a, p, e.text, e.w, data, data');
    assert Step(c, h, e) == Settled(Written(Queued(a, p, e.text), e.w));
  }

  /** A read that brings something gets the connection stuck, or leaves it waiting, or is answered by a 400. */
  lemma ReadRefusing(b: Conn, c: Conn, h: Handler, e: Event, data: string, rest: string)
    requires Refusing(b, c, data) && Brings(e) != "" && Faithful(c, h, e)
    requires Parse(FRESH, data + Brings(e) + rest).Hangs?
    ensures var t := Step(c, h, e);
            || t.Hung? || Closes(c, h, e)
            || (t.Settled? && Refusing(b, t.c, data + Brings(e)) && Parse(FRESH, data + Brings(e)).Finished?)
    ensures Parse(FRESH, data + Brings(e) + rest).p.state == BODY ==>
              var t := Step(c, h, e); t.Hung? || (t.Settled? && t.c.replies == c.replies && t.c.closes == c.closes)
  {
    var o := Parse(FRESH, data + e.got.bytes);
    ReadOutcome(b, c, h, e.got.bytes, data, rest);
    if o.Finished? && o.p.state == ERROR {
      ErrorStays(data + e.got.bytes, rest);
      ErrorRead(b, c, h, e, data, o.p, o.unread, data + e.got.bytes);
    }
  }

  /** Every text written on the way is the response printed. */
  ghost predicate FaithfulThroughout(c: Conn, h: Handler, events: seq<Event>) {
    forall j: nat, d :: j < |events| && Run(c, h, events[..j], d) ==> Faithful(d, h, events[j])
  }

  lemma RunLonger(c: Conn, c1: Conn, h: Handler, events: seq<Event>, k: nat, d: Conn)
    requires k < |events| && Faithful(c, h, events[0]) && Step(c, h, events[0]) == Settled(c1)
    requires Run(c1, h, events[1..][..k], d)
    ensures Run(c, h, events[..k + 1], d)
  {
    var first := events[..k + 1];
    assert first[0] == events[0] && first[1..] == events[1..][..k];
    RunCons(c, c1, h, first, d);
  }

  lemma FaithfulFirst(c: Conn, h: Handler, events: seq<Event>)
    requires events != [] && FaithfulThroughout(c, h, events)
    ensures Faithful(c, h, events[0])
  {
    assert events[..0] == [] && Run(c, h, events[..0], c);
  }

  lemma FaithfulRest(c: Conn, c1: Conn, h: Handler, events: seq<Event>)
    requires events != [] && FaithfulThroughout(c, h, events) && Step(c, h, events[0]) == Settled(c1)
    ensures FaithfulThroughout(c1, h, events[1..])
  {
    FaithfulFirst(c, h, events);
    var rest := events[1..];
    forall j: nat, d | j < |rest| && Run(c1, h, rest[..j], d) ensures Faithful(d, h, rest[j]) {
      RunLonger(c, c1, h, events, j, d);
      assert rest[j] == events[j + 1];
    }
  }

  lemma DataSoFar(data: string, events: seq<Event>, k: nat)
    requires k < |events|
    ensures data + Chunks(events[..0]) == data
    ensures data + Chunks(events[..k + 1]) == (data + Brings(events[0])) + Chunks(events[1..][..k])
  {
    assert events[..k + 1][0] == events[0] && events[..k + 1][1..] == events[1..][..k];
    TakeOfConcat(data, Brings(events[0]), Chunks(events[1..][..k]));
  }

  /** `data` and the events bring bytes that get the parser stuck, but not before a read. */
  ghost predicate WillStick(data: string, events: seq<Event>) {
    Parse(FRESH, data + Chunks(events)).Hangs? && (Parse(FRESH, data).Finished? || Chunks(events) != "")
  }

  /** One event on the way. */
  lemma StickStep(b: Conn, c: Conn, h: Handler, events: seq<Event>, data: string)
    requires events != [] && Refusing(b, c, data) && FaithfulThroughout(c, h, events) && WillStick(data, events)
    ensures var e := events[0]; var t := Step(c, h, e);
            t.Hung? || Closes(c, h, e)
            || (t.Settled? && Faithful(c, h, e) && Refusing(b, t.c, data + Brings(e)) && WillStick(data + Brings(e), events[1..])
                && FaithfulThroughout(t.c, h, events[1..]))
    ensures Parse(FRESH, data + Chunks(events)).p.state == BODY ==>
              var e := events[0]; var t := Step(c, h, e);
              t.Hung? || (t.Settled? && t.c.replies == c.replies && (OnlyRead(e) ==> !Closes(c, h, e)))
  {
    var e, rest := events[0], events[1..];
    TakeOfConcat(data, Brings(e), Chunks(rest));
    FaithfulFirst(c, h, events);
    if Brings(e) == "" {
      assert data + "" == data;
      IdleRefusing(b, c, h, e, data);
    } else {
      ReadRefusing(b, c, h, e, data, Chunks(rest));
    }
    if Step(c, h, e).Settled? { FaithfulRest(c, Step(c, h, e).c, h, events); }
  }

  /** However bytes that get the parser stuck are cut into reads, and whatever else happens: one of the reads does not
      return, unless the connection is closed before; until then every answer is a 400.  If it is a body that the parser
      gets stuck in, there is no answer at all, and no read closes the connection. */
  lemma {:induction false} ReadsHang(b: Conn, c: Conn, h: Handler, events: seq<Event>, data: string)
      returns (k: nat, c': Conn)
    requires Refusing(b, c, data) && FaithfulThroughout(c, h, events) && WillStick(data, events)
    ensures k < |events| && Run(c, h, events[..k], c') && Refusing(b, c', data + Chunks(events[..k]))
    ensures Step(c', h, events[k]).Hung? || Closes(c', h, events[k])
    ensures Parse(FRESH, data + Chunks(events)).p.state == BODY ==>
              c'.replies == c.replies && (OnlyRead(events[k]) ==> Step(c', h, events[k]).Hung?)
    decreases |events|
  {
    assert events == [] ==> data + Chunks(events) == data;
    StickStep(b, c, h, events, data);
    var e := events[0];
    if Step(c, h, e).Hung? || Closes(c, h, e) {
      DataSoFar(data, events, 0);
      return 0, c;
    }
    var c1 := Step(c, h, e).c;
    TakeOfConcat(data, Brings(e), Chunks(events[1..]));
    k, c' := ReadsHang(b, c1, h, events[1..], data + Brings(e));
    RunLonger(c, c1, h, events, k, c');
    DataSoFar(data, events, k);
    k := k + 1;
  }

  /** A line end in a body that has not come in in full gets the worker stuck, however the request is cut into reads,
      unless something else than reads closes the connection before; and nothing is answered. */
  lemma EarlyLineEndHangs(b: Conn, h: Handler, events: seq<Event>, r: R.Request, length: string, part: string)
      returns (k: nat, c: Conn)
    requires Inv(b) && b.request == FRESH && FaithfulThroughout(b, h, events) && Chunks(events) != ""
    requires R.PlainRequest(r) && CONTENT_LENGTH in R.FieldMap(map[], r.fields)
    requires R.FieldMap(map[], r.fields)[CONTENT_LENGTH] == length && Numeral(length)
    requires Contains(part, CRLF) && |part| < Value(length) < Bits.WORD && b.unread + Chunks(events) == R.PrintHead(r) + part
    ensures k < |events| && Run(b, h, events[..k], c) && c.closes == b.closes && c.replies == b.replies
    ensures Step(c, h, events[k]).Hung? || (!OnlyRead(events[k]) && Closes(c, h, events[k]))
  {
    R.BodyReadBack(r, length, part);
    NothingRefused(b);
    k, c := ReadsHang(b, b, h, events, b.unread);
  }

  /** The head of a request up to a malformed header line, that line, and more. */
  function BadHead(r: R.Request, line: string, more: string): string {
    r.method_ + " " + r.path + " " + r.version + CRLF + (R.PrintFields(r.fields) + (line + CRLF + more))
  }

  lemma BadHeadSticks(r: R.Request, line: string, more: string)
    requires R.PlainRequest(r) && line != "" && ':' !in line && !Contains(line, CRLF) && Contains(more, CRLF)
    ensures Parse(FRESH, BadHead(r, line, more)).Hangs?
  {
    var start := r.method_ + " " + r.path + " " + r.version;
    var tail := line + CRLF + more;
    var p1 := FRESH.(method_ := r.method_, path := r.path, version := r.version, state := HEADER);
    var p2 := p1.(headers := R.FieldMap(map[], r.fields));
    R.TakesLine(FRESH, start, R.PrintFields(r.fields) + tail);
    R.RequestLineReadBack(FRESH, r);
    R.FieldsReadBack(p1, r.fields, tail);
    R.TakesLine(p2, line, more);
    MalformedIff(p2, line);
    ErrorAhead(R.AfterLine(p2, line), more);
  }

  /** A complete request with a malformed header line gets the worker stuck, since the blank line that completes it is a
      line end behind the malformed one; unless the connection is closed before that has been read, for instance because
      a read ended between the two and its 400 went out in full. */
  lemma BadHeaderHangs(b: Conn, h: Handler, events: seq<Event>, r: R.Request, line: string, more: string)
      returns (k: nat, c: Conn)
    requires Inv(b) && b.request == FRESH && FaithfulThroughout(b, h, events) && Chunks(events) != ""
    requires R.PlainRequest(r) && line != "" && ':' !in line && !Contains(line, CRLF) && Contains(more, CRLF)
    requires b.unread + Chunks(events) == BadHead(r, line, more)
    ensures k < |events| && Run(b, h, events[..k], c) && c.closes == b.closes
    ensures Step(c, h, events[k]).Hung? || Closes(c, h, events[k])
    ensures |b.replies| <= |c.replies| && c.replies[..|b.replies|] == b.replies && Refused(c.replies, |b.replies|)
  {
    BadHeadSticks(r, line, more);
    NothingRefused(b);
    k, c := ReadsHang(b, b, h, events, b.unread);
  }

  // ----- The bytes of a 400

  lemma OneLineMore(ls: seq<string>, l: string)
    ensures JoinLines(ls + [l]) == JoinLines(ls) + l + CRLF
  {
    assert (ls + [l])[..|ls|] == ls;
  }

  lemma FourLines(a: string, b: string, c: string, d: string)
    ensures JoinLines([a, b, c, d]) == a + CRLF + b + CRLF + c + CRLF + d + CRLF
  {
    OneLineMore([], a);
    OneLineMore([a], b);
    OneLineMore([a, b], c);
    OneLineMore([a, b, c], d);
    assert [] + [a] == [a] && [a] + [b] == [a, b] && [a, b] + [c] == [a, b, c] && [a, b, c] + [d] == [a, b, c, d];
  }

  const REFUSAL: string :=
    "HTTP/1.1 400 Bad Request" + "\r\n" + "Accept-Ranges: bytes" + "\r\n" + "Content-Length: 15" + "\r\n"
    + "Connection: close" + "\r\n" + "\r\n" + "400 Bad Request"

  lemma RefusalLines()
    ensures StatusLine(400) == "HTTP/1.1 400 Bad Request" && FieldLine(ACCEPT_RANGES, "bytes") == "Accept-Ranges: bytes"
    ensures FieldLine(CONTENT_LENGTH, ToString(15)) == "Content-Length: 15" && FieldLine(CONNECTION, "close") == "Connection: close"
  {
    assert ToString(400) == "400" && ToString(15) == "15";
  }

  lemma RefusalSerialized(r: Response)
    requires r == Response(400, false, map[], "400 Bad Request")
    ensures Serialize(r, []) == JoinLines([StatusLine(400), FieldLine(ACCEPT_RANGES, "bytes"),
                                           FieldLine(CONTENT_LENGTH, ToString(15)), FieldLine(CONNECTION, "close")]) + CRLF + r.body
  {
    assert |r.body| == 15 && FieldLines(map[], []) == [];
    assert HeadLines(r, []) == [StatusLine(400), FieldLine(ACCEPT_RANGES, "bytes"), FieldLine(CONTENT_LENGTH, ToString(15)),
                                FieldLine(CONNECTION, "close")];
  }

  lemma NoKeys(keys: seq<string>, m: map<string, string>)
    requires Enumerates(keys, m)
    ensures keys == [] || m != map[]
  {
    if keys != [] { assert keys[0] in keys; }
  }

  lemma BadRequestPrinted(text: string)
    requires Prints(text, BadRequest(OPENED.response))
    ensures text == REFUSAL
  {
    var r := BadRequest(OPENED.response);
    var keys :| Enumerates(keys, r.headers) && text == Serialize(r, keys);
    NoKeys(keys, r.headers);
    RefusalSerialized(r);
    RefusalLines();
    FourLines("HTTP/1.1 400 Bad Request", "Accept-Ranges: bytes", "Content-Length: 15", "Connection: close");
  }

  lemma NoSpaceLine()
    ensures !Contains("GET", CRLF) && Malformed(FRESH, "GET")
  {
    forall i: nat | i <= 3 ensures !At("GET", CRLF, i) {
      if i + 2 <= 3 { assert "GET"[i..i + 2][0] != '\r'; }
    }
  }

  /** To the letter: what a client reads that sends a line that is no request line as its first. */
  lemma FirstLineRefused(h: Handler, text: string, w: WriteResult)
    requires Faithful(OPENED, h, Readable(Got("GET\r\n"), text, w))
    ensures var t := Step(OPENED, h, Readable(Got("GET\r\n"), text, w));
            t.Settled? && |t.c.replies| == 1 && t.c.wire + t.c.pending == REFUSAL
  {
    var e := Readable(Got("GET\r\n"), text, w);
    assert OPENED.unread + e.got.bytes == "GET" + CRLF + "";
    NoSpaceLine();
    assert !Contains("", CRLF);
    BadLineCloses(OPENED, h, e, "GET", "");
    BadLineText(OPENED, h, e, "GET", "");
    BadRequestPrinted(text);
  }

  lemma BadLineText(c: Conn, h: Handler, e: Event, line: string, more: string)
    requires Malformed(c.request, line) && !Contains(line, CRLF) && !Contains(more, CRLF) && Faithful(c, h, e)
    requires e.Readable? && e.got.Got? && e.got.bytes != "" && c.unread + e.got.bytes == line + CRLF + more
    ensures Prints(e.text, BadRequest(c.response))
  {
    MalformedIff(c.request, line);
    R.TakesLine(c.request, line, more);
    ErrorAhead(R.AfterLine(c.request, line), more);
  }
}
