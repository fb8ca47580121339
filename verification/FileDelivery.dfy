/** A connection that serves files: what its clients read, and which header fields its reused response carries. */
module FileDelivery {
  import opened FieldNames
  import opened Text
  import opened Buffer
  import opened RequestParser
  import opened HttpResponse
  import opened HttpConn
  import opened HttpConnTheorems
  import opened RequestDelivery
  import opened FileServer
  import F = ResponseFraming
  import R = RequestTheorems

  /** The server's handler, for a document root in which paths are found by `lookup`. */
  function FileHandler(lookup: string -> Lookup): Handler {
    Handler((p: Parser, r: Response) => Answer(r, p.headers, lookup(p.path)))
  }

  // ----- Which answers carry a Content-Range

  /** The answers that set the field. */
  predicate Ranged(r: Response) { r.code == 206 || r.code == 416 }

  lemma AnswerContentRange(r: Response, headers: map<string, string>, found: Lookup)
    requires r.code != 206 && r.code != 416
    ensures var ans := Answer(r, headers, found);
            CONTENT_RANGE in ans.headers <==> CONTENT_RANGE in r.headers || Ranged(ans)
  {
    NamesDiffer();
  }

  ghost predicate RangedAmong(rs: seq<Reply>, n: nat)
    requires n <= |rs|
  {
    exists j :: 0 <= j < n && Ranged(rs[j].response)
  }

  ghost predicate ContentRangeInv(c: Conn) {
    && (CONTENT_RANGE in c.response.headers <==> RangedAmong(c.replies, |c.replies|))
    && forall i :: 0 <= i < |c.replies| ==> (CONTENT_RANGE in c.replies[i].response.headers <==> RangedAmong(c.replies, i + 1))
  }

  lemma RangedPrefix(rs: seq<Reply>, r: Reply, n: nat)
    requires n <= |rs|
    ensures RangedAmong(rs + [r], n) <==> RangedAmong(rs, n)
    ensures RangedAmong(rs + [r], |rs| + 1) <==> RangedAmong(rs, |rs|) || Ranged(r.response)
  {
    var all := rs + [r];
    assert all[|rs|] == r && forall j :: 0 <= j < |rs| ==> all[j] == rs[j];
    if RangedAmong(rs, n) {
      var j :| 0 <= j < n && Ranged(rs[j].response);
      assert Ranged(all[j].response);
    }
    if RangedAmong(rs, |rs|) {
      var j :| 0 <= j < |rs| && Ranged(rs[j].response);
      assert Ranged(all[j].response);
    }
  }

  lemma ContentRangeQueued(c: Conn, c': Conn, r: Reply)
    requires ContentRangeInv(c) && c'.replies == c.replies + [r] && c'.response == r.response
    requires CONTENT_RANGE in r.response.headers <==> CONTENT_RANGE in c.response.headers || Ranged(r.response)
    ensures ContentRangeInv(c')
  {
    RangedPrefix(c.replies, r, |c.replies|);
    forall i | 0 <= i < |c'.replies|
      ensures CONTENT_RANGE in c'.replies[i].response.headers <==> RangedAmong(c'.replies, i + 1)
    {
      if i < |c.replies| { RangedPrefix(c.replies, r, i + 1); }
    }
  }

  /** What an answering turn of a file server changes of the response. */
  lemma AnsweringTurn(c: Conn, lookup: string -> Lookup, got: ReadResult)
    requires Received(c, FileHandler(lookup), got).Answering?
    ensures var turn := Received(c, FileHandler(lookup), got);
            && turn.c.replies == c.replies
            && (turn.c.response == BadRequest(c.response)
                || turn.c.response == Answer(c.response.(code := 200, keepAlive := IsKeepAlive(turn.p.headers)), turn.p.headers,
                                             lookup(turn.p.path)))
  {
  }

  lemma QuietTurn(c: Conn, lookup: string -> Lookup, got: ReadResult)
    requires Received(c, FileHandler(lookup), got).Settled?
    ensures var c' := Received(c, FileHandler(lookup), got).c; c'.replies == c.replies && c'.response == c.response
  {
  }

  lemma ContentRangeStep(c: Conn, lookup: string -> Lookup, e: Event)
    requires ContentRangeInv(c) && Step(c, FileHandler(lookup), e).Settled?
    ensures ContentRangeInv(Step(c, FileHandler(lookup), e).c)
  {
    match e
    case Readable(got, text, w) =>
      var turn := Received(c, FileHandler(lookup), got);
      if turn.Answering? {
        AnsweringTurn(c, lookup, got);
        var r := c.response.(code := 200, keepAlive := IsKeepAlive(turn.p.headers));
        AnswerContentRange(r, turn.p.headers, lookup(turn.p.path));
        var q := Queued(turn.c, turn.p, text);
        ContentRangeQueued(c, q, Reply(turn.p, turn.c.response, text));
        WrittenKeepsReplies(q, w);
      } else {
        QuietTurn(c, lookup, got);
      }
    case Writable(w) => WrittenKeepsReplies(c, w);
    case _ =>
  }

  lemma {:induction false} ContentRangeRun(c: Conn, lookup: string -> Lookup, events: seq<Event>, c': Conn)
    requires ContentRangeInv(c) && Run(c, FileHandler(lookup), events, c')
    ensures ContentRangeInv(c')
    decreases |events|
  {
    if events != [] {
      ContentRangeStep(c, lookup, events[0]);
      ContentRangeRun(Step(c, FileHandler(lookup), events[0]).c, lookup, events[1..], c');
    }
  }

  /** The response object is reused: over every run of a connection an answer carries a Content-Range if and only if it
      is a 206 or a 416 itself, or an earlier answer on the connection was. */
  lemma ContentRangeIff(lookup: string -> Lookup, events: seq<Event>, c: Conn, i: nat)
    requires Run(OPENED, FileHandler(lookup), events, c) && i < |c.replies|
    ensures CONTENT_RANGE in c.replies[i].response.headers
            <==> exists j :: 0 <= j <= i && Ranged(c.replies[j].response)
  {
    ContentRangeRun(OPENED, lookup, events, c);
    assert RangedAmong(c.replies, i + 1) <==> exists j :: 0 <= j < i + 1 && Ranged(c.replies[j].response);
  }

  // ----- Every answer can be read

  /** No MIME type of a file breaks a line. */
  ghost predicate PlainTypes(lookup: string -> Lookup) {
    forall path :: lookup(path).Regular? ==> F.NoBreaks(lookup(path).mime)
  }

  lemma RangeTextsPlain(start: nat, end: nat, size: nat)
    ensures F.NoBreaks(RangeText(start, end, size)) && F.NoBreaks(UnsatisfiedText(size))
  {
    F.DigitsHaveNoBreaks(ToString(start));
    F.DigitsHaveNoBreaks(ToString(end));
    F.DigitsHaveNoBreaks(ToString(size));
  }

  lemma PlainField(m: map<string, string>, key: string, value: string)
    requires F.PlainHeaders(m) && F.NoBreaks(key) && F.NoBreaks(value) && ':' !in key && !DelimitsMessage(key)
    ensures F.PlainHeaders(m[key := value])
  {
  }

  /** The header fields of a part or a whole file that is served. */
  lemma ServedFieldsPlain(m: map<string, string>, range: string, mime: string)
    requires F.PlainHeaders(m) && F.NoBreaks(range) && F.NoBreaks(mime)
    ensures F.PlainHeaders(m[CONTENT_RANGE := range])
    ensures F.PlainHeaders(m[ACCEPT_RANGES := "bytes"][CONTENT_TYPE := mime])
    ensures F.PlainHeaders(m[CONTENT_RANGE := range][ACCEPT_RANGES := "bytes"][CONTENT_TYPE := mime])
  {
    NamesDiffer();
    PlainField(m, CONTENT_RANGE, range);
    var m1 := m[CONTENT_RANGE := range];
    PlainField(m, ACCEPT_RANGES, "bytes");
    PlainField(m[ACCEPT_RANGES := "bytes"], CONTENT_TYPE, mime);
    PlainField(m1, ACCEPT_RANGES, "bytes");
    PlainField(m1[ACCEPT_RANGES := "bytes"], CONTENT_TYPE, mime);
  }

  lemma FileAnswerPlain(r: Response, headers: map<string, string>, bytes: string, opens: bool, mime: string)
    requires F.PlainHeaders(r.headers) && F.NoBreaks(mime)
    ensures F.PlainHeaders(Answer(r, headers, Regular(bytes, opens, mime)).headers)
  {
    var size, plan := |bytes|, PlanRange(|bytes|, headers);
    RangeTextsPlain(0, 0, size);
    ServedFieldsPlain(r.headers, UnsatisfiedText(size), mime);
    if !plan.Refused? {
      RangeTextsPlain(plan.start, plan.end, size);
      ServedFieldsPlain(r.headers, RangeText(plan.start, plan.end, size), mime);
    }
  }

  lemma AnswerPlain(r: Response, headers: map<string, string>, found: Lookup)
    requires F.PlainResponse(r) && (found.Regular? ==> F.NoBreaks(found.mime))
    ensures F.PlainResponse(Answer(r, headers, found))
  {
    if found.Regular? { FileAnswerPlain(r, headers, found.bytes, found.opens, found.mime); }
  }

  ghost predicate PlainInv(c: Conn) {
    F.PlainResponse(c.response) && forall i :: 0 <= i < |c.replies| ==> F.PlainResponse(c.replies[i].response)
  }

  lemma PlainStep(c: Conn, lookup: string -> Lookup, e: Event)
    requires PlainInv(c) && PlainTypes(lookup) && Step(c, FileHandler(lookup), e).Settled?
    ensures PlainInv(Step(c, FileHandler(lookup), e).c)
  {
    match e
    case Readable(got, text, w) =>
      var turn := Received(c, FileHandler(lookup), got);
      if turn.Answering? {
        AnsweringTurn(c, lookup, got);
        var r := c.response.(code := 200, keepAlive := IsKeepAlive(turn.p.headers));
        AnswerPlain(r, turn.p.headers, lookup(turn.p.path));
        assert F.PlainResponse(turn.c.response);
        WrittenKeepsReplies(Queued(turn.c, turn.p, text), w);
      } else {
        QuietTurn(c, lookup, got);
      }
    case Writable(w) => WrittenKeepsReplies(c, w);
    case _ =>
  }

  lemma {:induction false} PlainRun(c: Conn, lookup: string -> Lookup, events: seq<Event>, c': Conn)
    requires PlainInv(c) && PlainTypes(lookup) && Run(c, FileHandler(lookup), events, c')
    ensures PlainInv(c')
    decreases |events|
  {
    if events != [] {
      PlainStep(c, lookup, events[0]);
      PlainRun(Step(c, FileHandler(lookup), events[0]).c, lookup, events[1..], c');
    }
  }

  /** Whatever a client sends to a file server, and however reads and writes go: the bytes on the wire and those still
      pending are read back, message by message, as exactly the replies in order. */
  lemma ClientReadsRun(lookup: string -> Lookup, events: seq<Event>, c: Conn)
    requires PlainTypes(lookup) && Run(OPENED, FileHandler(lookup), events, c)
    ensures MessagesOf(ReadMessages(c.wire + c.pending), c.replies)
  {
    BytesConserved(OPENED, FileHandler(lookup), events, c);
    PlainRun(OPENED, lookup, events, c);
    ClientReadsReplies(c.replies);
  }

  // ----- A file, from the request to the client

  ghost predicate DeliversWhole(m: F.Message, bytes: string, mime: string) {
    m.code == 200 && m.body == bytes && (CONTENT_TYPE, mime) in m.fields
  }

  /** The message carries a Content-Range that says so. */
  ghost predicate TellsRange(m: F.Message, range: ContentRange) {
    exists value :: (CONTENT_RANGE, value) in m.fields && ReadContentRange(value) == range
  }

  ghost predicate DeliversPart(m: F.Message, bytes: string, mime: string, first: nat, last: nat) {
    && first <= last < |bytes| && m.code == 206 && m.body == bytes[first..last + 1]
    && TellsRange(m, PartOf(first, last, |bytes|)) && (CONTENT_TYPE, mime) in m.fields
  }

  lemma PrintedField(m: F.Message, r: Response, key: string)
    requires IsMessageOf(m, r) && key in r.headers
    ensures (key, r.headers[key]) in m.fields
  {
    var keys :| Enumerates(keys, r.headers) && F.Says(m, r, keys);
    assert key in keys;
    var i :| 0 <= i < |keys| && keys[i] == key;
    assert F.Printed(r, keys)[i + 1] == (key, r.headers[key]);
  }

  lemma PrintedConnection(m: F.Message, r: Response)
    requires IsMessageOf(m, r)
    ensures (CONNECTION, if r.keepAlive then "keep-alive" else "close") in m.fields
  {
    var keys :| Enumerates(keys, r.headers) && F.Says(m, r, keys);
    var fs := F.Printed(r, keys);
    assert fs[|fs| - 1] == (CONNECTION, if r.keepAlive then "keep-alive" else "close");
  }

  lemma PartDelivers(m: F.Message, r: Response, headers: map<string, string>, bytes: string, mime: string, a: nat, e: nat)
    requires PlanRange(|bytes|, headers) == Part(a, e) && a <= e < |bytes| <= MAX_STRING
    requires IsMessageOf(m, Answer(r, headers, Regular(bytes, true, mime)))
    ensures DeliversPart(m, bytes, mime, a, e)
  {
    var ans := Answer(r, headers, Regular(bytes, true, mime));
    PartServed(r, headers, bytes, mime, a, e);
    PrintedField(m, ans, CONTENT_RANGE);
    PrintedField(m, ans, CONTENT_TYPE);
  }

  lemma MessageDelivers(m: F.Message, r: Response, headers: map<string, string>, bytes: string, mime: string)
    requires |bytes| <= MAX_STRING && IsMessageOf(m, Answer(r, headers, Regular(bytes, true, mime)))
    ensures AsksForAll(headers) ==> DeliversWhole(m, bytes, mime)
    ensures forall first, last :: AsksFor(headers, |bytes|, first, last) ==> DeliversPart(m, bytes, mime, first, last)
    ensures AsksBeyond(headers, |bytes|) ==> m.code == 416 && TellsRange(m, LengthOnly(|bytes|))
  {
    var ans := Answer(r, headers, Regular(bytes, true, mime));
    if AsksForAll(headers) {
      NothingAskedIsPlanned(headers, |bytes|);
      WholeServed(r, headers, bytes, mime);
      PrintedField(m, ans, CONTENT_TYPE);
    }
    forall first, last | AsksFor(headers, |bytes|, first, last) ensures DeliversPart(m, bytes, mime, first, last) {
      AskedIsPlanned(headers, |bytes|, first, last);
      PartDelivers(m, r, headers, bytes, mime, first, last);
    }
    if AsksBeyond(headers, |bytes|) {
      BeyondIsRefused(headers, |bytes|);
      RefusedAnswer(r, headers, bytes, true, mime);
      PrintedField(m, ans, CONTENT_RANGE);
    }
  }

  /** What a client of a drained connection reads last is the answer to the last request. */
  lemma LastMessage(lookup: string -> Lookup, before: seq<Event>, b: Conn, x: Exchange, c: Conn)
    requires PlainTypes(lookup) && Run(OPENED, FileHandler(lookup), before, b) && b.request == FRESH && Fits(b.unread, x)
    requires Run(b, FileHandler(lookup), EventsOf(x), c) && c.pending == ""
    ensures var ms := ReadMessages(c.wire);
            |ms| == |b.replies| + 1
            && IsMessageOf(ms[|b.replies|], Handled(FileHandler(lookup), AsParsed(x), b.response))
  {
    var h := FileHandler(lookup);
    BytesConserved(OPENED, h, before, b);
    ExchangeAnswered(b, h, x, c);
    RunJoin(OPENED, b, h, before, EventsOf(x), c);
    ClientReadsRun(lookup, before + EventsOf(x), c);
    assert c.wire + c.pending == c.wire;
  }

  /** From the request to the client, for any request on a connection, the first or a later one: a request for a
      readable file, cut into reads in any way, is the last message a client reads once the writes have drained the
      connection.  Without a Range in bytes it delivers the file, with one that asks for a part by its first position, or
      its first and last, exactly that part, and with one that begins past the end of the file it tells the length. */
  lemma FileDelivered(lookup: string -> Lookup, before: seq<Event>, b: Conn, x: Exchange, c: Conn, bytes: string, mime: string)
    requires PlainTypes(lookup) && Run(OPENED, FileHandler(lookup), before, b) && b.request == FRESH && Fits(b.unread, x)
    requires Run(b, FileHandler(lookup), EventsOf(x), c) && c.pending == ""
    requires lookup(x.request.path) == Regular(bytes, true, mime) && |bytes| <= MAX_STRING
    ensures var ms := ReadMessages(c.wire);
            && |ms| == |b.replies| + 1
            && (AsksForAll(Headers(x)) ==> DeliversWhole(ms[|b.replies|], bytes, mime))
            && (forall first, last ::
                  AsksFor(Headers(x), |bytes|, first, last) ==> DeliversPart(ms[|b.replies|], bytes, mime, first, last))
            && (AsksBeyond(Headers(x), |bytes|) ==>
                  ms[|b.replies|].code == 416 && TellsRange(ms[|b.replies|], LengthOnly(|bytes|)))
  {
    LastMessage(lookup, before, b, x, c);
    var r := b.response.(code := 200, keepAlive := IsKeepAlive(Headers(x)));
    MessageDelivers(ReadMessages(c.wire)[|b.replies|], r, Headers(x), bytes, mime);
  }

  /** And for a path that is no readable file: what the client reads last says so. */
  lemma RefusalDelivered(lookup: string -> Lookup, before: seq<Event>, b: Conn, x: Exchange, c: Conn)
    requires PlainTypes(lookup) && Run(OPENED, FileHandler(lookup), before, b) && b.request == FRESH && Fits(b.unread, x)
    requires Run(b, FileHandler(lookup), EventsOf(x), c) && c.pending == ""
    requires var found := lookup(x.request.path);
             found.Regular? ==> !found.opens && !PlanRange(|found.bytes|, Headers(x)).Refused?
    ensures var ms, found := ReadMessages(c.wire), lookup(x.request.path);
            && |ms| == |b.replies| + 1
            && (found.Forbidden? ==> ms[|b.replies|].code == 403) && (found.Missing? ==> ms[|b.replies|].code == 404)
            && (found.Broken? || found.Regular? ==> ms[|b.replies|].code == 500)
  {
    LastMessage(lookup, before, b, x, c);
    var r := b.response.(code := 200, keepAlive := IsKeepAlive(Headers(x)));
    OtherAnswers(r, Headers(x), lookup(x.request.path));
  }

  lemma AnswerKeepsAlive(r: Response, headers: map<string, string>, found: Lookup)
    requires r.keepAlive == IsKeepAlive(headers)
    ensures Answer(r, headers, found).keepAlive == r.keepAlive
  {
  }

  /** Every answer to a request tells the client to keep the connection alive if and only if the client asked for it;
      the program closes it all the same (`HttpConnTheorems.ClosesIff`). */
  lemma ConnectionAnnounced(lookup: string -> Lookup, before: seq<Event>, b: Conn, x: Exchange, c: Conn)
    requires PlainTypes(lookup) && Run(OPENED, FileHandler(lookup), before, b) && b.request == FRESH && Fits(b.unread, x)
    requires Run(b, FileHandler(lookup), EventsOf(x), c) && c.pending == ""
    ensures var ms, hs := ReadMessages(c.wire), Headers(x);
            && |ms| == |b.replies| + 1
            && ("Connection", if "Connection" in hs && hs["Connection"] == "keep-alive" then "keep-alive" else "close")
               in ms[|b.replies|].fields
  {
    LastMessage(lookup, before, b, x, c);
    var r := b.response.(code := 200, keepAlive := IsKeepAlive(Headers(x)));
    AnswerKeepsAlive(r, Headers(x), lookup(x.request.path));
    PrintedConnection(ReadMessages(c.wire)[|b.replies|], Handled(FileHandler(lookup), AsParsed(x), b.response));
  }

  // ----- To the letter

  lemma ExampleHead()
    ensures R.PrintHead(EXAMPLE) == "GET /a HTTP/1.1\r\nRange:bytes=2-5\r\n\r\n" && R.PlainRequest(EXAMPLE)
    ensures R.FieldMap(map[], EXAMPLE.fields) == map["Range" := "bytes=2-5"]
  {
    ExampleLines();
    assert EXAMPLE.fields == [EXAMPLE.fields[0]] && R.PrintFields([]) == "";
    assert R.PrintFields(EXAMPLE.fields) == "Range:bytes=2-5" + CRLF;
    ExamplePlain();
  }

  lemma ExampleLines()
    ensures R.PrintField(EXAMPLE.fields[0]) == "Range:bytes=2-5" && "GET" + " " + "/a" + " " + "HTTP/1.1" == "GET /a HTTP/1.1"
  {
  }

  lemma ExamplePlain()
    ensures R.PlainRequest(EXAMPLE)
  {
    ExampleLines();
    NoBreaksNoCrlf("GET /a HTTP/1.1");
    NoBreaksNoCrlf("Range:bytes=2-5");
  }

  lemma NoBreaksNoCrlf(s: string)
    requires F.NoBreaks(s)
    ensures !Contains(s, CRLF)
  {
    F.NoCrlfInside(s);
  }

  const EXAMPLE := R.Request("GET", "/a", "HTTP/1.1", [R.Field("Range", "", "bytes=2-5")])

  lemma ExampleAsks()
    ensures AsksFor(map["Range" := "bytes=2-5"], 10, 2, 5)
  {
    assert Value("2") == 2 && Value("5") == 5;
    assert "bytes=2-5" == IntRange("2", "5");
  }

  lemma ExampleExchange(lookup: string -> Lookup, text: string, w: WriteResult, c: Conn) returns (x: Exchange)
    requires Run(OPENED, FileHandler(lookup), [Readable(Got("GET /a HTTP/1.1\r\nRange:bytes=2-5\r\n\r\n"), text, w)], c)
    ensures Fits("", x) && x.request == EXAMPLE && Headers(x) == map["Range" := "bytes=2-5"]
    ensures Run(OPENED, FileHandler(lookup), EventsOf(x), c)
  {
    ExampleHead();
    x := AtOnce(EXAMPLE, "", text, w);
    AtOnceFits(EXAMPLE, "", text, w);
    var head := "GET /a HTTP/1.1\r\nRange:bytes=2-5\r\n\r\n";
    assert R.PrintHead(EXAMPLE) + "" == head;
    assert x.last == Readable(Got(head), text, w) && EventsOf(x) == [x.last];
  }

  lemma ExamplePart(lookup: string -> Lookup, x: Exchange, c: Conn)
    requires PlainTypes(lookup) && lookup("/a") == Regular("0123456789", true, "text/plain")
    requires Fits("", x) && x.request == EXAMPLE && Headers(x) == map["Range" := "bytes=2-5"]
    requires Run(OPENED, FileHandler(lookup), EventsOf(x), c) && c.pending == ""
    ensures |ReadMessages(c.wire)| == 1 && DeliversPart(ReadMessages(c.wire)[0], "0123456789", "text/plain", 2, 5)
  {
    ExampleAsks();
    assert Run(OPENED, FileHandler(lookup), [], OPENED);
    FileDelivered(lookup, [], OPENED, x, c, "0123456789", "text/plain");
  }

  lemma ExampleClose(lookup: string -> Lookup, x: Exchange, c: Conn) returns (r: Response)
    requires PlainTypes(lookup) && Fits("", x) && Headers(x) == map["Range" := "bytes=2-5"]
    requires Run(OPENED, FileHandler(lookup), EventsOf(x), c) && c.pending == ""
    ensures |ReadMessages(c.wire)| == 1 && ("Connection", "close") in ReadMessages(c.wire)[0].fields
    ensures IsMessageOf(ReadMessages(c.wire)[0], r)
  {
    assert Run(OPENED, FileHandler(lookup), [], OPENED);
    ConnectionAnnounced(lookup, [], OPENED, x, c);
    LastMessage(lookup, [], OPENED, x, c);
    r := Handled(FileHandler(lookup), AsParsed(x), OPENED.response);
  }

  /** A client that asks for four bytes of a file of ten, with no blank before the header's value, reads exactly this. */
  lemma ExampleDelivered(lookup: string -> Lookup, text: string, w: WriteResult, c: Conn)
    requires PlainTypes(lookup) && lookup("/a") == Regular("0123456789", true, "text/plain")
    requires Run(OPENED, FileHandler(lookup), [Readable(Got("GET /a HTTP/1.1\r\nRange:bytes=2-5\r\n\r\n"), text, w)], c)
    requires c.pending == ""
    ensures var ms := ReadMessages(c.wire);
            && |ms| == 1 && ms[0].version == "HTTP/1.1" && ms[0].code == 206 && ms[0].reason == "Partial Content"
            && ms[0].body == "2345" && ("Content-Type", "text/plain") in ms[0].fields && ("Connection", "close") in ms[0].fields
            && ("Content-Length", "4") in ms[0].fields && TellsRange(ms[0], PartOf(2, 5, 10))
  {
    var x := ExampleExchange(lookup, text, w, c);
    ExamplePart(lookup, x, c);
    var r := ExampleClose(lookup, x, c);
    ExampleMessage(ReadMessages(c.wire)[0], r);
  }

  lemma ExampleMessage(m: F.Message, r: Response)
    requires IsMessageOf(m, r) && DeliversPart(m, "0123456789", "text/plain", 2, 5)
    ensures m.version == "HTTP/1.1" && m.code == 206 && m.reason == "Partial Content" && m.body == "2345"
    ensures ("Content-Type", "text/plain") in m.fields && ("Content-Length", "4") in m.fields && TellsRange(m, PartOf(2, 5, 10))
  {
    PrintedLength(m, r);
    assert "0123456789"[2..6] == "2345" && ToString(4) == "4";
  }

  lemma PrintedLength(m: F.Message, r: Response)
    requires IsMessageOf(m, r)
    ensures ("Content-Length", ToString(|m.body|)) in m.fields && m.version == "HTTP/1.1" && F.Reason(m.code, m.reason)
  {
    var keys :| Enumerates(keys, r.headers) && F.Says(m, r, keys);
    var fs := F.Printed(r, keys);
    assert fs[|fs| - 2] == (CONTENT_LENGTH, ToString(|r.body|));
  }

  // ----- A stale Content-Range

  lemma WholeLeavesRange(r: Response, headers: map<string, string>, bytes: string, mime: string)
    requires PlanRange(|bytes|, headers).Whole? && CONTENT_RANGE in r.headers
    ensures var ans := Answer(r, headers, Regular(bytes, true, mime));
            CONTENT_RANGE in ans.headers && ans.headers[CONTENT_RANGE] == r.headers[CONTENT_RANGE]
  {
    NamesDiffer();
  }

  /** The answer to a range, and the answer made from it to a request without one. */
  lemma StaleAnswers(r: Response, h1: map<string, string>, h2: map<string, string>, a: nat, e: nat, bytes: string, mime: string)
    requires |bytes| <= MAX_STRING && AsksFor(h1, |bytes|, a, e) && AsksForAll(h2)
    ensures var first := Answer(r.(code := 200, keepAlive := IsKeepAlive(h1)), h1, Regular(bytes, true, mime));
            var second := Answer(first.(code := 200, keepAlive := IsKeepAlive(h2)), h2, Regular(bytes, true, mime));
            second.code == 200 && second.body == bytes
            && HasRange(second.headers, PartOf(a, e, |bytes|))
  {
    var r1 := r.(code := 200, keepAlive := IsKeepAlive(h1));
    AskedIsPlanned(h1, |bytes|, a, e);
    NothingAskedIsPlanned(h2, |bytes|);
    PartServed(r1, h1, bytes, mime, a, e);
    var first := Answer(r1, h1, Regular(bytes, true, mime));
    var r2 := first.(code := 200, keepAlive := IsKeepAlive(h2));
    WholeServed(r2, h2, bytes, mime);
    WholeLeavesRange(r2, h2, bytes, mime);
  }

  /** Such a run exists for any file and any range in it: a request for the range, answered but cut short, and then a
      request for the whole file.  Nothing has been closed, the second answer is a 200 with the whole file, and it
      carries the Content-Range of the first. */
  lemma StaleContentRange(lookup: string -> Lookup, r1: R.Request, r2: R.Request, a: nat, e: nat, bytes: string, mime: string)
      returns (events: seq<Event>, c: Conn)
    requires R.PlainRequest(r1) && R.PlainRequest(r2) && |bytes| <= MAX_STRING
    requires var m := R.FieldMap(map[], r1.fields); CONTENT_LENGTH !in m && AsksFor(m, |bytes|, a, e)
    requires var m := R.FieldMap(map[], r2.fields); CONTENT_LENGTH !in m && AsksForAll(m)
    requires lookup(r1.path) == lookup(r2.path) == Regular(bytes, true, mime)
    ensures Run(OPENED, FileHandler(lookup), events, c) && c.closes == 0 && c.armed && |c.replies| == 2
    ensures var r := c.replies[1].response;
            r.code == 200 && r.body == bytes
            && HasRange(r.headers, PartOf(a, e, |bytes|))
  {
    var h := FileHandler(lookup);
    var x1, m := CutShort(OPENED, h, r1, "");
    var x2;
    x2, c := CutShort(m, h, r2, "");
    RunJoin(OPENED, m, h, EventsOf(x1), EventsOf(x2), c);
    events := EventsOf(x1) + EventsOf(x2);
    StaleAnswers(OPENED.response, Headers(x1), Headers(x2), a, e, bytes, mime);
  }
}
