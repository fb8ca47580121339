/** How requests reach the handler of a connection: however they are cut into reads, each is answered once and in
    order. */
module RequestDelivery {
  import Bits
  import opened FieldNames
  import opened Text
  import opened Buffer
  import opened RequestParser
  import opened HttpResponse
  import opened HttpConn
  import opened HttpConnTheorems
  import R = RequestTheorems

  // ----- Parts of a request

  /** After `a` the parser is waiting for more. */
  predicate Waits(a: string) {
    var o := Parse(FRESH, a);
    o.Finished? && o.p.state != DONE && o.p.state != ERROR
  }

  /** In ERROR nothing is ever taken again. */
  lemma ErrorAhead(p: Parser, data: string)
    requires p.state == ERROR
    ensures Parse(p, data) == if Contains(data, CRLF) then Hangs(p) else Finished(p, data)
  {
    if data != "" { Unfold(Config(p, data)); }
  }

  /** Stuck in a body, the parser has seen a Content-Length; with more bytes it is stuck still, or done. */
  lemma {:induction false} StuckInBody(p: Parser, a: string, b: string)
    ensures R.ParserOk(p) && Parse(p, a).Hangs? && Parse(p, a).p.state == BODY ==>
              var o := Parse(p, a + b); CONTENT_LENGTH in o.p.headers && (o.Hangs? || o.p.state == DONE)
    decreases Measure(Config(p, a))
  {
    if !(R.ParserOk(p) && Parse(p, a).Hangs? && Parse(p, a).p.state == BODY) { return; }
    var c := Config(p, a);
    StuttersIff(c);
    Unfold(c);
    if Stutters(c) {
      FindInPrefix(a, b, CRLF);
      Unfold(Config(p, a + b));
    } else {
      R.IterationExtends(p, a, b);
      Unfold(Config(p, a + b));
      StuckInBody(LoopBody(c).c.p, LoopBody(c).c.unread, b);
    }
  }

  /** A beginning of something that is parsed without remainder leaves the parser waiting: a proper beginning of a
      request without a body, or any beginning of a head that announces one. */
  lemma BeginningWaits(a: string, b: string, q: Parser)
    requires q.state == BODY || (q.state == DONE && CONTENT_LENGTH !in q.headers && b != "")
    ensures Parse(FRESH, a + b) == Finished(q, "") ==> Waits(a)
  {
    if Parse(FRESH, a + b) != Finished(q, "") {
    } else if Parse(FRESH, a).Hangs? {
      R.StuckOnError(FRESH, a, b);
      StuckInBody(FRESH, a, b);
    } else {
      var o := Parse(FRESH, a);
      R.ParseSplit(FRESH, a, b);
      if o.p.state == ERROR { ErrorAhead(o.p, o.unread + b); }
      if b != "" { assert o.unread + b != ""; }
    }
  }

  // ----- Reads

  /** What one event brings. */
  function Brings(e: Event): string { if e.Readable? && e.got.Got? then e.got.bytes else "" }

  /** The bytes that a run of events brings. */
  function Chunks(events: seq<Event>): string
    decreases |events|
  {
    if events == [] then "" else Brings(events[0]) + Chunks(events[1..])
  }

  lemma TakeOfConcat(data: string, first: string, rest: string)
    ensures data + (first + rest) == (data + first) + rest
    ensures (data + (first + rest))[..|data| + |first|] == data + first
  {
  }

  /** With `unread` still to be parsed, `p` is where `data` leads a fresh parser, whatever comes next. */
  ghost predicate AsFresh(p: Parser, unread: string, data: string) {
    R.ParserOk(p) && forall t :: Parse(p, unread + t) == Parse(FRESH, data + t)
  }

  lemma AsFreshAfter(p: Parser, unread: string, data: string, bytes: string)
    requires AsFresh(p, unread, data)
    ensures Parse(p, unread + bytes) == Parse(FRESH, data + bytes)
    ensures var o := Parse(FRESH, data + bytes); o.Finished? ==> AsFresh(o.p, o.unread, data + bytes)
  {
    var o := Parse(FRESH, data + bytes);
    if o.Finished? {
      R.ParseSplit(FRESH, data + bytes, "");
      forall t ensures Parse(o.p, o.unread + t) == Parse(FRESH, data + bytes + t) { R.ParseSplit(FRESH, data + bytes, t); }
    }
  }

  // ----- Events that bring nothing

  /** From `c` to `c'` nothing has happened but that pending bytes have gone out. */
  ghost predicate OnlyWritten(c: Conn, c': Conn) {
    && c'.replies == c.replies && c'.request == c.request && c'.unread == c.unread && c'.response == c.response
    && c'.wire + c'.pending == c.wire + c.pending
  }

  lemma WriteStep(c: Conn, w: WriteResult)
    requires Inv(c)
    ensures Inv(Written(c, w)) && OnlyWritten(c, Written(c, w))
  {
    WrittenInv(c, w);
  }

  /** A write, a failed read, the end of the stream, an error condition or a timeout. */
  lemma IdleStep(c: Conn, h: Handler, e: Event)
    requires Inv(c) && Brings(e) == ""
    ensures Faithful(c, h, e) && Step(c, h, e).Settled?
    ensures Inv(Step(c, h, e).c) && OnlyWritten(c, Step(c, h, e).c)
  {
    if e.Writable? { WriteStep(c, e.w); }
  }

  lemma {:induction false} IdleRun(c: Conn, h: Handler, events: seq<Event>, c': Conn)
    requires Inv(c) && Chunks(events) == "" && Run(c, h, events, c')
    ensures Inv(c') && OnlyWritten(c, c')
    decreases |events|
  {
    if events != [] {
      IdleStep(c, h, events[0]);
      IdleRun(Step(c, h, events[0]).c, h, events[1..], c');
    }
  }

  // ----- Waiting for the rest

  /** Since `b` nothing has been answered by `c`: pending bytes have gone out, and its parser is where `data` leads a
      fresh one. */
  ghost predicate Held(b: Conn, c: Conn, data: string) {
    && Inv(c) && AsFresh(c.request, c.unread, data) && c.replies == b.replies && c.response == b.response
    && c.wire + c.pending == b.wire + b.pending
  }

  lemma HeldAtFirst(b: Conn)
    requires Inv(b) && b.request == FRESH
    ensures Held(b, b, b.unread)
  {
  }

  /** An event after which the parser waits settles nothing yet. */
  lemma HeldStep(b: Conn, c: Conn, h: Handler, e: Event, data: string)
    requires Held(b, c, data) && (Brings(e) != "" ==> Waits(data + Brings(e)))
    ensures Faithful(c, h, e) && Step(c, h, e).Settled? && Held(b, Step(c, h, e).c, data + Brings(e))
  {
    if Brings(e) == "" {
      IdleStep(c, h, e);
      assert data + "" == data;
    } else {
      AsFreshAfter(c.request, c.unread, data, Brings(e));
    }
  }

  /** The parser waits after every beginning of `full` that is longer than `n`. */
  ghost predicate WaitsBeyond(n: nat, full: string) { forall k: nat :: n < k <= |full| ==> Waits(full[..k]) }

  /** Whatever happens to a connection while what it has read is no whole request, it answers nothing and reads on. */
  lemma {:induction false} HeldThroughout(b: Conn, c: Conn, h: Handler, events: seq<Event>, data: string) returns (c': Conn)
    requires Held(b, c, data) && WaitsBeyond(|data|, data + Chunks(events))
    ensures Run(c, h, events, c') && Held(b, c', data + Chunks(events))
    decreases |events|
  {
    if events == [] {
      assert data + Chunks(events) == data;
      return c;
    }
    var first, full := Brings(events[0]), data + Chunks(events);
    TakeOfConcat(data, first, Chunks(events[1..]));
    if first != "" { assert Waits(full[..|data| + |first|]); }
    HeldStep(b, c, h, events[0], data);
    var c1 := Step(c, h, events[0]).c;
    c' := HeldThroughout(b, c1, h, events[1..], data + first);
    RunCons(c, c1, h, events, c');
  }

  /** The read that completes a request hands it to the handler. */
  lemma ReadLast(b: Conn, c: Conn, h: Handler, bytes: string, data: string, p: Parser, rest: string)
    requires Held(b, c, data) && bytes != "" && p.state == DONE && Parse(FRESH, data + bytes) == Finished(p, rest)
    ensures Received(c, h, Got(bytes))
            == Answering(c.(request := FRESH, unread := rest, response := Handled(h, p, b.response)), p)
  {
    AsFreshAfter(c.request, c.unread, data, bytes);
  }

  // ----- Requests with and without a body

  /** A request as it comes in: what it says; whatever happens until the read that gets it parsed, `last`; what there is
      beyond it then; and the events after that until more bytes come in. */
  datatype Exchange = Exchange(
    request: R.Request, body: string, rest: string, parts: seq<Event>, last: Event, after: seq<Event>)

  function Headers(x: Exchange): map<string, string> { R.FieldMap(map[], x.request.fields) }

  /** Without a Content-Length there is no body; with one it announces the body, and there is a line end in the body or
      behind it, without which the parser would not take it. */
  predicate BodyOk(x: Exchange) {
    if CONTENT_LENGTH in Headers(x) then
      |x.body| < Bits.WORD && Numeral(Headers(x)[CONTENT_LENGTH]) && Value(Headers(x)[CONTENT_LENGTH]) == |x.body|
      && Contains(x.body + x.rest, CRLF)
    else x.body == ""
  }

  /** The parser's fields for a request that has been read. */
  function AsParsed(x: Exchange): Parser {
    Parser(DONE, x.request.method_, x.request.path, x.request.version, Headers(x), x.body)
  }

  /** The exchange brings a request to a connection that has `u` unread, or gets one parsed that is there already.  Any
      cut of it into reads will do, with any other events in between, as long as no read before the last lets the parser
      see a whole head without a body, or a line end behind the head of a request with one.  Where it does, that read is
      the last of the exchange, or does not return. */
  predicate Fits(u: string, x: Exchange) {
    var head, before := R.PrintHead(x.request), u + Chunks(x.parts);
    && R.PlainRequest(x.request) && BodyOk(x) && Chunks(x.after) == ""
    && x.last.Readable? && x.last.got.Got? && x.last.got.bytes != ""
    && before + x.last.got.bytes == head + (x.body + x.rest)
    && (Chunks(x.parts) == "" || |before| < |head|
        || (CONTENT_LENGTH in Headers(x) && |before| >= |head| && !Contains(before[|head|..], CRLF)))
  }

  lemma RequestIsRead(x: Exchange)
    requires R.PlainRequest(x.request) && BodyOk(x)
    ensures Parse(FRESH, R.PrintHead(x.request) + (x.body + x.rest)) == Finished(AsParsed(x), x.rest)
  {
    var r, data := x.request, x.body + x.rest;
    R.HeadReadBack(r, data);
    if CONTENT_LENGTH in Headers(x) {
      FromCharsAlone(Headers(x)[CONTENT_LENGTH], 0);
      R.BodyTaken(Parser(BODY, r.method_, r.path, r.version, Headers(x), ""), |x.body|, data);
      assert data[..|x.body|] == x.body && data[|x.body|..] == x.rest;
    } else {
      assert data == x.rest;
    }
  }

  lemma TakeOfBeginning(before: string, more: string, head: string, tail: string, k: nat)
    requires before + more == head + tail && k <= |before|
    ensures k <= |head| ==> before[..k] == head[..k]
    ensures k >= |head| ==> before[..k] == head + before[|head|..][..k - |head|]
  {
    var all := head + tail;
    assert before[..k] == all[..k];
    if k <= |head| {
      assert head[..k] == all[..k];
    } else {
      assert before[..|head|] == all[..|head|] == head;
      assert before[..k] == before[..|head|] + before[|head|..k];
    }
  }

  lemma ContainsInPrefix(s: string, n: nat)
    requires n <= |s| && Contains(s[..n], CRLF)
    ensures Contains(s, CRLF)
  {
    var i: nat :| i <= n && At(s[..n], CRLF, i);
    assert s[..n][i..i + |CRLF|] == s[i..i + |CRLF|];
    assert At(s, CRLF, i);
  }

  /** A body of which no line end has come in yet is waited for. */
  lemma BodyWaits(r: R.Request, d: string)
    requires R.PlainRequest(r) && CONTENT_LENGTH in R.FieldMap(map[], r.fields) && !Contains(d, CRLF)
    ensures Waits(R.PrintHead(r) + d)
  {
    R.HeadReadBack(r, d);
    var p := Parser(BODY, r.method_, r.path, r.version, R.FieldMap(map[], r.fields), "");
    R.BodyTaken(p, ContentLength(p), d);
  }

  lemma HeadParsed(r: R.Request)
    requires R.PlainRequest(r)
    ensures var headers := R.FieldMap(map[], r.fields);
            Parse(FRESH, R.PrintHead(r))
            == Finished(Parser(if CONTENT_LENGTH in headers then BODY else DONE, r.method_, r.path, r.version, headers, ""), "")
  {
    R.HeadReadBack(r, "");
    assert R.PrintHead(r) + "" == R.PrintHead(r);
  }

  /** A part of the head is waited on, and all of it if a body is announced. */
  lemma HeadWaits(r: R.Request, k: nat)
    requires R.PlainRequest(r) && k <= |R.PrintHead(r)|
    requires k < |R.PrintHead(r)| || CONTENT_LENGTH in R.FieldMap(map[], r.fields)
    ensures Waits(R.PrintHead(r)[..k])
  {
    var head := R.PrintHead(r);
    HeadParsed(r);
    assert head[..k] + head[k..] == head;
    BeginningWaits(head[..k], head[k..], Parse(FRESH, head).p);
  }

  lemma BodyPartWaits(r: R.Request, d: string, n: nat)
    requires R.PlainRequest(r) && CONTENT_LENGTH in R.FieldMap(map[], r.fields) && !Contains(d, CRLF) && n <= |d|
    ensures Waits(R.PrintHead(r) + d[..n])
  {
    if Contains(d[..n], CRLF) { ContainsInPrefix(d, n); }
    BodyWaits(r, d[..n]);
  }

  /** The parser waits after every part of the request that comes in before the last read. */
  lemma PartWaits(u: string, x: Exchange, k: nat)
    requires Fits(u, x) && |u| < k <= |u + Chunks(x.parts)|
    ensures Waits((u + Chunks(x.parts))[..k])
  {
    var before, head := u + Chunks(x.parts), R.PrintHead(x.request);
    TakeOfBeginning(before, x.last.got.bytes, head, x.body + x.rest, k);
    if k <= |head| {
      HeadWaits(x.request, k);
    } else {
      BodyPartWaits(x.request, before[|head|..], k - |head|);
    }
  }

  /** However a request is cut into reads, and whatever else happens in between, nothing is answered until the last of
      them, which hands exactly that request to the handler. */
  lemma RequestArrives(b: Conn, h: Handler, x: Exchange) returns (c: Conn)
    requires Inv(b) && b.request == FRESH && Fits(b.unread, x)
    ensures Run(b, h, x.parts, c) && Inv(c)
    ensures c.replies == b.replies && c.response == b.response && c.wire + c.pending == b.wire + b.pending
    ensures Received(c, h, x.last.got)
            == Answering(c.(request := FRESH, unread := x.rest, response := Handled(h, AsParsed(x), b.response)), AsParsed(x))
  {
    var full := b.unread + Chunks(x.parts);
    forall k: nat | |b.unread| < k <= |full| ensures Waits(full[..k]) { PartWaits(b.unread, x, k); }
    HeldAtFirst(b);
    c := HeldThroughout(b, b, h, x.parts, b.unread);
    RequestIsRead(x);
    ReadLast(b, c, h, x.last.got.bytes, full, AsParsed(x), x.rest);
  }

  /** Where an exchange leads from `b`: one reply more, the handler's for this request, and its text behind what was
      there, partly gone out or not. */
  ghost predicate Answered(b: Conn, h: Handler, x: Exchange, c: Conn) {
    var answer := Handled(h, AsParsed(x), b.response);
    && x.last.Readable? && c.replies == b.replies + [Reply(AsParsed(x), answer, x.last.text)] && Prints(x.last.text, answer)
    && c.wire + c.pending == b.wire + b.pending + x.last.text
    && c.request == FRESH && c.unread == x.rest && c.response == answer && Inv(c)
  }

  lemma AnswerGoesOut(b: Conn, c: Conn, h: Handler, x: Exchange, c': Conn)
    requires Inv(c) && c.replies == b.replies && c.wire + c.pending == b.wire + b.pending
    requires x.last.Readable? && Chunks(x.after) == ""
    requires var a := c.(request := FRESH, unread := x.rest, response := Handled(h, AsParsed(x), b.response));
             Prints(x.last.text, a.response) && Run(Written(Queued(a, AsParsed(x), x.last.text), x.last.w), h, x.after, c')
    ensures Answered(b, h, x, c')
  {
    var a := c.(request := FRESH, unread := x.rest, response := Handled(h, AsParsed(x), b.response));
    var q := Queued(a, AsParsed(x), x.last.text);
    QueuedInv(a, AsParsed(x), x.last.text);
    WriteStep(q, x.last.w);
    IdleRun(Written(q, x.last.w), h, x.after, c');
    ConcatAssoc(c.wire, c.pending, x.last.text);
  }

  /** From end to end: on a connection between two requests, a request cut into reads in any way gets exactly one
      response, the handler's for exactly that request; whatever short writes come between the reads and after them, its
      bytes go out behind those of the earlier responses; and no read gets stuck on the way. */
  lemma OneRequestOneResponse(b: Conn, h: Handler, x: Exchange) returns (c: Conn)
    requires Inv(b) && b.request == FRESH && Fits(b.unread, x)
    ensures Run(b, h, x.parts, c) && c.replies == b.replies && Step(c, h, x.last).Settled?
    ensures forall c' :: Run(c, h, [x.last] + x.after, c') ==> Answered(b, h, x, c')
  {
    c := RequestArrives(b, h, x);
    assert ([x.last] + x.after)[0] == x.last && ([x.last] + x.after)[1..] == x.after;
    forall c' | Run(c, h, [x.last] + x.after, c') ensures Answered(b, h, x, c') { AnswerGoesOut(b, c, h, x, c'); }
  }

  function EventsOf(x: Exchange): seq<Event> { x.parts + ([x.last] + x.after) }

  lemma ExchangeAnswered(b: Conn, h: Handler, x: Exchange, c': Conn)
    requires Inv(b) && b.request == FRESH && Fits(b.unread, x) && Run(b, h, EventsOf(x), c')
    ensures Answered(b, h, x, c')
  {
    var c := OneRequestOneResponse(b, h, x);
    var m := RunSplit(b, h, x.parts, [x.last] + x.after, c');
    RunUnique(b, h, x.parts, c, m);
  }

  // ----- Many requests

  function AllEvents(xs: seq<Exchange>): seq<Event>
    decreases |xs|
  {
    if xs == [] then [] else EventsOf(xs[0]) + AllEvents(xs[1..])
  }

  predicate AllFit(u: string, xs: seq<Exchange>)
    decreases |xs|
  {
    xs == [] || (Fits(u, xs[0]) && AllFit(xs[0].rest, xs[1..]))
  }

  /** The answers of one handler that is given the response object of its previous answer each time. */
  function Answers(h: Handler, r: Response, xs: seq<Exchange>): seq<Response>
    decreases |xs|
  {
    if xs == [] then [] else
      var answer := Handled(h, AsParsed(xs[0]), r);
      [answer] + Answers(h, answer, xs[1..])
  }

  ghost predicate RepliesTo(rs: seq<Reply>, h: Handler, r: Response, xs: seq<Exchange>) {
    && |rs| == |xs| == |Answers(h, r, xs)|
    && forall i :: 0 <= i < |xs| ==> rs[i].request == AsParsed(xs[i]) && rs[i].response == Answers(h, r, xs)[i]
  }

  lemma RepliesCons(first: Reply, rs: seq<Reply>, h: Handler, r: Response, xs: seq<Exchange>)
    requires xs != [] && first.request == AsParsed(xs[0]) && first.response == Handled(h, AsParsed(xs[0]), r)
    requires RepliesTo(rs, h, first.response, xs[1..])
    ensures RepliesTo([first] + rs, h, r, xs)
  {
    var all, answers := [first] + rs, Answers(h, r, xs);
    assert answers == [first.response] + Answers(h, first.response, xs[1..]);
    forall i | 0 <= i < |xs| ensures all[i].request == AsParsed(xs[i]) && all[i].response == answers[i] {
      if i > 0 { assert all[i] == rs[i - 1] && xs[i] == xs[1..][i - 1]; }
    }
  }

  lemma OneMoreReply(before: seq<Reply>, first: Reply, all: seq<Reply>)
    requires |before| < |all| && all[..|before| + 1] == before + [first]
    ensures all[..|before|] == before && all[|before|..] == [first] + all[|before| + 1..]
  {
    assert all[..|before|] == all[..|before| + 1][..|before|];
    assert all[|before|] == all[..|before| + 1][|before|];
  }

  /** Any number of requests on one connection, each cut into reads in any way, pipelined or not, are answered in order,
      each once and by the handler's answer to exactly that request.  A request that came in behind another one is
      answered at the next read that brings anything. */
  lemma {:induction false} RequestsInOrder(b: Conn, h: Handler, xs: seq<Exchange>, c: Conn)
    requires Inv(b) && b.request == FRESH && AllFit(b.unread, xs) && Run(b, h, AllEvents(xs), c)
    ensures |b.replies| <= |c.replies| && c.replies[..|b.replies|] == b.replies
    ensures RepliesTo(c.replies[|b.replies|..], h, b.response, xs) && Inv(c) && c.request == FRESH
    decreases |xs|
  {
    if xs != [] {
      var x := xs[0];
      var m := RunSplit(b, h, EventsOf(x), AllEvents(xs[1..]), c);
      ExchangeAnswered(b, h, x, m);
      RequestsInOrder(m, h, xs[1..], c);
      var first := Reply(AsParsed(x), Handled(h, AsParsed(x), b.response), x.last.text);
      OneMoreReply(b.replies, first, c.replies);
      RepliesCons(first, c.replies[|m.replies|..], h, b.response, xs);
    }
  }

  // ----- A request that is there already

  lemma WrittenKeepsReplies(c: Conn, w: WriteResult)
    ensures Written(c, w).replies == c.replies && Written(c, w).response == c.response
  {
  }

  lemma ReceivedKeepsReplies(c: Conn, h: Handler, got: ReadResult)
    requires !Received(c, h, got).Hung?
    ensures Received(c, h, got).c.replies == c.replies
  {
    if got.Got? && got.bytes != "" {
      var o := Parse(c.request, c.unread + got.bytes);
      DecidedOutput(c.(request := o.p, unread := o.unread), h);
    }
  }

  lemma StepKeepsReplies(c: Conn, h: Handler, e: Event)
    requires Step(c, h, e).Settled?
    ensures var c' := Step(c, h, e).c; |c.replies| <= |c'.replies| && c'.replies[..|c.replies|] == c.replies
  {
    if e.Readable? {
      ReceivedKeepsReplies(c, h, e.got);
      var turn := Received(c, h, e.got);
      if turn.Answering? { WrittenKeepsReplies(Queued(turn.c, turn.p, e.text), e.w); }
    } else if e.Writable? {
      WrittenKeepsReplies(c, e.w);
    }
  }

  lemma {:induction false} RepliesKept(c: Conn, h: Handler, events: seq<Event>, c': Conn)
    requires Run(c, h, events, c')
    ensures |c.replies| <= |c'.replies| && c'.replies[..|c.replies|] == c.replies
    decreases |events|
  {
    if events == [] {
      assert c.replies[..|c.replies|] == c.replies;
    } else {
      StepKeepsReplies(c, h, events[0]);
      var c1 := Step(c, h, events[0]).c;
      RepliesKept(c1, h, events[1..], c');
      assert c'.replies[..|c.replies|] == c'.replies[..|c1.replies|][..|c.replies|];
    }
  }

  /** The first event that brings something. */
  lemma {:induction false} FirstRead(events: seq<Event>) returns (k: nat)
    requires Chunks(events) != ""
    ensures k < |events| && Chunks(events[..k]) == "" && Brings(events[k]) != ""
    decreases |events|
  {
    if Brings(events[0]) != "" {
      k := 0;
    } else {
      var n := FirstRead(events[1..]);
      assert events[..n + 1][0] == events[0] && events[..n + 1][1..] == events[1..][..n];
      k := n + 1;
    }
  }

  /** The bytes that are left unread are a whole request, as `x` says, and possibly more. */
  predicate IsThere(u: string, x: Exchange) {
    R.PlainRequest(x.request) && BodyOk(x) && u == R.PrintHead(x.request) + (x.body + x.rest)
  }

  lemma MoreBehind(x: Exchange, x': Exchange, more: string)
    requires BodyOk(x) && x'.request == x.request && x'.body == x.body && x'.rest == x.rest + more
    ensures BodyOk(x') && x'.body + x'.rest == x.body + x.rest + more
  {
    var s := x.body + x.rest;
    ConcatAssoc(x.body, x.rest, more);
    if CONTENT_LENGTH in Headers(x) {
      assert (s + more)[..|s|] == s;
      ContainsInPrefix(s + more, |s|);
    }
  }

  lemma ThereFits(u: string, x: Exchange, parts: seq<Event>, last: Event) returns (x': Exchange)
    requires IsThere(u, x) && Chunks(parts) == "" && Brings(last) != ""
    ensures x' == Exchange(x.request, x.body, x.rest + Brings(last), parts, last, []) && Fits(u, x')
  {
    var head, more := R.PrintHead(x.request), Brings(last);
    x' := Exchange(x.request, x.body, x.rest + more, parts, last, []);
    MoreBehind(x, x', more);
    assert u + Chunks(parts) == u;
    ConcatAssoc(head, x.body + x.rest, more);
  }

  lemma EventsUpTo(events: seq<Event>, k: nat, x: Exchange)
    requires k < |events| && x.parts == events[..k] && x.last == events[k] && x.after == []
    ensures events == EventsOf(x) + events[k + 1..]
  {
  }

  lemma FirstReadCompletes(b: Conn, h: Handler, x: Exchange, events: seq<Event>, c: Conn) returns (x': Exchange, m: Conn, more: seq<Event>)
    requires IsThere(b.unread, x) && Run(b, h, events, c) && Chunks(events) != ""
    ensures x'.request == x.request && x'.body == x.body && Fits(b.unread, x')
    ensures Run(b, h, EventsOf(x'), m) && Run(m, h, more, c)
  {
    var k := FirstRead(events);
    x' := ThereFits(b.unread, x, events[..k], events[k]);
    more := events[k + 1..];
    EventsUpTo(events, k, x');
    m := RunSplit(b, h, EventsOf(x'), more, c);
  }

  lemma FirstReadAnswers(b: Conn, h: Handler, x: Exchange, events: seq<Event>, c: Conn) returns (text: string)
    requires Inv(b) && b.request == FRESH && IsThere(b.unread, x) && Run(b, h, events, c) && Chunks(events) != ""
    ensures |c.replies| > |b.replies|
    ensures c.replies[..|b.replies| + 1] == b.replies + [Reply(AsParsed(x), Handled(h, AsParsed(x), b.response), text)]
  {
    var x', m, more := FirstReadCompletes(b, h, x, events, c);
    ExchangeAnswered(b, h, x', m);
    RepliesKept(m, h, more, c);
    text := x'.last.text;
  }

  /** A request that lies complete in the unread bytes, behind one that has been answered, is answered if and only if a
      later read brings anything at all; nothing else that can happen gets it parsed. */
  lemma CompleteAnsweredIff(b: Conn, h: Handler, x: Exchange, events: seq<Event>, c: Conn)
    requires Inv(b) && b.request == FRESH && IsThere(b.unread, x) && Run(b, h, events, c)
    ensures |b.replies| <= |c.replies| && c.replies[..|b.replies|] == b.replies
    ensures |c.replies| > |b.replies| <==> Chunks(events) != ""
    ensures |c.replies| > |b.replies| ==>
              c.replies[|b.replies|].request == AsParsed(x)
              && c.replies[|b.replies|].response == Handled(h, AsParsed(x), b.response)
    ensures Chunks(events) == "" ==> c.request == FRESH && c.unread == b.unread
  {
    RepliesKept(b, h, events, c);
    if Chunks(events) == "" {
      IdleRun(b, h, events, c);
    } else {
      var text := FirstReadAnswers(b, h, x, events, c);
      var reply := Reply(AsParsed(x), Handled(h, AsParsed(x), b.response), text);
      assert c.replies[|b.replies|] == c.replies[..|b.replies| + 1][|b.replies|] == reply;
    }
  }

  // ----- Requests that come in at once

  lemma {:induction false} SomeOrder(m: map<string, string>) returns (keys: seq<string>)
    ensures Enumerates(keys, m)
    decreases |m|
  {
    if m == map[] {
      keys := [];
    } else {
      var k :| k in m;
      var m' := m - {k};
      assert m'.Keys == m.Keys - {k};
      var rest := SomeOrder(m');
      keys := [k] + rest;
      assert forall q :: q in keys <==> q == k || q in rest;
      assert forall j :: 0 < j < |keys| ==> keys[j] == rest[j - 1];
    }
  }

  lemma SomeText(r: Response) returns (text: string)
    ensures Prints(text, r) && |text| >= 2
  {
    var keys := SomeOrder(r.headers);
    text := Serialize(r, keys);
  }

  /** A request without body that comes in with one read, with `rest` behind it. */
  function AtOnce(r: R.Request, rest: string, text: string, w: WriteResult): Exchange {
    Exchange(r, "", rest, [], Readable(Got(R.PrintHead(r) + rest), text, w), [])
  }

  lemma AtOnceFits(r: R.Request, rest: string, text: string, w: WriteResult)
    requires R.PlainRequest(r) && CONTENT_LENGTH !in R.FieldMap(map[], r.fields)
    ensures Fits("", AtOnce(r, rest, text, w))
  {
    assert "" + rest == rest;
  }

  lemma OneByteOut(q: Conn)
    requires |q.pending| >= 2
    ensures Written(q, Took(1)).closes == q.closes && Written(q, Took(1)).armed && Written(q, Took(1)).pending != ""
  {
  }

  lemma AtOnceSteps(b: Conn, h: Handler, x: Exchange) returns (c: Conn)
    requires Inv(b) && b.request == FRESH && Fits(b.unread, x) && x.parts == [] && x.after == [] && x.last.w == Took(1)
    requires Prints(x.last.text, Handled(h, AsParsed(x), b.response)) && |x.last.text| >= 2
    ensures Run(b, h, EventsOf(x), c) && c.closes == b.closes && c.armed && c.pending != ""
  {
    var m := RequestArrives(b, h, x);
    assert m == b;
    var turn := Received(b, h, x.last.got);
    var q := Queued(turn.c, turn.p, x.last.text);
    OneByteOut(q);
    c := Written(q, Took(1));
    assert EventsOf(x) == [x.last] && [x.last][1..] == [];
    RunCons(b, c, h, [x.last], c);
  }

  /** One request that comes in with one read, answered and cut short by the socket after one byte: the connection stays
      open, armed for writing and reading, and what came in behind the request stays unread. */
  lemma CutShort(b: Conn, h: Handler, r: R.Request, rest: string) returns (x: Exchange, c: Conn)
    requires Inv(b) && b.request == FRESH && b.unread == ""
    requires R.PlainRequest(r) && CONTENT_LENGTH !in R.FieldMap(map[], r.fields)
    ensures Fits("", x) && x == AtOnce(r, rest, x.last.text, Took(1)) && Run(b, h, EventsOf(x), c) && Answered(b, h, x, c)
    ensures c.closes == b.closes && c.armed && c.pending != ""
  {
    var text := SomeText(Handled(h, AsParsed(AtOnce(r, rest, "", Took(1))), b.response));
    x := AtOnce(r, rest, text, Took(1));
    AtOnceFits(r, rest, text, Took(1));
    c := AtOnceSteps(b, h, x);
    ExchangeAnswered(b, h, x, c);
  }

  lemma Drained(c: Conn)
    requires Inv(c) && c.pending != ""
    ensures var c' := Written(c, Took(|c.pending|)); c'.closes == c.closes + 1 && c'.replies == c.replies
  {
    WrittenCloses(c, Took(|c.pending|));
  }

  /** Two requests in one read, and no byte after them: the second is never answered, whatever else happens, and as soon
      as the answer to the first has gone out the connection is closed. */
  lemma PipelinedStarves(h: Handler, r1: R.Request, r2: R.Request) returns (e: Event, c: Conn)
    requires R.PlainRequest(r1) && R.PlainRequest(r2) && CONTENT_LENGTH !in R.FieldMap(map[], r1.fields)
    ensures e.Readable? && e.got == Got(R.PrintHead(r1) + R.PrintHead(r2)) && Run(OPENED, h, [e], c)
    ensures |c.replies| == 1 && c.closes == 0 && c.armed && c.request == FRESH && c.unread == R.PrintHead(r2)
    ensures forall events, c' :: Chunks(events) == "" && Run(c, h, events, c') ==>
              c'.replies == c.replies && c'.request == FRESH && c'.unread == R.PrintHead(r2)
    ensures c.pending != "" && Written(c, Took(|c.pending|)).closes == 1 && Written(c, Took(|c.pending|)).replies == c.replies
  {
    var x;
    x, c := CutShort(OPENED, h, r1, R.PrintHead(r2));
    e := x.last;
    assert EventsOf(x) == [e];
    forall events, c' | Chunks(events) == "" && Run(c, h, events, c')
      ensures c'.replies == c.replies && c'.request == FRESH && c'.unread == R.PrintHead(r2)
    {
      IdleRun(c, h, events, c');
    }
    Drained(c);
  }

  /** And so does an answer whose first write takes nothing wait: the connection stays open, with all of it pending, and
      is not armed for writing. */
  lemma AnswerStalls(h: Handler, r: R.Request) returns (e: Event, c: Conn)
    requires R.PlainRequest(r) && CONTENT_LENGTH !in R.FieldMap(map[], r.fields)
    ensures e.Readable? && e.got == Got(R.PrintHead(r)) && e.w == WouldBlock && Run(OPENED, h, [e], c)
    ensures |c.replies| == 1 && c.closes == 0 && !c.armed && c.wire == "" && c.pending == c.replies[0].text != ""
  {
    var text := SomeText(Handled(h, AsParsed(AtOnce(r, "", "", WouldBlock)), OPENED.response));
    var x := AtOnce(r, "", text, WouldBlock);
    AtOnceFits(r, "", text, WouldBlock);
    e := x.last;
    assert e.got == Got(R.PrintHead(r)) by { assert R.PrintHead(r) + "" == R.PrintHead(r); }
    var m := RequestArrives(OPENED, h, x);
    assert m == OPENED;
    c := Written(Queued(Received(OPENED, h, e.got).c, AsParsed(x), text), WouldBlock);
    assert "" + text == text && [e][1..] == [];
    RunCons(OPENED, c, h, [e], c);
  }
}
