/** What a connection guarantees over whole runs: which bytes go out, when it closes, and what a client reads. */
module HttpConnTheorems {
  import opened Text
  import opened Buffer
  import opened RequestParser
  import opened HttpResponse
  import opened HttpConn
  import FileServer
  import F = ResponseFraming

  // ----- Runs

  /** What a worker is called for: readable (the read, the text of a response if there is one, the write), writable,
      an error condition; or the timer's callback. */
  datatype Event = Readable(got: ReadResult, text: string, w: WriteResult) | Writable(w: WriteResult) | Failure | Timeout

  function Step(c: Conn, h: Handler, e: Event): Turn {
    match e
    case Readable(got, text, w) =>
      (match Received(c, h, got)
       case Answering(c', p) => Settled(Written(Queued(c', p, text), w))
       case turn => turn)
    case Writable(w) => Settled(Written(c, w))
    case _ => Settled(Close(c))
  }

  /** The text written is the response printed. */
  ghost predicate Faithful(c: Conn, h: Handler, e: Event) {
    e.Readable? && Received(c, h, e.got).Answering? ==> Prints(e.text, Received(c, h, e.got).c.response)
  }

  /** From `c` the events lead to `c'`. */
  ghost predicate Run(c: Conn, h: Handler, events: seq<Event>, c': Conn)
    decreases |events|
  {
    if events == [] then c' == c else
      var turn := Step(c, h, events[0]);
      Faithful(c, h, events[0]) && turn.Settled? && Run(turn.c, h, events[1..], c')
  }

  function Texts(rs: seq<Reply>): string
    decreases |rs|
  {
    if rs == [] then "" else rs[0].text + Texts(rs[1..])
  }

  lemma {:induction false} TextsAppend(rs: seq<Reply>, r: Reply)
    ensures Texts(rs + [r]) == Texts(rs) + r.text
    decreases |rs|
  {
    if rs != [] {
      assert (rs + [r])[1..] == rs[1..] + [r];
      TextsAppend(rs[1..], r);
    }
  }

  lemma RunCons(c: Conn, c1: Conn, h: Handler, events: seq<Event>, c': Conn)
    requires events != [] && Faithful(c, h, events[0]) && Step(c, h, events[0]) == Settled(c1) && Run(c1, h, events[1..], c')
    ensures Run(c, h, events, c')
  {
  }

  lemma {:induction false} RunJoin(c: Conn, m: Conn, h: Handler, a: seq<Event>, b: seq<Event>, c': Conn)
    requires Run(c, h, a, m) && Run(m, h, b, c')
    ensures Run(c, h, a + b, c')
    decreases |a|
  {
    if a == [] {
      assert a + b == b;
    } else {
      assert (a + b)[0] == a[0] && (a + b)[1..] == a[1..] + b;
      RunJoin(Step(c, h, a[0]).c, m, h, a[1..], b, c');
    }
  }

  /** A run can be cut anywhere. */
  lemma {:induction false} RunSplit(c: Conn, h: Handler, a: seq<Event>, b: seq<Event>, c': Conn) returns (m: Conn)
    requires Run(c, h, a + b, c')
    ensures Run(c, h, a, m) && Run(m, h, b, c')
    decreases |a|
  {
    if a == [] {
      assert a + b == b;
      return c;
    }
    assert (a + b)[0] == a[0] && (a + b)[1..] == a[1..] + b;
    var c1 := Step(c, h, a[0]).c;
    m := RunSplit(c1, h, a[1..], b, c');
    RunCons(c, c1, h, a, m);
  }

  /** And the events determine where it leads. */
  lemma {:induction false} RunUnique(c: Conn, h: Handler, events: seq<Event>, c': Conn, c'': Conn)
    requires Run(c, h, events, c') && Run(c, h, events, c'')
    ensures c' == c''
    decreases |events|
  {
    if events != [] { RunUnique(Step(c, h, events[0]).c, h, events[1..], c', c''); }
  }

  // ----- What goes out

  ghost predicate Inv(c: Conn) {
    && !c.keepAlive
    && c.wire + c.pending == Texts(c.replies)
    && forall i :: 0 <= i < |c.replies| ==> Prints(c.replies[i].text, c.replies[i].response)
  }

  lemma Moved(wire: string, pending: string, n: nat)
    requires n <= |pending|
    ensures (wire + pending[..n]) + pending[n..] == wire + pending
  {
  }

  lemma SentInv(c: Conn, n: nat)
    requires Inv(c) && n <= |c.pending|
    ensures Inv(Sent(c, n))
  {
    Moved(c.wire, c.pending, n);
  }

  lemma WrittenInv(c: Conn, w: WriteResult)
    requires Inv(c)
    ensures Inv(Written(c, w)) && Written(c, w).replies == c.replies
  {
    if w.Took? { SentInv(c, FileServer.Min(w.most, |c.pending|)); }
  }

  lemma QueuedInv(c: Conn, p: Parser, text: string)
    requires Inv(c) && Prints(text, c.response)
    ensures Inv(Queued(c, p, text))
  {
    TextsAppend(c.replies, Reply(p, c.response, text));
    ConcatAssoc(c.wire, c.pending, text);
  }

  /** The two connections have the same bytes and replies, and are closed as often. */
  ghost predicate SameOutput(c: Conn, c': Conn) {
    c'.closes == c.closes && c'.wire == c.wire && c'.pending == c.pending && c'.replies == c.replies && c'.keepAlive == c.keepAlive
  }

  lemma DecidedOutput(c: Conn, h: Handler)
    ensures !Decided(c, h).Hung? && SameOutput(c, Decided(c, h).c)
  {
  }

  lemma ReceivedInv(c: Conn, h: Handler, got: ReadResult)
    requires Inv(c) && !Received(c, h, got).Hung?
    ensures Inv(Received(c, h, got).c)
    ensures Received(c, h, got).Answering? ==> got != Got("") && Received(c, h, got).c.closes == c.closes
  {
    if got.Got? && got.bytes != "" {
      var o := Parse(c.request, c.unread + got.bytes);
      DecidedOutput(c.(request := o.p, unread := o.unread), h);
    }
  }

  lemma StepInv(c: Conn, h: Handler, e: Event)
    requires Inv(c) && Faithful(c, h, e) && Step(c, h, e).Settled?
    ensures Inv(Step(c, h, e).c)
  {
    match e
    case Readable(got, text, w) =>
      ReceivedInv(c, h, got);
      var turn := Received(c, h, got);
      if turn.Answering? {
        QueuedInv(turn.c, turn.p, text);
        WrittenInv(Queued(turn.c, turn.p, text), w);
      }
    case Writable(w) => WrittenInv(c, w);
    case _ =>
  }

  /** Under any reads, short writes, errors and timeouts: the bytes on the wire and the bytes still pending are the
      printed responses, in order, nothing lost, doubled or mixed. */
  lemma {:induction false} BytesConserved(c: Conn, h: Handler, events: seq<Event>, c': Conn)
    requires Inv(c) && Run(c, h, events, c')
    ensures Inv(c')
    decreases |events|
  {
    if events != [] {
      StepInv(c, h, events[0]);
      BytesConserved(Step(c, h, events[0]).c, h, events[1..], c');
    }
  }

  // ----- When it closes

  /** A write is attempted on `c`. */
  predicate Attempts(c: Conn, h: Handler, e: Event) {
    (e.Writable? && c.pending != "") || (e.Readable? && Received(c, h, e.got).Answering?)
  }

  lemma PrintsSomething(text: string, r: Response)
    requires Prints(text, r)
    ensures text != ""
  {
  }

  lemma WrittenCloses(c: Conn, w: WriteResult)
    requires !c.keepAlive && c.pending != ""
    ensures var c' := Written(c, w);
            && c'.closes == c.closes + (if w == WriteFailed || c'.pending == "" then 1 else 0)
            && (c'.pending == "" ==> c'.wire == c.wire + c.pending)
  {
    if w.Took? && w.most >= |c.pending| { assert c.pending[..|c.pending|] == c.pending; }
  }

  lemma AllOut(c: Conn)
    requires c.wire + c.pending == Texts(c.replies)
    ensures c.wire == Texts(c.replies) <==> c.pending == ""
  {
    assert |c.wire + c.pending| == |c.wire| + |c.pending|;
  }

  lemma AttemptCloses(c: Conn, w: WriteResult)
    requires Inv(c) && c.pending != ""
    ensures var c' := Written(c, w);
            c'.closes == c.closes + if w == WriteFailed || c'.wire == Texts(c'.replies) then 1 else 0
  {
    WrittenInv(c, w);
    AllOut(Written(c, w));
    WrittenCloses(c, w);
  }

  /** An answer is queued behind what is pending, and written. */
  lemma AnswerCloses(c: Conn, p: Parser, text: string, w: WriteResult)
    requires Inv(c) && Prints(text, c.response)
    ensures var c' := Written(Queued(c, p, text), w);
            c'.closes == c.closes + if w == WriteFailed || c'.wire == Texts(c'.replies) then 1 else 0
  {
    PrintsSomething(text, c.response);
    QueuedInv(c, p, text);
    AttemptCloses(Queued(c, p, text), w);
  }

  /** The connection is closed exactly on the peer's end of stream, an error condition, a timeout, a failed write, or
      when every byte of every response has gone out. */
  lemma ClosesIff(c: Conn, h: Handler, e: Event, c': Conn)
    requires Inv(c) && Faithful(c, h, e) && Step(c, h, e) == Settled(c')
    ensures c'.closes == c.closes + (
              if e.Failure? || e.Timeout? || (e.Readable? && e.got == Got(""))
                 || (Attempts(c, h, e) && (e.w == WriteFailed || c'.wire == Texts(c'.replies))) then 1 else 0)
  {
    if e.Writable? && c.pending != "" {
      AttemptCloses(c, e.w);
    } else if e.Readable? && Received(c, h, e.got).Answering? {
      ReceivedInv(c, h, e.got);
      var turn := Received(c, h, e.got);
      AnswerCloses(turn.c, turn.p, e.text, e.w);
    }
  }

  // ----- When it waits to be woken for writing

  /** As long as the connection has not been closed: it is armed for writing exactly when some bytes have gone out, and
      then others have not. */
  ghost predicate ArmedOk(c: Conn) {
    c.closes == 0 ==> (c.armed <==> c.wire != "") && (c.wire != "" ==> c.pending != "")
  }

  lemma WrittenArms(c: Conn, w: WriteResult)
    requires ArmedOk(c) && !c.keepAlive
    ensures ArmedOk(Written(c, w)) && !Written(c, w).keepAlive && Written(c, w).closes >= c.closes
  {
  }

  lemma DecidedArms(c: Conn, h: Handler)
    ensures !Decided(c, h).Hung? && Decided(c, h).c.armed == c.armed && SameOutput(c, Decided(c, h).c)
  {
  }

  lemma ArmedStep(c: Conn, h: Handler, e: Event)
    requires ArmedOk(c) && !c.keepAlive && Step(c, h, e).Settled?
    ensures var c' := Step(c, h, e).c; ArmedOk(c') && !c'.keepAlive && c'.closes >= c.closes
  {
    match e
    case Readable(got, text, w) =>
      if got.Got? && got.bytes != "" {
        var o := Parse(c.request, c.unread + got.bytes);
        DecidedArms(c.(request := o.p, unread := o.unread), h);
        var turn := Received(c, h, got);
        if turn.Answering? { WrittenArms(Queued(turn.c, turn.p, text), w); }
      }
    case Writable(w) => WrittenArms(c, w);
    case _ =>
  }

  /** Over every run: a connection that is not closed is armed for writing if and only if a write has taken some of its
      bytes.  So an answer of which the first write takes nothing is not armed for. */
  lemma {:induction false} ArmedIff(c: Conn, h: Handler, events: seq<Event>, c': Conn)
    requires ArmedOk(c) && !c.keepAlive && Run(c, h, events, c')
    ensures ArmedOk(c') && c'.closes >= c.closes
    decreases |events|
  {
    if events != [] {
      ArmedStep(c, h, events[0]);
      ArmedIff(Step(c, h, events[0]).c, h, events[1..], c');
    }
  }

  // ----- What a handler is given

  /** The handler gets the request and the connection's response with code 200 and the client's wish to keep the connection
      alive; without a handler the answer is a 404. */
  lemma HandlerIsGiven(h: Handler, p: Parser, r: Response)
    ensures h.NoHandler? ==> Handled(h, p, r).code == 404 && Handled(h, p, r).body == "404 Not Found"
    ensures h.Handler? ==>
              exists r' :: Handled(h, p, r) == h.run(p, r') && r'.code == 200 && r'.headers == r.headers && r'.body == r.body
                           && (r'.keepAlive <==> "Connection" in p.headers && p.headers["Connection"] == "keep-alive")
  {
    if h.Handler? {
      var r' := r.(code := 200, keepAlive := FileServer.IsKeepAlive(p.headers));
      assert Handled(h, p, r) == h.run(p, r');
    }
  }

  // ----- What a client reads

  function ReadMessages(s: string): seq<F.Message>
    decreases |s|
  {
    match F.ReadMessage(s)
    case Complete(m, rest) => if |rest| < |s| then [m] + ReadMessages(rest) else [m]
    case _ => []
  }

  ghost predicate IsMessageOf(m: F.Message, r: Response) {
    exists keys :: Enumerates(keys, r.headers) && F.Says(m, r, keys)
  }

  lemma ReadsOne(text: string, r: Response, more: string) returns (m: F.Message)
    requires Prints(text, r) && F.PlainResponse(r)
    ensures F.ReadMessage(text + more) == F.Complete(m, more) && text != "" && IsMessageOf(m, r)
  {
    PrintsSomething(text, r);
    var keys :| Enumerates(keys, r.headers) && text == Serialize(r, keys);
    F.ResponseRoundTrip(r, keys, more);
    m := F.ReadMessage(text + more).m;
  }

  lemma ReadMessagesCons(s: string, m: F.Message, more: string)
    requires F.ReadMessage(s) == F.Complete(m, more) && |more| < |s|
    ensures ReadMessages(s) == [m] + ReadMessages(more)
  {
  }

  ghost predicate MessagesOf(ms: seq<F.Message>, rs: seq<Reply>) {
    |ms| == |rs| && forall i :: 0 <= i < |rs| ==> IsMessageOf(ms[i], rs[i].response)
  }

  lemma MessagesCons(m: F.Message, ms: seq<F.Message>, rs: seq<Reply>)
    requires rs != [] && IsMessageOf(m, rs[0].response) && MessagesOf(ms, rs[1..])
    ensures MessagesOf([m] + ms, rs)
  {
    forall i | 0 <= i < |rs| ensures IsMessageOf(([m] + ms)[i], rs[i].response) {
      if i > 0 { assert ([m] + ms)[i] == ms[i - 1] && rs[i] == rs[1..][i - 1]; }
    }
  }

  /** A client that reads messages one after the other reads back every response in order, and nothing else. */
  lemma {:induction false} ClientReadsReplies(rs: seq<Reply>)
    requires forall i :: 0 <= i < |rs| ==> Prints(rs[i].text, rs[i].response) && F.PlainResponse(rs[i].response)
    ensures MessagesOf(ReadMessages(Texts(rs)), rs)
    decreases |rs|
  {
    if rs != [] {
      var first, more := rs[0], Texts(rs[1..]);
      var m := ReadsOne(first.text, first.response, more);
      ReadMessagesCons(first.text + more, m, more);
      ClientReadsReplies(rs[1..]);
      MessagesCons(m, ReadMessages(more), rs);
    }
  }
}
