/** One connection: bytes are read, parsed and answered, and the answers are written as far as the socket takes them.

    `Conn` is the connection as a value, with what has gone out and what has been answered so far; the class below
    does the same on its buffers. */
module HttpConn {
  import opened Text
  import opened Buffer
  import opened RequestParser
  import opened HttpResponse
  import Requests = HttpRequest
  import FileServer
  import T = HeapTimer

  type Positive = n: int | 0 < n witness 1

  /** One `write` of nonempty data: the socket takes some of it; or takes nothing, returning 0 or less, with `errno` at
      EAGAIN (`WouldBlock`) or at anything else (`WriteFailed`).  A call that returns 0 leaves `errno` as it was. */
  datatype WriteResult = Took(most: Positive) | WouldBlock | WriteFailed

  datatype Handler = NoHandler | Handler(run: (Parser, Response) -> Response)

  /** A response that was queued for writing, and the request it answers. */
  datatype Reply = Reply(request: Parser, response: Response, text: string)

  datatype Conn = Conn(
    unread: string, request: Parser, response: Response, pending: string, armed: bool, keepAlive: bool, closes: nat,
    wire: string, replies: seq<Reply>)

  const OPENED := Conn("", FRESH, Response(200, false, map[], ""), "", false, false, 0, "", [])

  function BadRequest(r: Response): Response { r.(code := 400, body := "400 Bad Request") }

  function Handled(h: Handler, p: Parser, r: Response): Response {
    var r' := r.(code := 200, keepAlive := FileServer.IsKeepAlive(p.headers));
    match h
    case NoHandler => r'.(code := 404, body := "404 Not Found")
    case Handler(run) => run(p, r')
  }

  function Close(c: Conn): Conn { c.(closes := c.closes + 1) }

  function Sent(c: Conn, n: nat): Conn
    requires n <= |c.pending|
  {
    c.(wire := c.wire + c.pending[..n], pending := c.pending[n..])
  }

  /** `HandleWrite`. */
  function Written(c: Conn, w: WriteResult): Conn {
    if c.pending == "" then c
    else if w == WriteFailed then Close(c)
    else if w == WouldBlock then c
    else
      var c' := Sent(c, FileServer.Min(w.most, |c.pending|));
      if c'.pending != "" then c'.(armed := true)
      else if c'.keepAlive then c'.(armed := false, request := FRESH, unread := "")
      else Close(c'.(armed := false))
  }

  /** What `HandleRead` comes to before it writes. */
  datatype Turn = Settled(c: Conn) | Answering(c: Conn, p: Parser) | Hung(p: Parser)

  /** What becomes of a connection once the parser has stopped. */
  function Decided(c: Conn, h: Handler): Turn {
    if c.request.state == ERROR then Answering(c.(response := BadRequest(c.response)), c.request)
    else if c.request.state == DONE then
      Answering(c.(request := FRESH, response := Handled(h, c.request, c.response)), c.request)
    else Settled(c)
  }

  function Parsed(c: Conn, h: Handler): Turn {
    match Parse(c.request, c.unread)
    case Hangs(p) => Hung(p)
    case Finished(p, unread) => Decided(c.(request := p, unread := unread), h)
  }

  function Received(c: Conn, h: Handler, got: ReadResult): Turn {
    if got.Failed? then Settled(c)
    else if got.bytes == "" then Settled(Close(c))
    else Parsed(c.(unread := c.unread + got.bytes), h)
  }

  function Queued(c: Conn, p: Parser, text: string): Conn {
    c.(pending := c.pending + text, replies := c.replies + [Reply(p, c.response, text)])
  }

  /** `text` is `r` printed, with the header map in some order. */
  ghost predicate Prints(text: string, r: Response) {
    exists keys :: Enumerates(keys, r.headers) && text == Serialize(r, keys)
  }

  /** `c'` is where the turn leads once an answer, if there is one, is queued as `text` and written. */
  ghost predicate Follows(turn: Turn, w: WriteResult, hung: bool, text: string, c': Conn) {
    match turn
    case Settled(c) => !hung && c' == c
    case Answering(c, p) => !hung && Prints(text, c.response) && c' == Written(Queued(c, p, text), w)
    case Hung(p) => hung && c'.request == p
  }

  class HttpConn {
    const readBuffer: Buffer
    const writeBuffer: Buffer
    const request: Requests.HttpRequest
    const response: HttpResponse
    const handler: Handler
    const fd: int
    const timer: T.HeapTimer
    const clock: T.Clock
    var armed: bool
    var isKeepAlive: bool
    var closes: nat
    ghost var wire: string
    ghost var replies: seq<Reply>

    ghost function Repr(): set<object>
      reads this, readBuffer, writeBuffer
    {
      {this, request, response, readBuffer, writeBuffer, readBuffer.buffer, writeBuffer.buffer}
    }

    ghost predicate Valid()
      reads this, readBuffer, writeBuffer
    {
      && readBuffer != writeBuffer && readBuffer.buffer != writeBuffer.buffer
      && readBuffer.Valid() && writeBuffer.Valid()
    }

    ghost function View(): Conn
      reads this, readBuffer, writeBuffer, Repr()
      requires Valid()
    {
      Conn(readBuffer.Contents(), request.View(), response.View(), writeBuffer.Contents(), armed, isKeepAlive, closes,
           wire, replies)
    }

    constructor (handler: Handler, fd: int, timer: T.HeapTimer, clock: T.Clock)
      ensures Valid() && fresh(Repr()) && View() == OPENED
      ensures this.handler == handler && this.fd == fd && this.timer == timer && this.clock == clock
    {
      this.handler, this.fd, this.timer, this.clock := handler, fd, timer, clock;
      readBuffer := new Buffer(1024);
      writeBuffer := new Buffer(1024);
      request := new Requests.HttpRequest();
      response := new HttpResponse(200);
      armed, isKeepAlive, closes, wire, replies := false, false, 0, "", [];
    }

    /** The close callback drops the server's reference to the connection; here it is counted. */
    method HandleClose()
      requires Valid()
      modifies this`closes
      ensures Valid() && View() == Close(old(View()))
    {
      closes := closes + 1;
    }

    /** `n` bytes have gone out. */
    method Advance(n: nat)
      requires Valid() && n <= writeBuffer.ReadableBytes()
      modifies this`wire, writeBuffer`readPos
      ensures Valid() && View() == Sent(old(View()), n)
    {
      wire := wire + writeBuffer.Contents()[..n];
      writeBuffer.Retrieve(n);
    }

    method HandleWrite(w: WriteResult)
      requires Valid()
      modifies this`armed, this`closes, this`wire, request, readBuffer, writeBuffer, readBuffer.buffer, writeBuffer.buffer
      ensures Valid() && Repr() == old(Repr()) && View() == Written(old(View()), w)
    {
      var size := writeBuffer.ReadableBytes();
      if size == 0 { return; }
      if w.Took? {
        Advance(if w.most <= size then w.most else size);
        if writeBuffer.ReadableBytes() == 0 { Drained(); } else { armed := true; }
      } else if w == WriteFailed {
        HandleClose();
      }
    }

    /** Nothing is left to write. */
    method Drained()
      requires Valid() && writeBuffer.Contents() == ""
      modifies this`armed, this`closes, request, readBuffer, writeBuffer, readBuffer.buffer, writeBuffer.buffer
      ensures Valid() && Repr() == old(Repr())
      ensures View() == var c := old(View()).(armed := false);
                        if c.keepAlive then c.(request := FRESH, unread := "") else Close(c)
    {
      armed := false;
      if isKeepAlive {
        request.Reset();
        readBuffer.RetrieveAll();
        writeBuffer.RetrieveAll();
      } else {
        HandleClose();
      }
    }

    /** Serialises the response behind what is still to be written. */
    method QueueResponse(ghost p: Parser) returns (ghost text: string)
      requires Valid()
      modifies this`replies, writeBuffer, writeBuffer.buffer
      ensures Valid() && (writeBuffer.buffer == old(writeBuffer.buffer) || fresh(writeBuffer.buffer))
      ensures Prints(text, response.View()) && View() == Queued(old(View()), p, text)
    {
      ghost var r := response.View();
      ghost var keys := response.AppendToBuffer(writeBuffer);
      text := Serialize(r, keys);
      replies := replies + [Reply(p, r, text)];
    }

    /** The fields a handler may set. */
    method SetResponse(r: Response)
      modifies response
      ensures response.View() == r
    {
      response.code, response.keepAlive, response.headers, response.body := r.code, r.keepAlive, r.headers, r.body;
    }

    /** Parses what is there and drops what the parser consumed; `hung` marks a call that does not return. */
    method ParsePending() returns (hung: bool)
      requires Valid()
      modifies request, readBuffer`readPos
      ensures Valid()
      ensures match Parse(old(request.View()), old(readBuffer.Contents()))
              case Finished(p, unread) => !hung && View() == old(View()).(request := p, unread := unread)
              case Hangs(p) => hung && request.View() == p
    {
      var data := readBuffer.buffer[readBuffer.readPos..readBuffer.writePos];
      var consumed;
      consumed, hung := request.Parse(data);
      if !hung { readBuffer.Retrieve(consumed); }
    }

    method Refuse(w: WriteResult) returns (ghost text: string)
      requires Valid() && request.state == ERROR
      modifies Repr()
      ensures Valid() && fresh(Repr() - old(Repr()))
      ensures Decided(old(View()), handler).Answering?
      ensures var t := Decided(old(View()), handler); Prints(text, t.c.response) && View() == Written(Queued(t.c, t.p, text), w)
    {
      SetResponse(BadRequest(response.View()));
      text := QueueResponse(request.View());
      HandleWrite(w);
    }

    method Fulfil(w: WriteResult) returns (ghost text: string)
      requires Valid() && request.state == DONE
      modifies Repr()
      ensures Valid() && fresh(Repr() - old(Repr()))
      ensures Decided(old(View()), handler).Answering?
      ensures var t := Decided(old(View()), handler); Prints(text, t.c.response) && View() == Written(Queued(t.c, t.p, text), w)
    {
      SetResponse(Handled(handler, request.View(), response.View()));
      text := QueueResponse(request.View());
      request.Reset();
      HandleWrite(w);
    }

    method Decide(w: WriteResult) returns (ghost text: string)
      requires Valid()
      modifies Repr()
      ensures Valid() && fresh(Repr() - old(Repr()))
      ensures match Decided(old(View()), handler)
              case Settled(c) => View() == c
              case Answering(c, p) => Prints(text, c.response) && View() == Written(Queued(c, p, text), w)
    {
      text := "";
      if request.state == ERROR {
        text := Refuse(w);
      } else if request.state == DONE {
        text := Fulfil(w);
      }
    }

    method Read(got: ReadResult) returns (n: int)
      requires Valid() && (got.Got? ==> |got.bytes| <= readBuffer.WritableBytes() + STACK_SIZE)
      modifies readBuffer, readBuffer.buffer
      ensures Valid() && (readBuffer.buffer == old(readBuffer.buffer) || fresh(readBuffer.buffer))
      ensures if got.Failed? then n < 0 && View() == old(View())
              else n == |got.bytes| && View() == old(View()).(unread := old(View()).unread + got.bytes)
    {
      n := readBuffer.ReadFd(got);
    }

    method ParseAndDecide(w: WriteResult) returns (hung: bool, ghost text: string)
      requires Valid()
      modifies Repr()
      ensures Valid() && fresh(Repr() - old(Repr()))
      ensures Follows(Parsed(old(View()), handler), w, hung, text, View())
    {
      text := "";
      hung := ParsePending();
      if !hung { text := Decide(w); }
    }

    /** What a read event does once the timer has been adjusted. */
    method ReadAndAnswer(got: ReadResult, w: WriteResult) returns (hung: bool, ghost text: string)
      requires Valid() && (got.Got? ==> |got.bytes| <= readBuffer.WritableBytes() + STACK_SIZE)
      modifies Repr()
      ensures Valid() && fresh(Repr() - old(Repr()))
      ensures Follows(Received(old(View()), handler, got), w, hung, text, View())
    {
      hung, text := false, "";
      var n := Read(got);
      if n == 0 {
        HandleClose();
      } else if n > 0 {
        hung, text := ParseAndDecide(w);
      }
    }

    method Renew()
      requires Valid() && T.ServerOk(timer, clock)
      modifies timer, clock
      ensures Valid() && View() == old(View()) && T.ServerOk(timer, clock) && clock.now >= old(clock.now)
      ensures timer.Pending() ==
                var p := old(timer.Pending());
                if fd in p then p[fd := (clock.now + timer.timeoutMs * T.NS_PER_MS, p[fd].1)] else p
    {
      timer.Adjust(fd, timer.timeoutMs, clock);
    }

    /** The connection's own timer, and no other, is renewed before anything else; `hung` marks a call that does not
        return. */
    method HandleRead(got: ReadResult, w: WriteResult) returns (hung: bool, ghost text: string)
      requires Valid() && T.ServerOk(timer, clock)
      requires got.Got? ==> |got.bytes| <= readBuffer.WritableBytes() + STACK_SIZE
      modifies Repr(), timer, clock
      ensures Valid() && fresh(Repr() - old(Repr())) && T.ServerOk(timer, clock) && clock.now >= old(clock.now)
      ensures timer.Pending() ==
                var p := old(timer.Pending());
                if fd in p then p[fd := (clock.now + timer.timeoutMs * T.NS_PER_MS, p[fd].1)] else p
      ensures Follows(Received(old(View()), handler, got), w, hung, text, View())
    {
      Renew();
      assert (timer as object) !in Repr() && (clock as object) !in Repr();
      ghost var pending := timer.Pending();
      hung, text := ReadAndAnswer(got, w);
      assert T.ServerOk(timer, clock) && timer.Pending() == pending;
    }
  }
}
