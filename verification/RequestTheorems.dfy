/** What the request parser guarantees: it does not matter how the bytes arrive, and a printed request is read back
    exactly. */
module RequestTheorems {
  import Bits
  import opened FieldNames
  import opened Text
  import opened RequestParser

  // ----- Delivery independence

  /** A body is only ever awaited when its length was announced. */
  predicate ParserOk(p: Parser) { p.state == BODY ==> CONTENT_LENGTH in p.headers }

  lemma AwaitBodyExtends(p: Parser, a: string, b: string)
    requires CONTENT_LENGTH in p.headers && ContentLength(p) <= |a|
    ensures AwaitBody(Config(p, a)).Next?
    ensures var c' := AwaitBody(Config(p, a)).c; AwaitBody(Config(p, a + b)) == Next(Config(c'.p, c'.unread + b))
  {
    var n := ContentLength(p);
    assert (a + b)[..n] == a[..n] && (a + b)[n..] == a[n..] + b;
  }

  function AfterLine(p: Parser, line: string): Parser {
    if p.state == REQUEST_LINE then AfterRequestLine(p, line) else AfterHeaderLine(p, line)
  }

  /** An iteration that takes a line. */
  lemma LineStep(p: Parser, data: string, pos: nat)
    requires Guard(Config(p, data)) && Find(data, CRLF, 0) == pos && (p.state == REQUEST_LINE || p.state == HEADER)
    ensures LoopBody(Config(p, data)) == Next(Config(AfterLine(p, data[..pos]), data[pos + 2..]))
    ensures ParserOk(AfterLine(p, data[..pos]))
  {
  }

  lemma TakeAppended(a: string, b: string, pos: nat)
    requires pos + 2 <= |a|
    ensures (a + b)[..pos] == a[..pos] && (a + b)[pos + 2..] == a[pos + 2..] + b && |a[pos + 2..]| < |a|
  {
  }

  lemma LineExtends(p: Parser, a: string, b: string, pos: nat)
    requires Guard(Config(p, a)) && Find(a, CRLF, 0) == pos && (p.state == REQUEST_LINE || p.state == HEADER)
    ensures LoopBody(Config(p, a)).Next? && |LoopBody(Config(p, a)).c.unread| < |a|
    ensures var c' := LoopBody(Config(p, a)).c; LoopBody(Config(p, a + b)) == Next(Config(c'.p, c'.unread + b)) && ParserOk(c'.p)
  {
    FindInPrefix(a, b, CRLF);
    TakeAppended(a, b, pos);
    LineStep(p, a, pos);
    LineStep(p, a + b, pos);
  }

  /** Once an iteration finds its line end, bytes further on make no difference to it. */
  lemma IterationExtends(p: Parser, a: string, b: string)
    ensures ParserOk(p) && Find(a, CRLF, 0) >= 0 && Guard(Config(p, a)) && LoopBody(Config(p, a)) != Next(Config(p, a)) ==>
              var c' := LoopBody(Config(p, a)).c;
              && Guard(Config(p, a + b)) && LoopBody(Config(p, a)).Next?
              && LoopBody(Config(p, a + b)) == Next(Config(c'.p, c'.unread + b)) && ParserOk(c'.p)
              && LoopBody(Config(p, a + b)) != Next(Config(p, a + b))
  {
    if !(ParserOk(p) && Find(a, CRLF, 0) >= 0 && Guard(Config(p, a)) && LoopBody(Config(p, a)) != Next(Config(p, a))) {
    } else if p.state == BODY {
      FindInPrefix(a, b, CRLF);
      AwaitBodyExtends(p, a, b);
    } else {
      LineExtends(p, a, b, Find(a, CRLF, 0));
    }
  }

  /** Parsing may stop anywhere: what the first part of the data leaves unread, the rest can be appended to. */
  lemma {:induction false} ParseSplit(p: Parser, a: string, b: string)
    requires ParserOk(p) && Parse(p, a).Finished?
    ensures var o := Parse(p, a); ParserOk(o.p) && Parse(p, a + b) == Parse(o.p, o.unread + b)
    decreases Measure(Config(p, a))
  {
    var c := Config(p, a);
    if Guard(c) && Find(a, CRLF, 0) >= 0 {
      Unfold(c);
      IterationExtends(p, a, b);
      Unfold(Config(p, a + b));
      ParseSplit(LoopBody(c).c.p, LoopBody(c).c.unread, b);
    }
  }

  /** Stuck on an error, stuck whatever else arrives. */
  lemma {:induction false} StuckOnError(p: Parser, a: string, b: string)
    ensures ParserOk(p) && Parse(p, a).Hangs? ==> Parse(p, a).p.state == BODY || Parse(p, a + b) == Parse(p, a)
    decreases Measure(Config(p, a))
  {
    if !(ParserOk(p) && Parse(p, a).Hangs?) { return; }
    var c := Config(p, a);
    StuttersIff(c);
    Unfold(c);
    if Stutters(c) {
      FindInPrefix(a, b, CRLF);
      StuttersIff(Config(p, a + b));
    } else {
      IterationExtends(p, a, b);
      Unfold(Config(p, a + b));
      StuckOnError(LoopBody(c).c.p, LoopBody(c).c.unread, b);
    }
  }

  /** The receiving side of a connection: the parser and the bytes it has not consumed; or stuck in the loop. */
  datatype Receiver = Receiving(p: Parser, unread: string) | Stuck(p: Parser)

  /** One read of `chunk`, as `HandleRead` treats it. */
  function Deliver(r: Receiver, chunk: string): Receiver {
    if r.Stuck? then r else
      match Parse(r.p, r.unread + chunk)
      case Finished(p, unread) => Receiving(p, unread)
      case Hangs(p) => Stuck(p)
  }

  function DeliverAll(r: Receiver, chunks: seq<string>): Receiver
    decreases |chunks|
  {
    if chunks == [] then r else DeliverAll(Deliver(r, chunks[0]), chunks[1..])
  }

  function Concat(chunks: seq<string>): string
    decreases |chunks|
  {
    if chunks == [] then "" else chunks[0] + Concat(chunks[1..])
  }

  /** Two reads are as good as one, unless the first one got stuck in a body. */
  lemma DeliverTwice(r: Receiver, a: string, b: string)
    requires r.Receiving? && ParserOk(r.p)
    ensures var r1 := Deliver(r, a);
            && (r1.Receiving? ==> ParserOk(r1.p))
            && (Deliver(r1, b) == Deliver(r, a + b) || (r1.Stuck? && r1.p.state == BODY))
  {
    var d := r.unread + a;
    assert r.unread + (a + b) == d + b;
    if Parse(r.p, d).Finished? { ParseSplit(r.p, d, b); } else { StuckOnError(r.p, d, b); }
  }

  lemma {:induction false} StaysStuck(p: Parser, chunks: seq<string>)
    ensures DeliverAll(Stuck(p), chunks) == Stuck(p)
    decreases |chunks|
  {
    if chunks != [] { StaysStuck(p, chunks[1..]); }
  }

  /** Delivery independence: however a byte stream is cut into reads, even between CR and LF, the parser's fields and
      the unread bytes are those of a single read of the whole stream.  The one exception is a read that ends inside
      a body whose beginning contains a line end: there the program gets stuck. */
  lemma {:induction false} DeliveryIndependent(r: Receiver, first: string, more: seq<string>)
    requires r.Receiving? && ParserOk(r.p)
    ensures var cut := DeliverAll(r, [first] + more);
            cut == Deliver(r, first + Concat(more)) || (cut.Stuck? && cut.p.state == BODY)
    decreases |more|
  {
    var r1 := Deliver(r, first);
    assert ([first] + more)[1..] == more;
    DeliverTwice(r, first, Concat(more));
    if more == [] {
      assert first + Concat(more) == first;
    } else if r1.Stuck? {
      StaysStuck(r1.p, more);
    } else {
      DeliveryIndependent(r1, more[0], more[1..]);
      assert [more[0]] + more[1..] == more;
    }
  }

  // ----- Printing and parsing

  /** A header field: any number of spaces and tabs may come between the colon and the value (RFC 9112 section 5.1). */
  datatype Field = Field(name: string, blanks: string, value: string)

  /** A request without a body, as a client writes it. */
  datatype Request = Request(method_: string, path: string, version: string, fields: seq<Field>)

  function PrintField(f: Field): string { f.name + ":" + f.blanks + f.value }

  function PrintFields(fs: seq<Field>): string
    decreases |fs|
  {
    if fs == [] then "" else PrintField(fs[0]) + CRLF + PrintFields(fs[1..])
  }

  function PrintHead(r: Request): string {
    r.method_ + " " + r.path + " " + r.version + CRLF + PrintFields(r.fields) + CRLF
  }

  /** What is stored for a field: its value, without the blanks before it; a field with nothing but blanks keeps them. */
  function Stored(f: Field): string { if f.value == "" then f.blanks else f.value }

  function FieldMap(m: map<string, string>, fs: seq<Field>): map<string, string>
    decreases |fs|
  {
    if fs == [] then m else FieldMap(m[fs[0].name := Stored(fs[0])], fs[1..])
  }

  predicate IsBlank(c: char) { c == ' ' || c == '\t' }

  /** Any line with a colon and without CRLF is such a field. */
  predicate PlainField(f: Field) {
    && ':' !in f.name && (forall i :: 0 <= i < |f.blanks| ==> IsBlank(f.blanks[i]))
    && (f.value == "" || !IsBlank(f.value[0])) && !Contains(PrintField(f), CRLF)
  }

  predicate PlainRequest(r: Request) {
    && ' ' !in r.method_ && ' ' !in r.version
    && !Contains(r.method_ + " " + r.path + " " + r.version, CRLF)
    && forall i :: 0 <= i < |r.fields| ==> PlainField(r.fields[i])
  }

  lemma FindCharAt(s: string, c: char, n: nat)
    requires n < |s| && s[n] == c && forall k :: 0 <= k < n ==> s[k] != c
    ensures FindChar(s, c) == n
  {
  }

  lemma RFindCharAt(s: string, c: char, n: nat)
    requires n < |s| && s[n] == c && forall k :: n < k < |s| ==> s[k] != c
    ensures RFindChar(s, c) == n
  {
  }

  lemma SplitAtSpaces(m: string, path: string, v: string)
    requires ' ' !in m && ' ' !in v
    ensures var line := m + " " + path + " " + v; var i, j := |m|, |m| + 1 + |path|;
            && FindChar(line, ' ') == i && RFindChar(line, ' ') == j
            && line[..i] == m && line[i + 1..j] == path && line[j + 1..] == v
  {
    var line := m + " " + path + " " + v;
    var i, j := |m|, |m| + 1 + |path|;
    assert forall k :: 0 <= k < i ==> line[k] == m[k];
    FindCharAt(line, ' ', i);
    assert forall k :: j < k < |line| ==> line[k] == v[k - j - 1];
    RFindCharAt(line, ' ', j);
  }

  lemma RequestLineReadBack(p: Parser, r: Request)
    requires PlainRequest(r)
    ensures AfterRequestLine(p, r.method_ + " " + r.path + " " + r.version)
            == p.(method_ := r.method_, path := r.path, version := r.version, state := HEADER)
  {
    SplitAtSpaces(r.method_, r.path, r.version);
  }

  lemma {:induction false} BlanksLead(blanks: string, value: string)
    requires (forall i :: 0 <= i < |blanks| ==> IsBlank(blanks[i])) && (value == "" || !IsBlank(value[0]))
    ensures LeadingBlanks(blanks + value) == |blanks|
    decreases |blanks|
  {
    if blanks == "" {
      assert blanks + value == value;
    } else {
      assert (blanks + value)[1..] == blanks[1..] + value;
      BlanksLead(blanks[1..], value);
    }
  }

  lemma ValueTrimmed(f: Field)
    requires PlainField(f)
    ensures TrimValue(f.blanks + f.value) == Stored(f)
  {
    BlanksLead(f.blanks, f.value);
    assert f.value == "" ==> f.blanks + f.value == f.blanks;
    assert (f.blanks + f.value)[|f.blanks|..] == f.value;
  }

  /** A header line stores its value under its name, with no blank, one or many after the colon; nothing but blanks is
      stored as it is. */
  lemma FieldReadBack(p: Parser, f: Field)
    requires PlainField(f) && p.state == HEADER
    ensures PrintField(f) != ""
    ensures AfterHeaderLine(p, PrintField(f)) == p.(headers := p.headers[f.name := if f.value == "" then f.blanks else f.value])
  {
    var line := PrintField(f);
    FindCharAt(line, ':', |f.name|);
    assert line[..|f.name|] == f.name && line[|f.name| + 1..] == f.blanks + f.value;
    ValueTrimmed(f);
  }

  /** One printed line, whatever follows it. */
  lemma TakesLine(p: Parser, line: string, rest: string)
    requires (p.state == REQUEST_LINE || p.state == HEADER) && !Contains(line, CRLF)
    ensures Parse(p, line + CRLF + rest) == Parse(AfterLine(p, line), rest)
  {
    var data := line + CRLF + rest;
    FindEndOfLine(line, rest);
    LineStep(p, data, |line|);
    Unfold(Config(p, data));
    assert data[..|line|] == line && data[|line| + 2..] == rest;
  }

  lemma {:induction false} FieldsReadBack(p: Parser, fs: seq<Field>, rest: string)
    requires p.state == HEADER && forall i :: 0 <= i < |fs| ==> PlainField(fs[i])
    ensures Parse(p, PrintFields(fs) + rest) == Parse(p.(headers := FieldMap(p.headers, fs)), rest)
    decreases |fs|
  {
    if fs == [] {
      assert PrintFields(fs) + rest == rest;
    } else {
      var line, more := PrintField(fs[0]), PrintFields(fs[1..]);
      assert PrintFields(fs) + rest == line + CRLF + (more + rest);
      TakesLine(p, line, more + rest);
      FieldReadBack(p, fs[0]);
      FieldsReadBack(p.(headers := p.headers[fs[0].name := Stored(fs[0])]), fs[1..], rest);
    }
  }

  lemma BlankLineRead(p: Parser, rest: string)
    requires p.state == HEADER
    ensures Parse(p, CRLF + rest) == Parse(p.(state := if CONTENT_LENGTH in p.headers then BODY else DONE), rest)
  {
    assert "" + CRLF + rest == CRLF + rest;
    TakesLine(p, "", rest);
  }

  /** The header lines and the blank line that ends them. */
  lemma HeadersReadBack(p: Parser, fs: seq<Field>, rest: string)
    requires p.state == HEADER && forall i :: 0 <= i < |fs| ==> PlainField(fs[i])
    ensures var headers := FieldMap(p.headers, fs);
            Parse(p, PrintFields(fs) + (CRLF + rest))
            == Parse(p.(headers := headers, state := if CONTENT_LENGTH in headers then BODY else DONE), rest)
  {
    FieldsReadBack(p, fs, CRLF + rest);
    BlankLineRead(p.(headers := FieldMap(p.headers, fs)), rest);
  }

  /** The whole head of a request, whatever follows it: every field reads back exactly. */
  lemma HeadReadBack(r: Request, rest: string)
    requires PlainRequest(r)
    ensures var headers := FieldMap(map[], r.fields);
            Parse(FRESH, PrintHead(r) + rest)
            == Parse(Parser(if CONTENT_LENGTH in headers then BODY else DONE, r.method_, r.path, r.version, headers, ""), rest)
  {
    var line, fields := r.method_ + " " + r.path + " " + r.version, PrintFields(r.fields);
    HeadAndRest(line, fields, rest);
    TakesLine(FRESH, line, fields + (CRLF + rest));
    RequestLineReadBack(FRESH, r);
    HeadersReadBack(FRESH.(method_ := r.method_, path := r.path, version := r.version, state := HEADER), r.fields, rest);
  }

  lemma HeadAndRest(line: string, fields: string, rest: string)
    ensures line + CRLF + fields + CRLF + rest == line + CRLF + (fields + (CRLF + rest))
  {
  }

  lemma {:induction false} FieldMapLookup(m: map<string, string>, fs: seq<Field>)
    ensures forall k :: k in FieldMap(m, fs) <==> k in m || exists i :: 0 <= i < |fs| && fs[i].name == k
    ensures forall i :: 0 <= i < |fs| && (forall j :: i < j < |fs| ==> fs[j].name != fs[i].name) ==> FieldMap(m, fs)[fs[i].name] == Stored(fs[i])
    ensures forall k :: k in m && (forall i :: 0 <= i < |fs| ==> fs[i].name != k) ==> FieldMap(m, fs)[k] == m[k]
    decreases |fs|
  {
    if fs != [] {
      var m', t := m[fs[0].name := Stored(fs[0])], fs[1..];
      FieldMapLookup(m', t);
      assert forall i :: 0 < i < |fs| ==> fs[i] == t[i - 1];
      assert forall j :: 0 <= j < |t| ==> t[j] == fs[j + 1];
    }
  }

  /** Print and parse: a request without body whose keys are distinct is read back field by field, and the bytes
      after its blank line stay unread. */
  lemma RequestRoundTrip(r: Request, rest: string)
    requires PlainRequest(r)
    requires forall i :: 0 <= i < |r.fields| ==> r.fields[i].name != CONTENT_LENGTH
    requires forall i, j :: 0 <= i < j < |r.fields| ==> r.fields[i].name != r.fields[j].name
    ensures var o := Parse(FRESH, PrintHead(r) + rest);
            && o.Finished? && o.p.state == DONE && o.unread == rest
            && o.p.method_ == r.method_ && o.p.path == r.path && o.p.version == r.version && o.p.body == ""
            && (forall k :: k in o.p.headers <==> exists i :: 0 <= i < |r.fields| && r.fields[i].name == k)
            && (forall i :: 0 <= i < |r.fields| ==>
                  o.p.headers[r.fields[i].name] == if r.fields[i].value == "" then r.fields[i].blanks else r.fields[i].value)
  {
    HeadReadBack(r, rest);
    FieldMapLookup(map[], r.fields);
  }

  /** The BODY state, with the length announced as `n`. */
  lemma BodyTaken(p: Parser, n: nat, data: string)
    requires p.state == BODY && CONTENT_LENGTH in p.headers && ContentLength(p) == n
    ensures var o := Parse(p, data);
            if Find(data, CRLF, 0) == -1 then o == Finished(p, data)
            else if n <= |data| then o == Finished(p.(state := DONE, body := data[..n]), data[n..])
            else o == Hangs(p)
  {
    if data != "" { Unfold(Config(p, data)); }
  }

  /** A body whose length is announced by a numeral: with a line end anywhere in what has arrived it is read back exactly
      if it has arrived in full, and the program gets stuck if it has not; but a length of 2^64 or more is read as 0.
      Without any line end it is never taken. */
  lemma BodyReadBack(r: Request, length: string, data: string)
    requires PlainRequest(r) && Numeral(length)
    requires CONTENT_LENGTH in FieldMap(map[], r.fields) && FieldMap(map[], r.fields)[CONTENT_LENGTH] == length
    ensures var o, n := Parse(FRESH, PrintHead(r) + data), Value(length);
            if Find(data, CRLF, 0) == -1 then o.Finished? && o.p.state == BODY && o.unread == data
            else if n >= Bits.WORD then o.Finished? && o.p.state == DONE && o.p.body == "" && o.unread == data
            else if n <= |data| then o.Finished? && o.p.state == DONE && o.p.body == data[..n] && o.unread == data[n..]
            else o.Hangs? && o.p.state == BODY
  {
    HeadReadBack(r, data);
    FromCharsAlone(length, 0);
    var p := Parser(BODY, r.method_, r.path, r.version, FieldMap(map[], r.fields), "");
    BodyTaken(p, ContentLength(p), data);
  }
}
