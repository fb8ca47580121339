/** A reader of responses, written without reference to how they are printed, and the proof that it recovers every
    response exactly and knows where it ends. */
module ResponseFraming {
  import opened FieldNames
  import opened Text
  import opened Buffer
  import opened HttpResponse

  datatype Message = Message(version: string, code: nat, reason: string, fields: seq<(string, string)>, body: string)

  /** `Garbled`: the status line is none.  `Undelimited`: the head does not say by one Content-Length where the message
      ends. */
  datatype Read = Incomplete | Garbled | Undelimited | Complete(m: Message, rest: string)

  datatype Status = NoStatus | Status(version: string, code: nat, reason: string)

  /** A status line is a version, a code of three digits and a reason phrase, each but the last ended by a space
      (RFC 9112 section 4). */
  function ReadStatusLine(line: string): Status {
    var i := FindChar(line, ' ');
    if i == -1 then NoStatus else
      var rest := line[i + 1..];
      var j := FindChar(rest, ' ');
      if j != 3 || !Digits(rest[..3]) then NoStatus else Status(line[..i], Value(rest[..3]), rest[4..])
  }

  function SplitLines(s: string): (ls: seq<string>)
    ensures ls != []
    decreases |s|
  {
    var p := Find(s, CRLF, 0);
    if p == -1 then [s] else [s[..p]] + SplitLines(s[p + 2..])
  }

  /** A field line is split at its first colon; one blank after it is dropped. */
  function ReadField(line: string): (string, string) {
    var p := FindChar(line, ':');
    if p == -1 || p + 2 > |line| then (line, "") else (line[..p], line[p + 2..])
  }

  function ReadFields(ls: seq<string>): seq<(string, string)> {
    seq(|ls|, i requires 0 <= i < |ls| => ReadField(ls[i]))
  }

  /** The fields that say where a message ends. */
  function Delimiters(fs: seq<(string, string)>): seq<(string, string)>
    decreases |fs|
  {
    if fs == [] then [] else if DelimitsMessage(fs[0].0) then [fs[0]] + Delimiters(fs[1..]) else Delimiters(fs[1..])
  }

  /** They are one Content-Length with a decimal value: neither a Transfer-Encoding nor a second length. */
  predicate OneLength(ds: seq<(string, string)>) {
    |ds| == 1 && SameName(ds[0].0, CONTENT_LENGTH) && Numeral(ds[0].1)
  }

  /** The head ends at the first CRLF CRLF, and the body has the length that the head announces (RFC 9112 section 6.3). */
  function ReadMessage(s: string): Read {
    var p := Find(s, HEAD_END, 0);
    if p == -1 then Incomplete else
      var ls, after := SplitLines(s[..p]), s[p + 4..];
      var fs := ReadFields(ls[1..]);
      var ds := Delimiters(fs);
      if ReadStatusLine(ls[0]).NoStatus? then Garbled
      else if !OneLength(ds) then Undelimited
      else if Value(ds[0].1) > |after| then Incomplete
      else Complete(MessageOf(ReadStatusLine(ls[0]), fs, after[..Value(ds[0].1)]), after[Value(ds[0].1)..])
  }

  function MessageOf(status: Status, fs: seq<(string, string)>, body: string): Message
    requires status.Status?
  {
    Message(status.version, status.code, status.reason, fs, body)
  }

  predicate NoBreaks(s: string) { forall i :: 0 <= i < |s| ==> s[i] != '\r' && s[i] != '\n' }

  /** Fields that can be printed: none breaks a line, and none says where the message ends. */
  predicate PlainHeaders(m: map<string, string>) {
    forall k :: k in m ==> NoBreaks(k) && NoBreaks(m[k]) && ':' !in k && !DelimitsMessage(k)
  }

  /** A response that can be printed: its code has three digits. */
  predicate PlainResponse(r: Response) { PlainHeaders(r.headers) && 100 <= r.code <= 999 }

  predicate PlainLines(ls: seq<string>) { forall i :: 0 <= i < |ls| ==> ls[i] != "" && NoBreaks(ls[i]) }

  lemma {:induction false} JoinCons(l: string, ls: seq<string>)
    ensures JoinLines([l] + ls) == l + CRLF + JoinLines(ls)
    decreases |ls|
  {
    var all := [l] + ls;
    if ls == [] {
      assert all[..0] == [] && all[0] == l;
      assert JoinLines(all) == JoinLines([]) + l + CRLF;
    } else {
      var n := |ls| - 1;
      assert all[..|all| - 1] == [l] + ls[..n] && all[|all| - 1] == ls[n];
      JoinCons(l, ls[..n]);
    }
  }

  lemma NoCrlfInside(l: string)
    requires NoBreaks(l)
    ensures !Contains(l, CRLF)
  {
    forall i: nat | i <= |l| ensures !At(l, CRLF, i) {
      if i + 2 <= |l| { assert l[i..i + 2][0] == l[i]; }
    }
  }

  lemma AtHeadEnd(s: string, k: nat)
    ensures At(s, HEAD_END, k) <==>
              k + 4 <= |s| && s[k] == '\r' && s[k + 1] == '\n' && s[k + 2] == '\r' && s[k + 3] == '\n'
  {
    if k + 4 <= |s| {
      var t := s[k..k + 4];
      assert t[0] == s[k] && t[1] == s[k + 1] && t[2] == s[k + 2] && t[3] == s[k + 3];
    }
  }

  lemma LastLineEndsHead(l: string, tail: string)
    requires NoBreaks(l)
    ensures Find(l + CRLF + (CRLF + tail), HEAD_END, 0) == |l|
  {
    var s := l + CRLF + (CRLF + tail);
    AtHeadEnd(s, |l|);
    forall k: nat | k < |l| ensures !At(s, HEAD_END, k) {
      AtHeadEnd(s, k);
      assert s[k] == l[k];
    }
    FindUnique(s, HEAD_END, |l|);
  }

  lemma NotBefore(l: string, s': string, r: nat, k: nat)
    requires NoBreaks(l) && s' != "" && s'[0] != '\r' && Find(s', HEAD_END, 0) == r && k < |l| + 2 + r
    ensures !At(l + CRLF + s', HEAD_END, k)
  {
    var s := l + CRLF + s';
    AtHeadEnd(s, k);
    if k < |l| {
      assert s[k] == l[k];
    } else if k >= |l| + 2 {
      var j := k - |l| - 2;
      AtHeadEnd(s', j);
      assert !At(s', HEAD_END, j);
      if k + 4 <= |s| {
        assert s[k] == s'[j] && s[k + 1] == s'[j + 1] && s[k + 2] == s'[j + 2] && s[k + 3] == s'[j + 3];
      }
    } else {
      assert s[|l| + 1] == '\n' && s[|l| + 2] == s'[0];
    }
  }

  lemma LineBeforeHeadEnd(l: string, s': string, r: nat)
    requires NoBreaks(l) && s' != "" && s'[0] != '\r' && Find(s', HEAD_END, 0) == r
    ensures Find(l + CRLF + s', HEAD_END, 0) == |l| + 2 + r
  {
    var s, n := l + CRLF + s', |l| + 2 + r;
    AtHeadEnd(s', r);
    AtHeadEnd(s, n);
    assert s[n] == s'[r] && s[n + 1] == s'[r + 1] && s[n + 2] == s'[r + 2] && s[n + 3] == s'[r + 3];
    forall k: nat | k < n ensures !At(s, HEAD_END, k) { NotBefore(l, s', r, k); }
    FindUnique(s, HEAD_END, n);
  }

  lemma JoinedAssoc(l: string, rest: string, tail: string)
    ensures (l + CRLF + rest) + CRLF + tail == l + CRLF + (rest + CRLF + tail)
  {
  }

  lemma FirstOfJoined(ls: seq<string>)
    requires ls != [] && PlainLines(ls)
    ensures |JoinLines(ls)| >= 2 && JoinLines(ls)[0] == ls[0][0] != '\r'
  {
    assert ls == [ls[0]] + ls[1..];
    JoinCons(ls[0], ls[1..]);
  }

  /** The head of a message ends where its last line ends. */
  lemma {:induction false} FindHeadEnd(ls: seq<string>, tail: string)
    requires ls != [] && PlainLines(ls)
    ensures |JoinLines(ls)| >= 2 && Find(JoinLines(ls) + CRLF + tail, HEAD_END, 0) == |JoinLines(ls)| - 2
    decreases |ls|
  {
    var l, t := ls[0], ls[1..];
    assert ls == [l] + t;
    JoinCons(l, t);
    if t == [] {
      LastLineEndsHead(l, tail);
      assert JoinLines(ls) + CRLF + tail == l + CRLF + (CRLF + tail);
    } else {
      FindHeadEnd(t, tail);
      FirstOfJoined(t);
      LineBeforeHeadEnd(l, JoinLines(t) + CRLF + tail, |JoinLines(t)| - 2);
      JoinedAssoc(l, JoinLines(t), tail);
    }
  }

  lemma AfterFirstLine(l: string, rest: string)
    ensures (l + CRLF + rest)[..|l|] == l && (l + CRLF + rest)[|l| + 2..] == rest
  {
  }

  lemma DropLastBreak(l: string, rest: string)
    requires |rest| >= 2
    ensures (l + CRLF + rest)[..|l + CRLF + rest| - 2] == l + CRLF + rest[..|rest| - 2]
  {
  }

  lemma SplitFirst(l: string, rest: string)
    requires NoBreaks(l)
    ensures SplitLines(l) == [l] && SplitLines(l + CRLF + rest) == [l] + SplitLines(rest)
  {
    NoCrlfInside(l);
    FindEndOfLine(l, rest);
    AfterFirstLine(l, rest);
    assert Find(l, CRLF, 0) == -1;
  }

  lemma {:induction false} SplitJoined(ls: seq<string>)
    requires ls != [] && PlainLines(ls)
    ensures |JoinLines(ls)| >= 2 && SplitLines(JoinLines(ls)[..|JoinLines(ls)| - 2]) == ls
    decreases |ls|
  {
    var l, t := ls[0], ls[1..];
    assert ls == [l] + t;
    JoinCons(l, t);
    if t == [] {
      AfterFirstLine(l, "");
      SplitFirst(l, "");
    } else {
      SplitJoined(t);
      DropLastBreak(l, JoinLines(t));
      SplitFirst(l, JoinLines(t)[..|JoinLines(t)| - 2]);
    }
  }

  lemma FieldOfLine(key: string, value: string)
    requires ':' !in key
    ensures ReadField(FieldLine(key, value)) == (key, value)
  {
    var line := FieldLine(key, value);
    assert line[|key|] == ':' && forall k :: 0 <= k < |key| ==> line[k] == key[k];
    assert line[..|key|] == key && line[|key| + 2..] == value;
  }

  lemma {:induction false} DigitsHaveNoBreaks(s: string)
    requires Digits(s)
    ensures NoBreaks(s)
  {
  }

  lemma FieldLinePlain(key: string, value: string)
    requires NoBreaks(key) && NoBreaks(value)
    ensures NoBreaks(FieldLine(key, value)) && FieldLine(key, value) != ""
  {
  }

  lemma NoBreaksConcat(a: string, b: string)
    requires NoBreaks(a) && NoBreaks(b)
    ensures NoBreaks(a + b)
  {
  }

  lemma StatusTextPlain(digits: string, msg: string)
    requires NoBreaks(digits) && NoBreaks(msg)
    ensures NoBreaks(StatusText(digits, msg)) && StatusText(digits, msg) != ""
  {
    NoBreaksConcat("HTTP/1.1 ", digits);
    NoBreaksConcat("HTTP/1.1 " + digits, " ");
    NoBreaksConcat("HTTP/1.1 " + digits + " ", msg);
  }

  lemma PhrasesPlain()
    ensures NoBreaks("OK") && NoBreaks("Partial Content") && NoBreaks("Bad Request")
  {
  }

  lemma MorePhrasesPlain()
    ensures NoBreaks("Not Found") && NoBreaks("Internal Server Error") && NoBreaks("Unknown")
  {
  }

  lemma StatusMsgPlain(code: nat)
    ensures NoBreaks(StatusMsg(code))
  {
    PhrasesPlain();
    MorePhrasesPlain();
  }

  lemma StatusLinePlain(code: nat)
    ensures NoBreaks(StatusLine(code)) && StatusLine(code) != ""
  {
    var digits, msg := ToString(code), StatusMsg(code);
    DigitsHaveNoBreaks(digits);
    StatusMsgPlain(code);
    StatusTextPlain(digits, msg);
  }

  lemma FramingLinesPlain(r: Response)
    ensures PlainLines(FramingLines(r)) && PlainLines(Preamble(r.code))
  {
    DigitsHaveNoBreaks(ToString(|r.body|));
    StatusLinePlain(r.code);
    FieldLinePlain(ACCEPT_RANGES, "bytes");
    FieldLinePlain(CONTENT_LENGTH, ToString(|r.body|));
    FieldLinePlain(CONNECTION, if r.keepAlive then "keep-alive" else "close");
  }

  lemma HeadLinesPlain(r: Response, keys: seq<string>)
    requires PlainHeaders(r.headers) && forall i :: 0 <= i < |keys| ==> keys[i] in r.headers
    ensures PlainLines(HeadLines(r, keys))
  {
    FramingLinesPlain(r);
    forall i | 0 <= i < |keys| ensures FieldLines(r.headers, keys)[i] != "" && NoBreaks(FieldLines(r.headers, keys)[i]) {
      FieldLinePlain(keys[i], r.headers[keys[i]]);
    }
    assert PlainLines(FieldLines(r.headers, keys));
  }

  /** The header fields a response prints, in the order `keys`. */
  function Printed(r: Response, keys: seq<string>): seq<(string, string)>
    requires forall i :: 0 <= i < |keys| ==> keys[i] in r.headers
  {
    [(ACCEPT_RANGES, "bytes")]
    + seq(|keys|, i requires 0 <= i < |keys| => (keys[i], r.headers[keys[i]]))
    + [(CONTENT_LENGTH, ToString(|r.body|)), (CONNECTION, if r.keepAlive then "keep-alive" else "close")]
  }

  lemma LineOfField(r: Response, keys: seq<string>, i: nat)
    requires (forall i :: 0 <= i < |keys| ==> keys[i] in r.headers) && i < |Printed(r, keys)|
    ensures var f := Printed(r, keys)[i];
            |HeadLines(r, keys)| == |Printed(r, keys)| + 1 && HeadLines(r, keys)[i + 1] == FieldLine(f.0, f.1)
  {
  }

  lemma FieldsOfHead(r: Response, keys: seq<string>)
    requires PlainHeaders(r.headers) && forall i :: 0 <= i < |keys| ==> keys[i] in r.headers
    ensures ReadFields(HeadLines(r, keys)[1..]) == Printed(r, keys)
  {
    var ls, fs := HeadLines(r, keys)[1..], Printed(r, keys);
    LineOfField(r, keys, 0);
    forall i | 0 <= i < |fs| ensures ReadField(ls[i]) == fs[i] {
      LineOfField(r, keys, i);
      FieldOfLine(fs[i].0, fs[i].1);
    }
  }

  lemma {:induction false} DelimitersConcat(a: seq<(string, string)>, b: seq<(string, string)>)
    ensures Delimiters(a + b) == Delimiters(a) + Delimiters(b)
    decreases |a|
  {
    if a == [] {
      assert a + b == b;
    } else {
      assert (a + b)[1..] == a[1..] + b;
      DelimitersConcat(a[1..], b);
    }
  }

  lemma {:induction false} NoDelimiters(fs: seq<(string, string)>)
    requires forall i :: 0 <= i < |fs| ==> !DelimitsMessage(fs[i].0)
    ensures Delimiters(fs) == []
    decreases |fs|
  {
    if fs != [] { NoDelimiters(fs[1..]); }
  }

  /** Reading a message whose head is made of plain lines. */
  lemma ReadLines(ls: seq<string>, after: string)
    requires ls != [] && PlainLines(ls)
    ensures var fs := ReadFields(ls[1..]);
            OneLength(Delimiters(fs)) && Value(Delimiters(fs)[0].1) <= |after| && ReadStatusLine(ls[0]).Status? ==>
              var n := Value(Delimiters(fs)[0].1);
              ReadMessage(JoinLines(ls) + CRLF + after) == Complete(MessageOf(ReadStatusLine(ls[0]), fs, after[..n]), after[n..])
  {
    var s := JoinLines(ls) + CRLF + after;
    FindHeadEnd(ls, after);
    SplitJoined(ls);
    var p := |JoinLines(ls)| - 2;
    assert s[..p] == JoinLines(ls)[..p];
    assert s[p + 4..] == after;
  }

  /** The only field of a plain response that says where it ends is the length it prints itself. */
  lemma DelimitersOfPrinted(r: Response, keys: seq<string>)
    requires PlainHeaders(r.headers) && forall i :: 0 <= i < |keys| ==> keys[i] in r.headers
    ensures Delimiters(Printed(r, keys)) == [(CONTENT_LENGTH, ToString(|r.body|))]
  {
    var fields := seq(|keys|, i requires 0 <= i < |keys| => (keys[i], r.headers[keys[i]]));
    var length, connection := (CONTENT_LENGTH, ToString(|r.body|)), (CONNECTION, if r.keepAlive then "keep-alive" else "close");
    NamesDiffer();
    NoDelimiters([(ACCEPT_RANGES, "bytes")] + fields);
    NoDelimiters([connection]);
    assert Printed(r, keys) == ([(ACCEPT_RANGES, "bytes")] + fields) + [length, connection];
    DelimitersConcat([(ACCEPT_RANGES, "bytes")] + fields, [length, connection]);
    assert [length, connection][1..] == [connection];
  }

  lemma BodyAndMore(head: string, body: string, more: string)
    ensures head + CRLF + body + more == head + CRLF + (body + more)
    ensures (body + more)[..|body|] == body && (body + more)[|body|..] == more
  {
  }

  lemma ThreeDigits(n: nat)
    requires 100 <= n <= 999
    ensures |ToString(n)| == 3
  {
    assert |ToString(n / 10)| == 2 && |ToString(n / 10 / 10)| == 1;
  }

  lemma StatusReadBack(r: Response)
    requires 100 <= r.code <= 999
    ensures ReadStatusLine(StatusLine(r.code)) == Status("HTTP/1.1", r.code, StatusMsg(r.code))
  {
    var digits, msg := ToString(r.code), StatusMsg(r.code);
    ThreeDigits(r.code);
    ValueOfToString(r.code);
    assert StatusLine(r.code) == "HTTP/1.1" + " " + (digits + " " + msg);
    SplitAtChar("HTTP/1.1", ' ', digits + " " + msg);
    SplitAtChar(digits, ' ', msg);
  }

  /** The reason phrases the program has; all other codes, 403 and 416 among them, share one. */
  predicate Reason(code: nat, reason: string) {
    && (code == 200 ==> reason == "OK") && (code == 206 ==> reason == "Partial Content")
    && (code == 400 ==> reason == "Bad Request") && (code == 404 ==> reason == "Not Found")
    && (code == 500 ==> reason == "Internal Server Error")
    && (code !in {200, 206, 400, 404, 500} ==> reason == "Unknown")
  }

  /** The message says what the response says, with its header fields in some order. */
  ghost predicate Says(m: Message, r: Response, keys: seq<string>)
    requires forall i :: 0 <= i < |keys| ==> keys[i] in r.headers
  {
    && m.version == "HTTP/1.1" && m.code == r.code && Reason(r.code, m.reason)
    && m.fields == Printed(r, keys) && m.body == r.body
  }

  /** Round trip and framing: in whatever order the header map is traversed, a reader that splits the status line at its
      spaces and finds the end of a message by its one Content-Length recovers the version, the code and its reason,
      exactly the printed header fields and the exact body, even one that contains CRLF CRLF, and finds what follows the
      message untouched. */
  lemma ResponseRoundTrip(r: Response, keys: seq<string>, more: string)
    requires PlainResponse(r) && Enumerates(keys, r.headers)
    ensures var read := ReadMessage(Serialize(r, keys) + more); read.Complete? && read.rest == more && Says(read.m, r, keys)
  {
    var ls, after := HeadLines(r, keys), r.body + more;
    HeadLinesPlain(r, keys);
    FieldsOfHead(r, keys);
    DelimitersOfPrinted(r, keys);
    ValueOfToString(|r.body|);
    StatusReadBack(r);
    ReadLines(ls, after);
    BodyAndMore(JoinLines(ls), r.body, more);
  }

  /** Two traversal orders print the same fields. */
  lemma OrderDoesNotMatter(r: Response, keys: seq<string>, keys': seq<string>)
    requires Enumerates(keys, r.headers) && Enumerates(keys', r.headers)
    ensures forall f :: f in Printed(r, keys) <==> f in Printed(r, keys')
  {
    OneOrder(r, keys, keys');
    OneOrder(r, keys', keys);
  }

  lemma OneOrder(r: Response, keys: seq<string>, keys': seq<string>)
    requires Enumerates(keys, r.headers) && Enumerates(keys', r.headers)
    ensures forall f :: f in Printed(r, keys) ==> f in Printed(r, keys')
  {
    forall f | f in Printed(r, keys) ensures f in Printed(r, keys') {
      var p, p' := Printed(r, keys), Printed(r, keys');
      var i :| 0 <= i < |p| && p[i] == f;
      if i == 0 {
        assert p'[0] == f;
      } else if i <= |keys| {
        assert keys[i - 1] in keys';
        var j :| 0 <= j < |keys'| && keys'[j] == keys[i - 1];
        assert p'[j + 1] == f;
      } else {
        assert p'[|keys'| + i - |keys|] == f;
      }
    }
  }
}
