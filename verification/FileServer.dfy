/** Answering a request for a file, whole or by a byte range, with the 64-bit arithmetic of the program. */
module FileServer {
  import opened Wrappers
  import opened Bits
  import opened FieldNames
  import opened Text
  import opened HttpResponse

  /** What looking up the requested path gave.  A file is a byte sequence that may or may not open. */
  datatype Lookup = Forbidden | Missing | Broken | Regular(bytes: string, opens: bool, mime: string)

  /** The longest string the library can construct; a longer request throws. */
  const MAX_STRING: nat := 0x7fff_ffff_ffff_ffff

  const PREFIX: string := "bytes="

  /** What the Range header makes of `start` and `end`: the whole file, a part, or a refusal. */
  datatype Plan = Whole(start: nat, end: nat) | Part(start: nat, end: nat) | Refused

  predicate HasPrefix(s: string) { |s| >= 6 && s[..6] == PREFIX }

  function PlanRange(size: nat, headers: map<string, string>): Plan {
    var end0 := Sub(size, 1);
    if RANGE !in headers || !HasPrefix(headers[RANGE]) then Whole(0, end0) else
      var spec := headers[RANGE][6..];
      var dash := FindChar(spec, '-');
      if dash == -1 then Whole(0, end0) else
        var start := if dash > 0 then FromChars(spec[..dash], 0) else 0;
        var end := if dash + 1 < |spec| then FromChars(spec[dash + 1..], end0) else end0;
        if start >= size then Refused else Part(start, if end >= size then size - 1 else end)
  }

  function RangeText(start: nat, end: nat, size: nat): string {
    "bytes " + ToString(start) + "-" + ToString(end) + "/" + ToString(size)
  }

  function UnsatisfiedText(size: nat): string { "bytes */" + ToString(size) }

  const ERROR_BODY: string := "<h1>500 Internal Server Error</h1>"

  predicate IsKeepAlive(headers: map<string, string>) {
    CONNECTION in headers && headers[CONNECTION] == "keep-alive"
  }

  /** `read_len`: 64-bit arithmetic. */
  function ReadLen(start: nat, end: nat): nat { (Sub(end, start) + 1) % WORD }

  /** A zeroed string of `len` bytes after reading into it from `start` on. */
  function ReadAt(s: string, start: nat, len: nat): string {
    var got := if start + len <= |s| then s[start..start + len] else if start <= |s| then s[start..] else "";
    if |got| < len then got + seq(len - |got|, _ => '\0') else got
  }

  function Answer(r: Response, headers: map<string, string>, found: Lookup): Response {
    match found
    case Forbidden => r.(code := 403, body := "<h1>403 Forbidden</h1>")
    case Missing => r.(code := 404, body := "<h1>404 Not Found</h1>")
    case Broken => r.(code := 500, body := ERROR_BODY)
    case Regular(bytes, opens, mime) =>
      var plan := PlanRange(|bytes|, headers);
      if plan.Refused? then
        r.(code := 416, headers := r.headers[CONTENT_RANGE := UnsatisfiedText(|bytes|)],
           body := "<h1>416 Range Not Satisfiable</h1>")
      else if !opens || ReadLen(plan.start, plan.end) > MAX_STRING then r.(code := 500, body := ERROR_BODY)
      else
        var h := if plan.Part? then r.headers[CONTENT_RANGE := RangeText(plan.start, plan.end, |bytes|)] else r.headers;
        Response(if plan.Part? then 206 else 200, IsKeepAlive(headers),
                 h[ACCEPT_RANGES := "bytes"][CONTENT_TYPE := mime],
                 ReadAt(bytes, plan.start, ReadLen(plan.start, plan.end)))
  }

  /** The part of `HandleHttpRequest` that reads the Range header into `start` and `end`. */
  method ReadRange(headers: map<string, string>, size: nat)
      returns (start: nat, end: nat, isRange: bool, refused: bool)
    ensures PlanRange(size, headers) ==
              if refused then Refused else if isRange then Part(start, end) else Whole(start, end)
  {
    start, end, isRange, refused := 0, Sub(size, 1), false, false;
    if RANGE in headers {
      var rangeStr := headers[RANGE];
      if HasPrefix(rangeStr) {
        rangeStr := rangeStr[6..];
        var dash := FindChar(rangeStr, '-');
        if dash != -1 {
          if dash > 0 { start := FromChars(rangeStr[..dash], start); }
          if dash + 1 < |rangeStr| { end := FromChars(rangeStr[dash + 1..], end); }
          if start >= size { return start, end, false, true; }
          if end >= size { end := size - 1; }
          isRange := true;
        }
      }
    }
  }

  method HandleHttpRequest(headers: map<string, string>, found: Lookup, res: HttpResponse)
    modifies res
    ensures res.View() == Answer(old(res.View()), headers, found)
  {
    match found
    case Forbidden =>
      res.code := 403;
      res.body := "<h1>403 Forbidden</h1>";
    case Missing =>
      res.code := 404;
      res.body := "<h1>404 Not Found</h1>";
    case Broken =>
      res.code := 500;
      res.body := ERROR_BODY;
    case Regular(bytes, opens, mime) =>
      var size := |bytes|;
      var start, end, isRange, refused := ReadRange(headers, size);
      if refused {
        res.code := 416;
        res.AddHeader(CONTENT_RANGE, UnsatisfiedText(size));
        res.body := "<h1>416 Range Not Satisfiable</h1>";
        return;
      }
      var readLen := ReadLen(start, end);
      if !opens || readLen > MAX_STRING {
        res.code := 500;
        res.body := ERROR_BODY;
        return;
      }
      var buffer := ReadAt(bytes, start, readLen);
      if isRange {
        res.code := 206;
        res.AddHeader(CONTENT_RANGE, RangeText(start, end, size));
      } else {
        res.code := 200;
      }
      res.AddHeader(ACCEPT_RANGES, "bytes");
      res.AddHeader(CONTENT_TYPE, mime);
      res.keepAlive := IsKeepAlive(headers);
      res.body := buffer;
  }

  // ----- The header forms

  /** `bytes=first-last`, `bytes=first-` and `bytes=-length`, for numerals of any length. */
  function IntRange(first: string, last: string): string { "bytes=" + first + "-" + last }

  function OpenRange(first: string): string { "bytes=" + first + "-" }

  function SuffixRange(length: string): string { "bytes=-" + length }

  function Min(a: int, b: int): int { if a <= b then a else b }

  /** The plan for a header that has the prefix and a dash after `first`. */
  lemma PlanSpec(size: nat, headers: map<string, string>, first: string, rest: string)
    requires Digits(first) && RANGE in headers && headers[RANGE] == "bytes=" + first + "-" + rest
    ensures var start := if first != "" then FromChars(first, 0) else 0;
            var end := if rest != "" then FromChars(rest, Sub(size, 1)) else Sub(size, 1);
            PlanRange(size, headers) == if start >= size then Refused else Part(start, if end >= size then size - 1 else end)
  {
    var spec := first + "-" + rest;
    assert headers[RANGE] == PREFIX + spec;
    assert headers[RANGE][..6] == PREFIX && headers[RANGE][6..] == spec;
    SplitAtChar(first, '-', rest);
  }

  lemma LastByte(size: nat)
    requires 0 < size < WORD
    ensures Sub(size, 1) == size - 1
  {
    DivUnique(size - 1, 0, size - 1, WORD);
  }

  /** A first position that does not fit in 64 bits is read as 0. */
  lemma PlanInt(size: nat, headers: map<string, string>, first: string, last: string)
    requires Numeral(first) && Numeral(last) && size < WORD && RANGE in headers && headers[RANGE] == IntRange(first, last)
    ensures var a := if Value(first) < WORD then Value(first) else 0;
            PlanRange(size, headers) == if a >= size then Refused else Part(a, Min(Value(last), size - 1))
  {
    PlanSpec(size, headers, first, last);
    FromCharsAlone(first, 0);
    FromCharsAlone(last, Sub(size, 1));
    if size > 0 { LastByte(size); }
  }

  lemma PlanOpen(size: nat, headers: map<string, string>, first: string)
    requires Numeral(first) && size < WORD && RANGE in headers && headers[RANGE] == OpenRange(first)
    ensures var a := if Value(first) < WORD then Value(first) else 0;
            PlanRange(size, headers) == if a >= size then Refused else Part(a, size - 1)
  {
    assert OpenRange(first) == "bytes=" + first + "-" + "";
    PlanSpec(size, headers, first, "");
    FromCharsAlone(first, 0);
    if size > 0 { LastByte(size); }
  }

  lemma PlanSuffix(size: nat, headers: map<string, string>, length: string)
    requires Numeral(length) && size < WORD && RANGE in headers && headers[RANGE] == SuffixRange(length)
    ensures PlanRange(size, headers) == if size == 0 then Refused else Part(0, Min(Value(length), size - 1))
  {
    assert SuffixRange(length) == "bytes=" + "" + "-" + length;
    PlanSpec(size, headers, "", length);
    FromCharsAlone(length, Sub(size, 1));
    if size > 0 { LastByte(size); }
  }

  // ----- What the ranges mean

  /** What a range selects by sections 14.1.1 and 14.1.2 of RFC 9110.  A suffix of an empty file is satisfiable and
      selects all of it, that is nothing. */
  datatype Selection = Satisfied(first: nat, last: nat) | AllOfNothing | Unsatisfiable | Invalid

  function RfcIntRange(size: nat, a: nat, b: nat): Selection {
    if b < a then Invalid else if a >= size then Unsatisfiable else Satisfied(a, Min(b, size - 1))
  }

  function RfcOpenRange(size: nat, a: nat): Selection {
    if a >= size then Unsatisfiable else Satisfied(a, size - 1)
  }

  function RfcSuffixRange(size: nat, n: nat): Selection {
    if n == 0 then Unsatisfiable else if size == 0 then AllOfNothing else Satisfied(size - Min(n, size), size - 1)
  }

  /** The Range header asks for the bytes from `first` to `last`, by two positions or by the first alone. */
  ghost predicate AsksFor(headers: map<string, string>, size: nat, first: nat, last: nat) {
    RANGE in headers &&
    ((exists s, t :: Numeral(s) && Numeral(t) && headers[RANGE] == IntRange(s, t)
                     && RfcIntRange(size, Value(s), Value(t)) == Satisfied(first, last))
     || exists s :: Numeral(s) && headers[RANGE] == OpenRange(s) && RfcOpenRange(size, Value(s)) == Satisfied(first, last))
  }

  /** The Range header asks for bytes past the end of the file, by a first position that fits in 64 bits. */
  ghost predicate AsksBeyond(headers: map<string, string>, size: nat) {
    RANGE in headers &&
    ((exists s, t :: Numeral(s) && Numeral(t) && headers[RANGE] == IntRange(s, t) && size <= Value(s) < WORD)
     || exists s :: Numeral(s) && headers[RANGE] == OpenRange(s) && size <= Value(s) < WORD)
  }

  lemma BeyondIsRefused(headers: map<string, string>, size: nat)
    requires size < WORD && AsksBeyond(headers, size)
    ensures PlanRange(size, headers).Refused?
  {
    if s, t :| Numeral(s) && Numeral(t) && headers[RANGE] == IntRange(s, t) && size <= Value(s) < WORD {
      PlanInt(size, headers, s, t);
    } else {
      var s :| Numeral(s) && headers[RANGE] == OpenRange(s) && size <= Value(s) < WORD;
      PlanOpen(size, headers, s);
    }
  }

  /** There is no Range header, or none in bytes. */
  predicate AsksForAll(headers: map<string, string>) {
    RANGE !in headers || !("bytes=" <= headers[RANGE]) || '-' !in headers[RANGE]
  }

  lemma AskedIsPlanned(headers: map<string, string>, size: nat, first: nat, last: nat)
    requires size < WORD && AsksFor(headers, size, first, last)
    ensures PlanRange(size, headers) == Part(first, last) && first <= last < size
  {
    if s, t :| Numeral(s) && Numeral(t) && headers[RANGE] == IntRange(s, t)
               && RfcIntRange(size, Value(s), Value(t)) == Satisfied(first, last) {
      PlanInt(size, headers, s, t);
    } else {
      var s :| Numeral(s) && headers[RANGE] == OpenRange(s) && RfcOpenRange(size, Value(s)) == Satisfied(first, last);
      PlanOpen(size, headers, s);
    }
  }

  lemma NothingAskedIsPlanned(headers: map<string, string>, size: nat)
    requires AsksForAll(headers)
    ensures PlanRange(size, headers).Whole?
  {
    if RANGE in headers && HasPrefix(headers[RANGE]) {
      var spec := headers[RANGE][6..];
      assert forall k :: 0 <= k < |spec| ==> spec[k] == headers[RANGE][k + 6];
    }
  }

  // ----- What an answer says

  /** What a Content-Range says (section 14.4 of RFC 9110): which part of how many bytes; or how many there are. */
  datatype ContentRange = PartOf(first: nat, last: nat, size: nat) | LengthOnly(size: nat) | NoRange

  function ReadContentRange(value: string): ContentRange {
    if !("bytes " <= value) then NoRange else
      var spec := value[6..];
      var slash := FindChar(spec, '/');
      if slash == -1 || !Numeral(spec[slash + 1..]) then NoRange else
        var range, size := spec[..slash], Value(spec[slash + 1..]);
        var dash := FindChar(range, '-');
        if range == "*" then LengthOnly(size)
        else if dash == -1 || !Numeral(range[..dash]) || !Numeral(range[dash + 1..]) then NoRange
        else PartOf(Value(range[..dash]), Value(range[dash + 1..]), size)
  }

  lemma NotAmongDigits(digits: string, c: char)
    requires Digits(digits) && !IsDigit(c)
    ensures c !in digits
  {
  }

  lemma PartOfSpec(a: string, b: string, n: string)
    requires Numeral(a) && Numeral(b) && Numeral(n)
    ensures var spec := a + "-" + b + "/" + n; var slash := FindChar(spec, '/');
            && slash == |a + "-" + b| && spec[..slash] == a + "-" + b && spec[slash + 1..] == n
            && FindChar(a + "-" + b, '-') == |a| && (a + "-" + b)[..|a|] == a && (a + "-" + b)[|a| + 1..] == b
            && a + "-" + b != "*"
  {
    NotAmongDigits(a, '/');
    NotAmongDigits(b, '/');
    NotAmongDigits(a, '-');
    SplitAtChar(a + "-" + b, '/', n);
    SplitAtChar(a, '-', b);
    assert (a + "-" + b)[|a|] == '-';
  }

  lemma ReadPart(value: string, a: string, b: string, n: string)
    requires Numeral(a) && Numeral(b) && Numeral(n) && "bytes " <= value && value[6..] == a + "-" + b + "/" + n
    ensures ReadContentRange(value) == PartOf(Value(a), Value(b), Value(n))
  {
    PartOfSpec(a, b, n);
  }

  lemma RangeTextSpec(first: nat, last: nat, size: nat)
    ensures var value := RangeText(first, last, size);
            "bytes " <= value && value[6..] == ToString(first) + "-" + ToString(last) + "/" + ToString(size)
  {
    var spec := ToString(first) + "-" + ToString(last) + "/" + ToString(size);
    assert RangeText(first, last, size) == "bytes " + spec;
  }

  lemma RangeTextReadBack(first: nat, last: nat, size: nat)
    ensures ReadContentRange(RangeText(first, last, size)) == PartOf(first, last, size)
  {
    RangeTextSpec(first, last, size);
    ReadPart(RangeText(first, last, size), ToString(first), ToString(last), ToString(size));
    ValueOfToString(first);
    ValueOfToString(last);
    ValueOfToString(size);
  }

  lemma UnsatisfiedTextReadBack(size: nat)
    ensures ReadContentRange(UnsatisfiedText(size)) == LengthOnly(size)
  {
    var n := ToString(size);
    var value := UnsatisfiedText(size);
    assert value == "bytes " + ("*/" + n);
    assert value[..6] == "bytes " && value[6..] == "*" + "/" + n;
    SplitAtChar("*", '/', n);
    ValueOfToString(size);
  }

  predicate HasRange(headers: map<string, string>, range: ContentRange) {
    CONTENT_RANGE in headers && ReadContentRange(headers[CONTENT_RANGE]) == range
  }

  predicate ContentTypeIs(headers: map<string, string>, mime: string) {
    CONTENT_TYPE in headers && headers[CONTENT_TYPE] == mime
  }

  ghost predicate WholeFile(ans: Response, bytes: string) { ans.code == 200 && ans.body == bytes }

  /** The answers a server may give: it may always ignore the Range header (section 14.2); otherwise a satisfiable range
      gets a 206 with its Content-Range (sections 15.3.7 and 14.4), and one that is unsatisfiable or invalid a 416 with
      the length (sections 14.2, 15.5.17 and 14.4). */
  ghost predicate Conforms(ans: Response, bytes: string, sel: Selection) {
    WholeFile(ans, bytes) ||
    match sel
    case Satisfied(first, last) =>
      ans.code == 206 && first <= last < |bytes| && ans.body == bytes[first..last + 1]
      && HasRange(ans.headers, PartOf(first, last, |bytes|))
    case AllOfNothing => false
    case _ => ans.code == 416 && HasRange(ans.headers, LengthOnly(|bytes|))
  }

  lemma PartConformsIff(ans: Response, bytes: string, sel: Selection, a: nat, e: nat)
    requires ans.code == 206 && a <= e < |bytes| && ans.body == bytes[a..e + 1] && HasRange(ans.headers, PartOf(a, e, |bytes|))
    ensures Conforms(ans, bytes, sel) <==> sel == Satisfied(a, e)
  {
  }

  lemma RefusalConformsIff(ans: Response, bytes: string, sel: Selection)
    requires ans.code == 416 && HasRange(ans.headers, LengthOnly(|bytes|))
    ensures Conforms(ans, bytes, sel) <==> sel.Unsatisfiable? || sel.Invalid?
  {
  }

  /** A range that is refused gets a 416 that tells the length of the file. */
  lemma RefusedAnswer(r: Response, headers: map<string, string>, bytes: string, opens: bool, mime: string)
    requires PlanRange(|bytes|, headers).Refused?
    ensures var ans := Answer(r, headers, Regular(bytes, opens, mime));
            ans.code == 416 && ans.keepAlive == r.keepAlive && HasRange(ans.headers, LengthOnly(|bytes|))
  {
    UnsatisfiedTextReadBack(|bytes|);
  }

  lemma OrderedLength(a: nat, e: nat)
    requires a <= e < WORD - 1
    ensures ReadLen(a, e) == e - a + 1
  {
    DivUnique(e - a, 0, e - a, WORD);
    DivUnique(e - a + 1, 0, e - a + 1, WORD);
  }

  /** What a path gets that is no readable file; the range of one that does not open is looked at first. */
  lemma OtherAnswers(r: Response, headers: map<string, string>, found: Lookup)
    requires found.Regular? ==> !found.opens && !PlanRange(|found.bytes|, headers).Refused?
    ensures var ans := Answer(r, headers, found);
            && ans.headers == r.headers && ans.keepAlive == r.keepAlive
            && (found.Forbidden? ==> ans.code == 403 && ans.body == "<h1>403 Forbidden</h1>")
            && (found.Missing? ==> ans.code == 404 && ans.body == "<h1>404 Not Found</h1>")
            && (found.Broken? || found.Regular? ==> ans.code == 500 && ans.body == "<h1>500 Internal Server Error</h1>")
  {
  }

  /** An ordered part inside the file is served exactly; `end - start + 1` does not wrap. */
  lemma PartServed(r: Response, headers: map<string, string>, bytes: string, mime: string, a: nat, e: nat)
    requires PlanRange(|bytes|, headers) == Part(a, e) && a <= e < |bytes| <= MAX_STRING
    ensures var ans := Answer(r, headers, Regular(bytes, true, mime));
            && ans.code == 206 && ans.body == bytes[a..e + 1] && HasRange(ans.headers, PartOf(a, e, |bytes|))
            && ContentTypeIs(ans.headers, mime) && ans.keepAlive == IsKeepAlive(headers)
  {
    OrderedLength(a, e);
    NamesDiffer();
    RangeTextReadBack(a, e, |bytes|);
  }

  /** Without a usable Range header the whole file is served, the empty file included, where `file_size - 1` wraps
      and the wrapped sum comes back to zero. */
  lemma WholeServed(r: Response, headers: map<string, string>, bytes: string, mime: string)
    requires PlanRange(|bytes|, headers).Whole? && |bytes| <= MAX_STRING
    ensures var ans := Answer(r, headers, Regular(bytes, true, mime));
            WholeFile(ans, bytes) && ContentTypeIs(ans.headers, mime) && ans.keepAlive == IsKeepAlive(headers)
  {
    NamesDiffer();
    var n := |bytes|;
    if n == 0 {
      DivUnique(-1, -1, WORD - 1, WORD);
      DivUnique(WORD - 1, 0, WORD - 1, WORD);
      DivUnique(WORD, 1, 0, WORD);
    } else {
      DivUnique(n - 1, 0, n - 1, WORD);
      DivUnique(n, 0, n, WORD);
      assert bytes[0..n] == bytes;
    }
  }

  /** The length of a reversed range wraps around. */
  lemma ReversedLength(a: nat, b: nat)
    requires b < a < WORD
    ensures ReadLen(a, b) == if a == b + 1 then 0 else WORD - (a - b - 1)
  {
    DivUnique((b as int) - a, -1, WORD - (a - b), WORD);
    if a == b + 1 { DivUnique(WORD, 1, 0, WORD); } else { DivUnique(WORD - (a - b) + 1, 0, WORD - (a - b) + 1, WORD); }
  }

  /** What a reversed range inside the file gets: nothing at all under a 206, when it is reversed by one, else an error. */
  lemma ReversedRange(r: Response, headers: map<string, string>, bytes: string, mime: string, first: string, last: string)
    requires Numeral(first) && Numeral(last) && Value(last) < Value(first) < |bytes| <= MAX_STRING
    requires RANGE in headers && headers[RANGE] == IntRange(first, last)
    ensures var ans := Answer(r, headers, Regular(bytes, true, mime));
            if Value(first) == Value(last) + 1 then ans.code == 206 && ans.body == "" else ans.code == 500
  {
    PlanInt(|bytes|, headers, first, last);
    ReversedLength(Value(first), Value(last));
  }

  /** What a first position of 2^64 or more gets: the range is served as if it began at 0, from any file but the empty
      one, although it begins past its end. */
  lemma HugeFirstServed(r: Response, headers: map<string, string>, bytes: string, mime: string, first: string, last: string)
    requires Numeral(first) && Numeral(last) && Value(first) >= WORD && 0 < |bytes| <= MAX_STRING
    requires RANGE in headers && headers[RANGE] == IntRange(first, last)
    ensures var ans, e := Answer(r, headers, Regular(bytes, true, mime)), Min(Value(last), |bytes| - 1);
            ans.code == 206 && ans.body == bytes[..e + 1] && HasRange(ans.headers, PartOf(0, e, |bytes|))
  {
    PlanInt(|bytes|, headers, first, last);
    PartServed(r, headers, bytes, mime, 0, Min(Value(last), |bytes| - 1));
  }

  /** `bytes=a-b` is answered as RFC 9110 allows exactly when the file is empty; or `a` fits in 64 bits, and the range is
      not reversed or begins past the end of the file and so is refused. */
  lemma IntRangeConformsIff(r: Response, headers: map<string, string>, bytes: string, mime: string, first: string, last: string)
    requires Numeral(first) && Numeral(last) && |bytes| <= MAX_STRING
    requires RANGE in headers && headers[RANGE] == IntRange(first, last)
    ensures var a, b := Value(first), Value(last);
            Conforms(Answer(r, headers, Regular(bytes, true, mime)), bytes, RfcIntRange(|bytes|, a, b))
            <==> bytes == "" || (a < WORD && (a <= b || a >= |bytes|))
  {
    var a, b, size := Value(first), Value(last), |bytes|;
    var start := if a < WORD then a else 0;
    var ans, sel := Answer(r, headers, Regular(bytes, true, mime)), RfcIntRange(size, a, b);
    PlanInt(size, headers, first, last);
    if start >= size {
      RefusedAnswer(r, headers, bytes, true, mime);
      RefusalConformsIff(ans, bytes, sel);
    } else if start <= b {
      PartServed(r, headers, bytes, mime, start, Min(b, size - 1));
      PartConformsIff(ans, bytes, sel, start, Min(b, size - 1));
    } else {
      ReversedRange(r, headers, bytes, mime, first, last);
    }
  }

  const DIGITS: string := "0123456789"

  lemma SomeNumeral(n: nat) returns (s: string)
    ensures Numeral(s) && Value(s) == n
  {
    s := ToString(n);
    ValueOfToString(n);
  }

  /** The range from 2^64 to 2^64 + 1 of a file of ten bytes: all of it. */
  lemma HugeRangeServesTheFile(r: Response, mime: string) returns (first: string, last: string)
    ensures Numeral(first) && Numeral(last) && Value(first) == WORD && Value(last) == WORD + 1
    ensures var ans := Answer(r, map[RANGE := IntRange(first, last)], Regular(DIGITS, true, mime));
            && ans.code == 206 && ans.body == DIGITS && HasRange(ans.headers, PartOf(0, 9, 10))
            && !Conforms(ans, DIGITS, RfcIntRange(|DIGITS|, WORD, WORD + 1))
  {
    first := SomeNumeral(WORD);
    last := SomeNumeral(WORD + 1);
    var headers := map[RANGE := IntRange(first, last)];
    HugeFirstServed(r, headers, DIGITS, mime, first, last);
    assert DIGITS[..10] == DIGITS;
    assert DIGITS == DIGITS[0..9 + 1];
    PartConformsIff(Answer(r, headers, Regular(DIGITS, true, mime)), DIGITS, RfcIntRange(10, WORD, WORD + 1), 0, 9);
  }

  /** `bytes=a-` is answered as RFC 9110 allows exactly when `a` fits in 64 bits or the file is empty. */
  lemma OpenRangeConformsIff(r: Response, headers: map<string, string>, bytes: string, mime: string, first: string)
    requires Numeral(first) && |bytes| <= MAX_STRING && RANGE in headers && headers[RANGE] == OpenRange(first)
    ensures Conforms(Answer(r, headers, Regular(bytes, true, mime)), bytes, RfcOpenRange(|bytes|, Value(first)))
            <==> Value(first) < WORD || bytes == ""
  {
    var start := if Value(first) < WORD then Value(first) else 0;
    var ans, sel := Answer(r, headers, Regular(bytes, true, mime)), RfcOpenRange(|bytes|, Value(first));
    PlanOpen(|bytes|, headers, first);
    if start >= |bytes| {
      RefusedAnswer(r, headers, bytes, true, mime);
      RefusalConformsIff(ans, bytes, sel);
    } else {
      PartServed(r, headers, bytes, mime, start, |bytes| - 1);
      PartConformsIff(ans, bytes, sel, start, |bytes| - 1);
    }
  }

  /** `bytes=-n` asks for the last `n` bytes; the program serves the first `n + 1`.  The answer is one RFC 9110 allows
      exactly when the file is not empty and has at most `n` bytes, or is empty and nothing of it is asked for. */
  lemma SuffixRangeConformsIff(r: Response, headers: map<string, string>, bytes: string, mime: string, length: string)
    requires Numeral(length) && |bytes| <= MAX_STRING && RANGE in headers && headers[RANGE] == SuffixRange(length)
    ensures Conforms(Answer(r, headers, Regular(bytes, true, mime)), bytes, RfcSuffixRange(|bytes|, Value(length)))
            <==> 0 < |bytes| <= Value(length) || (Value(length) == 0 && bytes == "")
  {
    var ans, sel := Answer(r, headers, Regular(bytes, true, mime)), RfcSuffixRange(|bytes|, Value(length));
    PlanSuffix(|bytes|, headers, length);
    if bytes == "" {
      RefusedAnswer(r, headers, bytes, true, mime);
      RefusalConformsIff(ans, bytes, sel);
    } else {
      PartServed(r, headers, bytes, mime, 0, Min(Value(length), |bytes| - 1));
      PartConformsIff(ans, bytes, sel, 0, Min(Value(length), |bytes| - 1));
    }
  }

  // ----- Resuming a download

  /** The body served for one Range header, if the answer is a 206. */
  function Served(r: Response, bytes: string, mime: string, range: string): Option<string> {
    var ans := Answer(r, map[RANGE := range], Regular(bytes, true, mime));
    if ans.code == 206 then Some(ans.body) else None
  }

  function Piece(a: nat, b: nat): string { IntRange(ToString(a), ToString(b)) }

  function LastPiece(a: nat): string { OpenRange(ToString(a)) }

  lemma PieceServed(r: Response, bytes: string, mime: string, a: nat, k: nat)
    requires a <= k < |bytes| <= MAX_STRING
    ensures Served(r, bytes, mime, Piece(a, k)) == Some(bytes[a..k + 1])
  {
    var h := map[RANGE := Piece(a, k)];
    ValueOfToString(a);
    ValueOfToString(k);
    PlanInt(|bytes|, h, ToString(a), ToString(k));
    PartServed(r, h, bytes, mime, a, k);
  }

  lemma LastPieceServed(r: Response, bytes: string, mime: string, a: nat)
    requires a < |bytes| <= MAX_STRING
    ensures Served(r, bytes, mime, LastPiece(a)) == Some(bytes[a..])
  {
    var h := map[RANGE := LastPiece(a)];
    ValueOfToString(a);
    PlanOpen(|bytes|, h, ToString(a));
    PartServed(r, h, bytes, mime, a, |bytes| - 1);
    assert bytes[a..|bytes|] == bytes[a..];
  }

  /** Increasing positions, from `start` on, of the last byte of each piece but the final one. */
  predicate CutPoints(start: nat, cuts: seq<nat>, size: nat) {
    && (forall i, j :: 0 <= i < j < |cuts| ==> cuts[i] < cuts[j])
    && (forall i :: 0 <= i < |cuts| ==> start <= cuts[i] < size - 1)
  }

  /** A client that fetches the file from `start` on in pieces that end at `cuts`, the last piece open-ended; `None`
      unless every piece is served.  `serve` is the server. */
  function Fetch(serve: string -> Option<string>, start: nat, cuts: seq<nat>): Option<string>
    decreases |cuts|
  {
    if cuts == [] then serve(LastPiece(start)) else
      var piece, rest := serve(Piece(start, cuts[0])), Fetch(serve, cuts[0] + 1, cuts[1..]);
      if piece.Some? && rest.Some? then Some(piece.value + rest.value) else None
  }

  lemma {:induction false} PiecesMakeTheFile(serve: string -> Option<string>, bytes: string, start: nat, cuts: seq<nat>)
    requires forall a: nat, k: nat :: a <= k < |bytes| ==> serve(Piece(a, k)) == Some(bytes[a..k + 1])
    requires forall a: nat :: a < |bytes| ==> serve(LastPiece(a)) == Some(bytes[a..])
    requires start < |bytes|
    requires CutPoints(start, cuts, |bytes|)
    ensures Fetch(serve, start, cuts) == Some(bytes[start..])
    decreases |cuts|
  {
    if cuts != [] {
      var k := cuts[0];
      PiecesMakeTheFile(serve, bytes, k + 1, cuts[1..]);
      assert bytes[start..k + 1] + bytes[k + 1..] == bytes[start..];
    }
  }

  /** Resume: pieces fetched by adjacent ranges, cut anywhere, are all served and make up the file. */
  lemma ResumeRebuilds(r: Response, bytes: string, mime: string, cuts: seq<nat>)
    requires 0 < |bytes| <= MAX_STRING
    requires CutPoints(0, cuts, |bytes|)
    ensures Fetch(range => Served(r, bytes, mime, range), 0, cuts) == Some(bytes)
  {
    var serve := range => Served(r, bytes, mime, range);
    forall a: nat, k: nat | a <= k < |bytes| ensures serve(Piece(a, k)) == Some(bytes[a..k + 1]) {
      PieceServed(r, bytes, mime, a, k);
    }
    forall a: nat | a < |bytes| ensures serve(LastPiece(a)) == Some(bytes[a..]) { LastPieceServed(r, bytes, mime, a); }
    PiecesMakeTheFile(serve, bytes, 0, cuts);
    assert bytes[0..] == bytes;
  }
}
