/** The incremental request parser.

    `LoopBody` is one iteration of the parsing loop.  Two configurations are fixed points of it: there the program's
    loop never ends, and the model says so instead of running on (`Hangs`). */
module RequestParser {
  import opened FieldNames
  import opened Text

  datatype ParseState = REQUEST_LINE | HEADER | BODY | DONE | ERROR

  /** The fields of the parser. */
  datatype Parser = Parser(
    state: ParseState, method_: string, path: string, version: string, headers: map<string, string>, body: string)

  const FRESH := Parser(REQUEST_LINE, "", "", "", map[], "")

  /** A line with fewer than two spaces is refused; between the first and the last space anything is the path. */
  function ParseRequestLine(p: Parser, line: string): (Parser, bool) {
    var pos1, pos2 := FindChar(line, ' '), RFindChar(line, ' ');
    if pos1 == -1 || pos2 == -1 || pos1 == pos2 then (p, false)
    else
      assert pos1 < pos2;
      (p.(method_ := line[..pos1], path := line[pos1 + 1..pos2], version := line[pos2 + 1..]), true)
  }

  /** How many leading characters are spaces or tabs. */
  function LeadingBlanks(s: string): (n: nat)
    ensures n <= |s|
  {
    if s == "" || (s[0] != ' ' && s[0] != '\t') then 0 else 1 + LeadingBlanks(s[1..])
  }

  /** Drops leading blanks; a value of nothing but blanks is kept as it is. */
  function TrimValue(s: string): string { if LeadingBlanks(s) == |s| then s else s[LeadingBlanks(s)..] }

  function ParseHeader(p: Parser, line: string): Parser {
    var pos := FindChar(line, ':');
    if pos == -1 then p.(state := ERROR) else p.(headers := p.headers[line[..pos] := TrimValue(line[pos + 1..])])
  }

  function AfterRequestLine(p: Parser, line: string): Parser {
    var (p', ok) := ParseRequestLine(p, line);
    p'.(state := if ok then HEADER else ERROR)
  }

  /** The blank line ends the headers: a body follows if and only if its length was announced. */
  function AfterHeaderLine(p: Parser, line: string): Parser {
    if line == "" then p.(state := if CONTENT_LENGTH in p.headers then BODY else DONE) else ParseHeader(p, line)
  }

  function ContentLength(p: Parser): nat
    requires CONTENT_LENGTH in p.headers
  {
    FromChars(p.headers[CONTENT_LENGTH], 0)
  }

  /** Between two iterations: the parser and the bytes not consumed yet. */
  datatype Config = Config(p: Parser, unread: string)

  predicate Guard(c: Config) { c.unread != "" && c.p.state != DONE }

  datatype Iteration = Next(c: Config) | Exit(c: Config)

  /** The BODY case, when a line end is in sight. */
  function AwaitBody(c: Config): Iteration {
    if CONTENT_LENGTH !in c.p.headers then Exit(c.(p := c.p.(state := ERROR)))
    else
      var n := ContentLength(c.p);
      if |c.unread| >= n then Next(Config(c.p.(body := c.unread[..n], state := DONE), c.unread[n..])) else Next(c)
  }

  function LoopBody(c: Config): Iteration
    requires Guard(c)
  {
    var pos := Find(c.unread, CRLF, 0);
    if pos == -1 then Exit(c) else
      match c.p.state
      case REQUEST_LINE => Next(Config(AfterRequestLine(c.p, c.unread[..pos]), c.unread[pos + 2..]))
      case HEADER => Next(Config(AfterHeaderLine(c.p, c.unread[..pos]), c.unread[pos + 2..]))
      case BODY => AwaitBody(c)
      case _ => Next(c)
  }

  /** The loop is entered again with nothing changed. */
  predicate Stutters(c: Config) { Guard(c) && LoopBody(c) == Next(c) }

  /** The two stuttering configurations: an error with a line still ahead, and a body shorter than announced with a
      line end in it. */
  lemma StuttersIff(c: Config)
    ensures Stutters(c) <==>
              Guard(c) && Find(c.unread, CRLF, 0) >= 0 &&
              (c.p.state == ERROR ||
               (c.p.state == BODY && CONTENT_LENGTH in c.p.headers && |c.unread| < ContentLength(c.p)))
  {
  }

  function Measure(c: Config): nat { |c.unread| + if c.p.state == DONE then 0 else 1 }

  ghost predicate Suffix(t: string, s: string) { |t| <= |s| && t == s[|s| - |t|..] }

  lemma DropIsSuffix(s: string, n: nat)
    requires n <= |s|
    ensures |s[n..]| == |s| - n && Suffix(s[n..], s)
  {
  }

  lemma BodyProgress(c: Config)
    requires c.unread != "" && c.p.state == BODY && AwaitBody(c).Next? && AwaitBody(c).c != c
    ensures AwaitBody(c).c.p.state == DONE && |AwaitBody(c).c.unread| <= |c.unread| && Suffix(AwaitBody(c).c.unread, c.unread)
  {
    DropIsSuffix(c.unread, ContentLength(c.p));
  }

  /** Every other continuing iteration consumes a line end at least, or finishes. */
  lemma IterationProgress(c: Config)
    ensures Guard(c) && !Stutters(c) && LoopBody(c).Next? ==>
              var c' := LoopBody(c).c;
              && Measure(c') < Measure(c) && Suffix(c'.unread, c.unread)
              && (c'.p.state == DONE || |c'.unread| <= |c.unread| - 2)
  {
    if Guard(c) && !Stutters(c) && LoopBody(c).Next? {
      var pos := Find(c.unread, CRLF, 0);
      if c.p.state == BODY { BodyProgress(c); } else { DropIsSuffix(c.unread, pos + 2); }
    }
  }

  datatype Outcome = Finished(p: Parser, unread: string) | Hangs(p: Parser)

  function ParseFrom(c: Config): Outcome
    decreases Measure(c)
  {
    if !Guard(c) then Finished(c.p, c.unread)
    else if LoopBody(c) == Next(c) then Hangs(c.p)
    else
      match LoopBody(c)
      case Exit(c') => Finished(c'.p, c'.unread)
      case Next(c') =>
        IterationProgress(c);
        ParseFrom(c')
  }

  function Parse(p: Parser, data: string): Outcome { ParseFrom(Config(p, data)) }

  /** One turn of the loop: its guard, then its body. */
  function LoopStep(c: Config): Iteration { if Guard(c) then LoopBody(c) else Exit(c) }

  function Steps(step: Config -> Iteration, c: Config, n: nat): Iteration
    decreases n
  {
    if n == 0 then Next(c) else
      match step(c)
      case Exit(c') => Exit(c')
      case Next(c') => Steps(step, c', n - 1)
  }

  /** The configuration after `n` turns; `Exit` once the loop has been left. */
  function After(c: Config, n: nat): Iteration { Steps(LoopStep, c, n) }

  /** One unfolding of `ParseFrom`. */
  lemma Unfold(c: Config)
    requires Guard(c)
    ensures LoopBody(c).Exit? ==> ParseFrom(c) == Finished(LoopBody(c).c.p, c.unread)
    ensures LoopBody(c) == Next(c) ==> ParseFrom(c) == Hangs(c.p)
    ensures LoopBody(c).Next? && LoopBody(c) != Next(c) ==>
              ParseFrom(c) == ParseFrom(LoopBody(c).c) && Measure(LoopBody(c).c) < Measure(c)
              && Suffix(LoopBody(c).c.unread, c.unread)
  {
    if LoopBody(c).Next? && LoopBody(c) != Next(c) { IterationProgress(c); }
  }

  lemma {:induction false} StepsForever(step: Config -> Iteration, stays: Config -> bool, c: Config, n: nat)
    requires forall d {:trigger stays(d)} :: stays(d) ==> step(d).Next? && stays(step(d).c)
    requires stays(c)
    ensures Steps(step, c, n).Next?
    decreases n
  {
    if n > 0 { StepsForever(step, stays, step(c).c, n - 1); }
  }

  lemma {:induction false} StepsEnd(step: Config -> Iteration, ends: Config -> bool, measure: Config -> nat, c: Config, n: nat)
    requires forall d {:trigger ends(d)} :: ends(d) && step(d).Next? ==> ends(step(d).c) && measure(step(d).c) < measure(d)
    requires ends(c) && n > measure(c)
    ensures Steps(step, c, n).Exit?
    decreases n
  {
    if step(c).Next? { StepsEnd(step, ends, measure, step(c).c, n - 1); }
  }

  predicate Hanging(c: Config) { ParseFrom(c).Hangs? }
  predicate Finishing(c: Config) { ParseFrom(c).Finished? }

  /** A turn of the loop leads from hanging to hanging, and from finishing closer to the end. */
  lemma LoopStepParses(c: Config)
    ensures Hanging(c) ==> LoopStep(c).Next? && Hanging(LoopStep(c).c)
    ensures Finishing(c) && LoopStep(c).Next? ==> Finishing(LoopStep(c).c) && Measure(LoopStep(c).c) < Measure(c)
  {
    if Guard(c) { Unfold(c); }
  }

  lemma LoopRunsForever(c: Config, n: nat)
    ensures Hanging(c) ==> After(c, n).Next?
  {
    forall d {:trigger Hanging(d)} | Hanging(d) ensures LoopStep(d).Next? && Hanging(LoopStep(d).c) { LoopStepParses(d); }
    if Hanging(c) { StepsForever(LoopStep, Hanging, c, n); }
  }

  lemma LoopIsLeft(c: Config)
    ensures Finishing(c) ==> After(c, |c.unread| + 2).Exit?
  {
    forall d {:trigger Finishing(d)} | Finishing(d) && LoopStep(d).Next?
      ensures Finishing(LoopStep(d).c) && Measure(LoopStep(d).c) < Measure(d)
    {
      LoopStepParses(d);
    }
    if Finishing(c) { StepsEnd(LoopStep, Finishing, Measure, c, |c.unread| + 2); }
  }

  /** `Hangs` is exact: `ParseFrom` finishes if and only if the loop is left after finitely many iterations, and then
      it is left within one iteration per byte and two more. */
  lemma FinishesIff(c: Config)
    ensures ParseFrom(c).Finished? <==> exists n: nat :: After(c, n).Exit?
    ensures ParseFrom(c).Finished? ==> After(c, |c.unread| + 2).Exit?
  {
    if ParseFrom(c).Finished? {
      LoopIsLeft(c);
    } else {
      forall n: nat ensures After(c, n).Next? { LoopRunsForever(c, n); }
    }
  }

  /** What is left unread is the end of what was given. */
  lemma {:induction false} UnreadIsSuffix(c: Config)
    ensures ParseFrom(c).Finished? ==> Suffix(ParseFrom(c).unread, c.unread)
    decreases Measure(c)
  {
    if Guard(c) {
      Unfold(c);
      if LoopBody(c).Next? && LoopBody(c) != Next(c) { UnreadIsSuffix(LoopBody(c).c); }
    }
  }
}
