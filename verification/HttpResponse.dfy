/** The response object and its serialisation. */
module HttpResponse {
  import opened FieldNames
  import opened Text
  import opened Buffer

  /** The fields of a response. */
  datatype Response = Response(code: nat, keepAlive: bool, headers: map<string, string>, body: string)

  function StatusMsg(code: nat): string {
    match code
    case 200 => "OK"
    case 206 => "Partial Content"
    case 400 => "Bad Request"
    case 404 => "Not Found"
    case 500 => "Internal Server Error"
    case _ => "Unknown"
  }

  function FieldLine(key: string, value: string): string { key + ": " + value }

  function StatusText(digits: string, msg: string): string { "HTTP/1.1 " + digits + " " + msg }

  function StatusLine(code: nat): string { StatusText(ToString(code), StatusMsg(code)) }

  function FieldLines(m: map<string, string>, keys: seq<string>): seq<string>
    requires forall i :: 0 <= i < |keys| ==> keys[i] in m
  {
    seq(|keys|, i requires 0 <= i < |keys| => FieldLine(keys[i], m[keys[i]]))
  }

  function Preamble(code: nat): seq<string> { [StatusLine(code), FieldLine(ACCEPT_RANGES, "bytes")] }

  function FramingLines(r: Response): seq<string> {
    [FieldLine(CONTENT_LENGTH, ToString(|r.body|)), FieldLine(CONNECTION, if r.keepAlive then "keep-alive" else "close")]
  }

  /** The lines of a head when the header map is traversed in the order `keys`. */
  function HeadLines(r: Response, keys: seq<string>): seq<string>
    requires forall i :: 0 <= i < |keys| ==> keys[i] in r.headers
  {
    Preamble(r.code) + FieldLines(r.headers, keys) + FramingLines(r)
  }

  function JoinLines(ls: seq<string>): string
    decreases |ls|
  {
    if ls == [] then "" else JoinLines(ls[..|ls| - 1]) + ls[|ls| - 1] + CRLF
  }

  function Serialize(r: Response, keys: seq<string>): string
    requires forall i :: 0 <= i < |keys| ==> keys[i] in r.headers
  {
    JoinLines(HeadLines(r, keys)) + CRLF + r.body
  }

  lemma SerializeParts(before: string, r: Response, keys: seq<string>)
    requires forall i :: 0 <= i < |keys| ==> keys[i] in r.headers
    ensures before + JoinLines(HeadLines(r, keys)) + CRLF + r.body == before + Serialize(r, keys)
  {
  }

  lemma FieldLinesSnoc(m: map<string, string>, keys: seq<string>, key: string, ls: seq<string>)
    requires (forall i :: 0 <= i < |keys| ==> keys[i] in m) && key in m
    ensures ls + FieldLines(m, keys + [key]) == ls + FieldLines(m, keys) + [FieldLine(key, m[key])]
  {
  }

  lemma FramingSnoc(r: Response, ls: seq<string>)
    ensures ls + [FramingLines(r)[0]] + [FramingLines(r)[1]] == ls + FramingLines(r)
  {
  }

  /** Every key once, in any order. */
  ghost predicate Enumerates(keys: seq<string>, m: map<string, string>) {
    (forall k :: k in keys <==> k in m) && forall i, j :: 0 <= i < j < |keys| ==> keys[i] != keys[j]
  }

  class HttpResponse {
    var code: nat
    var keepAlive: bool
    var headers: map<string, string>
    var body: string

    function View(): Response
      reads this
    {
      Response(code, keepAlive, headers, body)
    }

    constructor (code: nat)
      ensures View() == Response(code, false, map[], "")
    {
      this.code, keepAlive, headers, body := code, false, map[], "";
    }

    method AddHeader(key: string, value: string)
      modifies this`headers
      ensures headers == old(headers)[key := value]
    {
      headers := headers[key := value];
    }

    /** Appends one line of the head. */
    method AppendLine(output: Buffer, line: string, ghost before: string, ghost ls: seq<string>)
      requires output.Valid() && output.Contents() == before + JoinLines(ls)
      modifies output, output.buffer
      ensures output.Valid() && output.Contents() == before + JoinLines(ls + [line])
      ensures output.buffer == old(output.buffer) || fresh(output.buffer)
    {
      output.Append(line);
      output.Append(CRLF);
      assert (ls + [line])[..|ls|] == ls;
      assert before + JoinLines(ls) + line + CRLF == before + (JoinLines(ls) + line + CRLF);
    }

    /** Appends the header map, in some order. */
    method AppendFields(output: Buffer, ghost before: string, ghost ls: seq<string>) returns (ghost keys: seq<string>)
      requires output.Valid() && output.Contents() == before + JoinLines(ls)
      modifies output, output.buffer
      ensures output.Valid() && (output.buffer == old(output.buffer) || fresh(output.buffer))
      ensures Enumerates(keys, headers) && output.Contents() == before + JoinLines(ls + FieldLines(headers, keys))
    {
      keys := [];
      var left := headers.Keys;
      assert ls + FieldLines(headers, keys) == ls;
      while left != {}
        invariant output.Valid() && (output.buffer == old(output.buffer) || fresh(output.buffer))
        invariant left <= headers.Keys && (forall k :: k in keys <==> k in headers.Keys && k !in left)
        invariant forall i, j :: 0 <= i < j < |keys| ==> keys[i] != keys[j]
        invariant output.Contents() == before + JoinLines(ls + FieldLines(headers, keys))
        decreases left
      {
        var key :| key in left;
        left := left - {key};
        AppendLine(output, FieldLine(key, headers[key]), before, ls + FieldLines(headers, keys));
        FieldLinesSnoc(headers, keys, key, ls);
        keys := keys + [key];
      }
    }

    /** Appends the two lines that delimit the message. */
    method AppendFraming(output: Buffer, ghost before: string, ghost ls: seq<string>)
      requires output.Valid() && output.Contents() == before + JoinLines(ls)
      modifies output, output.buffer
      ensures output.Valid() && (output.buffer == old(output.buffer) || fresh(output.buffer))
      ensures output.Contents() == before + JoinLines(ls + FramingLines(View()))
    {
      var length := FieldLine(CONTENT_LENGTH, ToString(|body|));
      AppendLine(output, length, before, ls);
      var connection := FieldLine(CONNECTION, if keepAlive then "keep-alive" else "close");
      AppendLine(output, connection, before, ls + [length]);
      FramingSnoc(View(), ls);
    }

    /** Appends the first two lines. */
    method AppendPreamble(output: Buffer, ghost before: string)
      requires output.Valid() && output.Contents() == before
      modifies output, output.buffer
      ensures output.Valid() && (output.buffer == old(output.buffer) || fresh(output.buffer))
      ensures output.Contents() == before + JoinLines(Preamble(code))
    {
      var status, ranges := StatusLine(code), FieldLine(ACCEPT_RANGES, "bytes");
      assert before + JoinLines([]) == before;
      AppendLine(output, status, before, []);
      AppendLine(output, ranges, before, [] + [status]);
      assert [] + [status] + [ranges] == Preamble(code);
    }

    /** Appends the lines of the head. */
    method AppendHead(output: Buffer, ghost before: string) returns (ghost keys: seq<string>)
      requires output.Valid() && output.Contents() == before
      modifies output, output.buffer
      ensures output.Valid() && (output.buffer == old(output.buffer) || fresh(output.buffer))
      ensures Enumerates(keys, headers) && output.Contents() == before + JoinLines(HeadLines(View(), keys))
    {
      AppendPreamble(output, before);
      keys := AppendFields(output, before, Preamble(code));
      AppendFraming(output, before, Preamble(code) + FieldLines(headers, keys));
    }

    /** Appends the message.  The order in which an unordered map is traversed is unspecified; `keys` is the one
        that was met. */
    method AppendToBuffer(output: Buffer) returns (ghost keys: seq<string>)
      requires output.Valid()
      modifies output, output.buffer
      ensures output.Valid() && (output.buffer == old(output.buffer) || fresh(output.buffer))
      ensures Enumerates(keys, headers) && output.Contents() == old(output.Contents()) + Serialize(View(), keys)
    {
      ghost var before := output.Contents();
      keys := AppendHead(output, before);
      SerializeParts(before, View(), keys);
      output.Append(CRLF);
      output.Append(body);
    }
  }
}
