/** The parser as the program has it: an object whose fields each call updates. */
module HttpRequest {
  import opened FieldNames
  import opened Text
  import opened RequestParser

  class HttpRequest {
    var state: ParseState
    var method_: string
    var path: string
    var version: string
    var headers: map<string, string>
    var body: string

    function View(): Parser
      reads this
    {
      Parser(state, method_, path, version, headers, body)
    }

    constructor ()
      ensures View() == FRESH
    {
      state, method_, path, version, headers, body := REQUEST_LINE, "", "", "", map[], "";
    }

    method Reset()
      modifies this
      ensures View() == FRESH
    {
      state := REQUEST_LINE;
      method_, path, version := "", "", "";
      headers := map[];
      body := "";
    }

    method ParseRequestLine(line: string) returns (ok: bool)
      modifies this
      ensures (View(), ok) == RequestParser.ParseRequestLine(old(View()), line)
    {
      var pos1 := FindChar(line, ' ');
      var pos2 := RFindChar(line, ' ');
      if pos1 == -1 || pos2 == -1 || pos1 == pos2 { return false; }
      method_ := line[..pos1];
      path := line[pos1 + 1..pos2];
      version := line[pos2 + 1..];
      return true;
    }

    method ParseHeaders(line: string) returns (ok: bool)
      modifies this
      ensures View() == ParseHeader(old(View()), line) && (ok <==> ':' in line)
    {
      var pos := FindChar(line, ':');
      if pos == -1 {
        state := ERROR;
        return false;
      }
      headers := headers[line[..pos] := TrimValue(line[pos + 1..])];
      return true;
    }

    /** The body of the loop in `Parse`, on what is left of the data: `data` advances by lines, `used` counts. */
    method Iterate(data: string, used: nat) returns (rest: string, used': nat, leave: bool)
      requires Guard(Config(View(), data))
      modifies this
      ensures View() == LoopBody(Config(old(View()), data)).c.p
      ensures used <= used' <= used + |data| && data[used' - used..] == LoopBody(Config(old(View()), data)).c.unread
      ensures rest == data[used' - used..] || state == DONE
      ensures leave <==> LoopBody(Config(old(View()), data)).Exit?
    {
      rest, used', leave := data, used, false;
      var pos := Find(data, CRLF, 0);
      if pos == -1 { return data, used, true; }
      var line := data[..pos];
      match state {
        case REQUEST_LINE =>
          var ok := ParseRequestLine(line);
          if ok { state := HEADER; } else { state := ERROR; }
          rest, used' := data[pos + 2..], used + pos + 2;
        case HEADER =>
          if line == "" {
            state := if CONTENT_LENGTH in headers then BODY else DONE;
          } else {
            var _ := ParseHeaders(line);
          }
          rest, used' := data[pos + 2..], used + pos + 2;
        case BODY =>
          if CONTENT_LENGTH !in headers {
            state := ERROR;
            return data, used, true;
          }
          var contentLength := FromChars(headers[CONTENT_LENGTH], 0);
          if |data| >= contentLength {
            body := data[..contentLength];
            used' := used + contentLength;
            state := DONE;
          }
        case _ =>
      }
    }

    /** Consumes what it can of `input`.  `hangs` marks the moment from which the program's loop repeats itself for
        ever; otherwise `used` is what `Parse` returns. */
    method Parse(input: string) returns (used: nat, hangs: bool)
      modifies this
      ensures match RequestParser.Parse(old(View()), input)
              case Finished(p, unread) => !hangs && View() == p && used <= |input| && input[used..] == unread
              case Hangs(p) => hangs && View() == p
    {
      var data := input;
      used, hangs := 0, false;
      ghost var goal := RequestParser.Parse(View(), input);
      while data != "" && state != DONE
        invariant used <= |input| && ParseFrom(Config(View(), input[used..])) == goal
        invariant data == input[used..] || state == DONE
        decreases Measure(Config(View(), input[used..]))
      {
        var before, used0 := View(), used;
        ghost var c := Config(View(), data);
        Unfold(c);
        var leave;
        data, used, leave := Iterate(data, used);
        assert input[used..] == input[used0..][used - used0..];
        if leave { return; }
        if View() == before && used == used0 {
          assert input[used..] == input[used0..];
          return used, true;
        }
        assert |input[used..]| == |input| - used;
      }
    }
  }
}
