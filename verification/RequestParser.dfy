/** The parser in the shape of the source: an object that consumes one byte at a
    time and updates the request it is handed. */
module RequestParser {
  import opened RequestMachine
  import Text

  /** `http_request`: filled in by the parser, read by the router. */
  class HttpRequest {
    var verb: string
    var uri: string
    var versionMajor: int
    var versionMinor: int
    var headers: seq<Header>

    constructor ()
      ensures Data() == Request("", "", 0, 0, [])
    {
      verb, uri, versionMajor, versionMinor, headers := "", "", 0, 0, [];
    }

    function Data(): Request
      reads this
    {
      Request(verb, uri, versionMajor, versionMinor, headers)
    }
  }

  predicate InHeaderLines(state: State) {
    state in {HeaderLineStart, HeaderLws, HeaderName, SpaceBeforeValue, HeaderValue, Newline2, Newline3}
  }

  class Parser {
    var state: State

    constructor ()
      ensures state == MethodStart
    {
      state := MethodStart;
    }

    ghost function Machine(req: HttpRequest): Machine
      reads this, req
    {
      RequestMachine.Machine(state, req.Data())
    }

    /** Only the state is reset; the request is the caller's to clear. */
    method Reset()
      modifies this
      ensures state == MethodStart
    {
      state := MethodStart;
    }

    method ExtendLastHeader(req: HttpRequest, name: string, value: string)
      requires req.headers != []
      modifies req`headers
      ensures req.headers == ExtendLast(old(req.headers), name, value)
    {
      var n := |req.headers| - 1;
      var last := req.headers[n];
      req.headers := req.headers[..n] + [Header(last.name + name, last.value + value)];
    }

    /** The request line, states `method_start` to `expecting_newline_1`. */
    method ConsumeLine(req: HttpRequest, input: char) returns (result: Result)
      requires !InHeaderLines(state)
      modifies this, req
      ensures Step(old(Machine(req)), input) == Outcome(result, Machine(req), 1)
    {
      match state
      case MethodStart =>
        if !IsChar(input) || IsCtl(input) || IsTspecial(input) {
          return Bad;
        }
        state := Method;
        req.verb := req.verb + [input];
        return Indeterminate;
      case Method =>
        if input == ' ' {
          state := Uri;
          return Indeterminate;
        } else if !IsChar(input) || IsCtl(input) || IsTspecial(input) {
          return Bad;
        }
        req.verb := req.verb + [input];
        return Indeterminate;
      case Uri =>
        if input == ' ' {
          state := VersionH;
          return Indeterminate;
        } else if IsCtl(input) {
          return Bad;
        }
        req.uri := req.uri + [input];
        return Indeterminate;
      case VersionH =>
        if input != 'H' {
          return Bad;
        }
        state := VersionT1;
        return Indeterminate;
      case VersionT1 =>
        if input != 'T' {
          return Bad;
        }
        state := VersionT2;
        return Indeterminate;
      case VersionT2 =>
        if input != 'T' {
          return Bad;
        }
        state := VersionP;
        return Indeterminate;
      case VersionP =>
        if input != 'P' {
          return Bad;
        }
        state := VersionSlash;
        return Indeterminate;
      case VersionSlash =>
        if input != '/' {
          return Bad;
        }
        req.versionMajor := 0;
        req.versionMinor := 0;
        state := MajorStart;
        return Indeterminate;
      case MajorStart =>
        if !Text.IsDigit(input) {
          return Bad;
        }
        req.versionMajor := req.versionMajor * 10 + input as int - '0' as int;
        state := Major;
        return Indeterminate;
      case Major =>
        if input == '.' {
          state := MinorStart;
          return Indeterminate;
        } else if !Text.IsDigit(input) {
          return Bad;
        }
        req.versionMajor := req.versionMajor * 10 + input as int - '0' as int;
        return Indeterminate;
      case MinorStart =>
        if !Text.IsDigit(input) {
          return Bad;
        }
        req.versionMinor := req.versionMinor * 10 + input as int - '0' as int;
        state := Minor;
        return Indeterminate;
      case Minor =>
        if input == '\r' {
          state := Newline1;
          return Indeterminate;
        } else if !Text.IsDigit(input) {
          return Bad;
        }
        req.versionMinor := req.versionMinor * 10 + input as int - '0' as int;
        return Indeterminate;
      case Newline1 =>
        if input != '\n' {
          return Bad;
        }
        state := HeaderLineStart;
        return Indeterminate;
    }

    /** The header lines, states `header_line_start` to `expecting_newline_3`. */
    method ConsumeHeader(req: HttpRequest, input: char) returns (result: Result)
      requires InHeaderLines(state)
      requires Machine(req).Safe()
      modifies this, req
      ensures Step(old(Machine(req)), input) == Outcome(result, Machine(req), 1)
    {
      match state
      case HeaderLineStart =>
        if input == '\r' {
          state := Newline3;
          return Indeterminate;
        } else if req.headers != [] && (input == ' ' || input == '\t') {
          state := HeaderLws;
          return Indeterminate;
        } else if !IsChar(input) || IsCtl(input) || IsTspecial(input) {
          return Bad;
        }
        req.headers := req.headers + [Header([input], "")];
        state := HeaderName;
        return Indeterminate;
      case HeaderLws =>
        if input == '\r' {
          state := Newline2;
          return Indeterminate;
        } else if input == ' ' || input == '\t' {
          return Indeterminate;
        } else if IsCtl(input) {
          return Bad;
        }
        state := HeaderValue;
        ExtendLastHeader(req, "", [input]);
        return Indeterminate;
      case HeaderName =>
        if input == ':' {
          state := SpaceBeforeValue;
          return Indeterminate;
        } else if !IsChar(input) || IsCtl(input) || IsTspecial(input) {
          return Bad;
        }
        ExtendLastHeader(req, [input], "");
        return Indeterminate;
      case SpaceBeforeValue =>
        if input != ' ' {
          return Bad;
        }
        state := HeaderValue;
        return Indeterminate;
      case HeaderValue =>
        if input == '\r' {
          state := Newline2;
          return Indeterminate;
        } else if IsCtl(input) {
          return Bad;
        }
        ExtendLastHeader(req, "", [input]);
        return Indeterminate;
      case Newline2 =>
        if input != '\n' {
          return Bad;
        }
        state := HeaderLineStart;
        return Indeterminate;
      case Newline3 =>
        return if input == '\n' then Good else Bad;
    }

    /** One byte. A rejecting or accepting byte changes neither state nor request. */
    method Consume(req: HttpRequest, input: char) returns (result: Result)
      requires Machine(req).Safe()
      modifies this, req
      ensures Step(old(Machine(req)), input) == Outcome(result, Machine(req), 1)
      ensures result != Indeterminate ==> Machine(req) == old(Machine(req))
      ensures Machine(req).Safe()
    {
      if InHeaderLines(state) {
        result := ConsumeHeader(req, input);
      } else {
        result := ConsumeLine(req, input);
      }
    }

    /** Bytes up to and including the first one that decides; `consumed` is how
        far the iterator has advanced. */
    method Parse(req: HttpRequest, input: seq<char>) returns (result: Result, consumed: nat)
      requires Machine(req).Safe()
      modifies this, req
      ensures Run(old(Machine(req)), input) == Outcome(result, Machine(req), consumed)
      ensures Machine(req).Safe()
    {
      consumed := 0;
      while consumed < |input|
        invariant consumed <= |input|
        invariant Machine(req).Safe()
        invariant Run(old(Machine(req)), input) == Shift(consumed, Run(Machine(req), input[consumed..]))
      {
        ghost var before := Machine(req);
        ghost var rest := input[consumed..];
        result := Consume(req, input[consumed]);
        consumed := consumed + 1;
        assert rest[1..] == input[consumed..];
        if result == Good || result == Bad {
          return;
        }
      }
      result := Indeterminate;
    }
  }
}
