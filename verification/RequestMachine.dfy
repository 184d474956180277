/** The request parser as a state machine over values (src/lib/request_parser.cpp).
    The machine is split into its control table, `Transition`, and the updates it
    makes to the request, `Apply`; the class in RequestParser.dfy is the same
    machine written in the shape of the source. */
module RequestMachine {
  import Text

  datatype Header = Header(name: string, value: string)

  datatype Request = Request(verb: string, uri: string,
                             versionMajor: int, versionMinor: int,
                             headers: seq<Header>)

  datatype State =
    | MethodStart | Method | Uri
    | VersionH | VersionT1 | VersionT2 | VersionP | VersionSlash
    | MajorStart | Major | MinorStart | Minor
    | Newline1 | HeaderLineStart | HeaderLws | HeaderName
    | SpaceBeforeValue | HeaderValue | Newline2 | Newline3

  datatype Result = Good | Bad | Indeterminate

  // Character classes (`is_digit` is `Text.IsDigit`)

  predicate IsChar(c: char) {
    c as int <= 127
  }

  predicate IsCtl(c: char) {
    c as int <= 31 || c as int == 127
  }

  predicate IsTspecial(c: char) {
    match c
    case '(' => true   case ')' => true   case '<' => true   case '>' => true   case '@' => true
    case ',' => true   case ';' => true   case ':' => true   case '\\' => true  case '\"' => true
    case '/' => true   case '[' => true   case ']' => true   case '?' => true   case '=' => true
    case '{' => true   case '}' => true   case ' ' => true   case '\t' => true
    case _ => false
  }

  predicate IsTokenChar(c: char) {
    IsChar(c) && !IsCtl(c) && !IsTspecial(c)
  }

  // Control

  /** What a byte does to the request under construction. */
  datatype Action =
    | NoAction | MethodChar | UriChar | ClearVersion | MajorDigit | MinorDigit
    | NewHeader | NameChar | ValueChar | NewFold | FoldSpace

  datatype Move = Reject | Accept | Go(next: State, action: Action)

  function Expect(c: char, wanted: char, next: State): Move {
    if c == wanted then Go(next, NoAction) else Reject
  }

  function TokenMove(c: char, next: State, action: Action): Move {
    if IsTokenChar(c) then Go(next, action) else Reject
  }

  function DigitMove(c: char, next: State, action: Action): Move {
    if Text.IsDigit(c) then Go(next, action) else Reject
  }

  function TextMove(c: char, next: State, action: Action): Move {
    if IsCtl(c) then Reject else Go(next, action)
  }

  predicate IsBlank(c: char) {
    c == ' ' || c == '\t'
  }

  function Transition(state: State, hasHeaders: bool, c: char): Move {
    match state
    case MethodStart => TokenMove(c, Method, MethodChar)
    case Method => if c == ' ' then Go(Uri, NoAction) else TokenMove(c, Method, MethodChar)
    case Uri => if c == ' ' then Go(VersionH, NoAction) else TextMove(c, Uri, UriChar)
    case VersionH => Expect(c, 'H', VersionT1)
    case VersionT1 => Expect(c, 'T', VersionT2)
    case VersionT2 => Expect(c, 'T', VersionP)
    case VersionP => Expect(c, 'P', VersionSlash)
    case VersionSlash => if c == '/' then Go(MajorStart, ClearVersion) else Reject
    case MajorStart => DigitMove(c, Major, MajorDigit)
    case Major => if c == '.' then Go(MinorStart, NoAction) else DigitMove(c, Major, MajorDigit)
    case MinorStart => DigitMove(c, Minor, MinorDigit)
    case Minor => if c == '\r' then Go(Newline1, NoAction) else DigitMove(c, Minor, MinorDigit)
    case Newline1 => Expect(c, '\n', HeaderLineStart)
    case HeaderLineStart =>
      if c == '\r' then Go(Newline3, NoAction)
      else if hasHeaders && IsBlank(c) then Go(HeaderLws, NewFold)
      else TokenMove(c, HeaderName, NewHeader)
    case HeaderLws =>
      if c == '\r' then Go(Newline2, NoAction)
      else if IsBlank(c) then Go(HeaderLws, FoldSpace)
      else TextMove(c, HeaderValue, ValueChar)
    case HeaderName => if c == ':' then Go(SpaceBeforeValue, NoAction) else TokenMove(c, HeaderName, NameChar)
    case SpaceBeforeValue => Expect(c, ' ', HeaderValue)
    case HeaderValue => if c == '\r' then Go(Newline2, NoAction) else TextMove(c, HeaderValue, ValueChar)
    case Newline2 => Expect(c, '\n', HeaderLineStart)
    case Newline3 => if c == '\n' then Accept else Reject
  }

  // Data

  /** States whose next byte may be appended to `headers.back()`. */
  predicate InHeader(state: State) {
    state in {HeaderLws, HeaderName, SpaceBeforeValue, HeaderValue, Newline2}
  }

  predicate TouchesLastHeader(action: Action) {
    action == NameChar || action == ValueChar
  }

  function ExtendLast(headers: seq<Header>, name: string, value: string): seq<Header>
    requires headers != []
  {
    var last := headers[|headers| - 1];
    headers[..|headers| - 1] + [Header(last.name + name, last.value + value)]
  }

  function Apply(action: Action, req: Request, c: char): Request
    requires TouchesLastHeader(action) ==> req.headers != []
  {
    match action
    case MethodChar => req.(verb := req.verb + [c])
    case UriChar => req.(uri := req.uri + [c])
    case ClearVersion => req.(versionMajor := 0, versionMinor := 0)
    case MajorDigit => req.(versionMajor := req.versionMajor * 10 + c as int - '0' as int)
    case MinorDigit => req.(versionMinor := req.versionMinor * 10 + c as int - '0' as int)
    case NewHeader => req.(headers := req.headers + [Header([c], "")])
    case NameChar => req.(headers := ExtendLast(req.headers, [c], ""))
    case ValueChar => req.(headers := ExtendLast(req.headers, "", [c]))
    case NoAction => req
    case NewFold => req
    case FoldSpace => req
  }

  datatype Machine = Machine(state: State, req: Request) {

    /** `headers.back()` is defined wherever the control may reach for it. */
    predicate Safe() {
      InHeader(state) ==> req.headers != []
    }
  }

  datatype Outcome = Outcome(result: Result, machine: Machine, consumed: nat) {
    predicate Decided() {
      result != Indeterminate
    }
  }

  /** `consume`: one byte. A deciding byte leaves state and request alone. */
  function Step(m: Machine, c: char): (o: Outcome)
    requires m.Safe()
    ensures o.machine.Safe()
  {
    match Transition(m.state, m.req.headers != [], c)
    case Reject => Outcome(Bad, m, 1)
    case Accept => Outcome(Good, m, 1)
    case Go(next, action) => Outcome(Indeterminate, Machine(next, Apply(action, m.req, c)), 1)
  }

  /** `parse`: bytes up to and including the first one that decides. */
  function Run(m: Machine, input: string): (o: Outcome)
    requires m.Safe()
    ensures o.machine.Safe() && o.consumed <= |input|
    ensures !o.Decided() ==> o.consumed == |input|
    ensures o.Decided() ==> o.consumed > 0
    decreases input
  {
    if input == "" then Outcome(Indeterminate, m, 0)
    else
      var first := Step(m, input[0]);
      if first.Decided() then first
      else Shift(1, Run(first.machine, input[1..]))
  }

  function Shift(n: nat, o: Outcome): Outcome {
    o.(consumed := n + o.consumed)
  }

  /** A request value no byte has been stored in. The two version fields of a
      default-initialised `http_request` hold arbitrary numbers. */
  predicate Blank(req: Request) {
    req.verb == "" && req.uri == "" && req.headers == []
  }

  predicate Fresh(m: Machine) {
    m.state == MethodStart && Blank(m.req)
  }

  // Chunking

  /** Parsing a + b is parsing a and then, only if undecided, parsing b. */
  lemma {:induction false} RunAppend(m: Machine, a: string, b: string)
    requires m.Safe()
    ensures Run(m, a + b) ==
            var first := Run(m, a);
            if first.Decided() then first
            else Shift(|a|, Run(first.machine, b))
    decreases a
  {
    if a == "" {
      assert a + b == b;
    } else {
      assert (a + b)[1..] == a[1..] + b;
      var first := Step(m, a[0]);
      if !first.Decided() {
        RunAppend(first.machine, a[1..], b);
      }
    }
  }

  lemma RunOne(m: Machine, c: char)
    requires m.Safe()
    ensures Run(m, [c]) == Step(m, c)
  {
    assert [c][1..] == "";
  }

  /** One more byte at the end. */
  lemma RunSnoc(m: Machine, w: string, c: char)
    requires m.Safe()
    ensures var front := Run(m, w);
            Run(m, w + [c]) == if front.Decided() then front
                               else Shift(|w|, Step(front.machine, c))
  {
    RunAppend(m, w, [c]);
    if !Run(m, w).Decided() {
      RunOne(Run(m, w).machine, c);
    }
  }

  /** Feeding successive reads to one parser, stopping at the first decision. */
  function RunChunks(m: Machine, chunks: seq<string>): (o: Outcome)
    requires m.Safe()
    ensures o.machine.Safe()
  {
    if chunks == [] then Outcome(Indeterminate, m, 0)
    else
      var front := RunChunks(m, chunks[..|chunks| - 1]);
      if front.Decided() then front
      else Shift(front.consumed, Run(front.machine, chunks[|chunks| - 1]))
  }

  /** How the stream is cut into reads cannot be observed. */
  lemma {:induction false} ChunkingLaw(m: Machine, chunks: seq<string>)
    requires m.Safe()
    ensures RunChunks(m, chunks) == Run(m, Text.Flatten(chunks))
  {
    if chunks != [] {
      var n := |chunks| - 1;
      ChunkingLaw(m, chunks[..n]);
      RunAppend(m, Text.Flatten(chunks[..n]), chunks[n]);
    }
  }

  /** The decision falls on one byte: the consumed prefix decides in the same
      way, no shorter prefix decides, and later bytes are irrelevant. */
  lemma {:induction false} ShortestDecision(m: Machine, w: string, k: nat)
    requires m.Safe() && k <= |w|
    ensures k < Run(m, w).consumed ==> !Run(m, w[..k]).Decided()
    ensures Run(m, w).Decided() && k >= Run(m, w).consumed ==> Run(m, w[..k]) == Run(m, w)
  {
    assert w == w[..k] + w[k..];
    RunAppend(m, w[..k], w[k..]);
  }
}
