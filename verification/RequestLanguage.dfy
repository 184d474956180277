/** The main theorems about the request parser: it accepts exactly the renderings
    of valid trees, each in one way, and returns the request the tree denotes. */
module RequestLanguage {
  import opened Text
  import opened RequestMachine
  import opened RequestGrammar

  // The byte-by-byte machine follows the tree machine

  function FoldTexts(folds: List<Fold>): string {
    match folds
    case Nil => ""
    case Snoc(front, d) => FoldTexts(front) + d.text
  }

  /** Folded text is appended with no separator. */
  function FieldHeader(f: Field): Header {
    Header(f.name, f.value + FoldTexts(f.folds))
  }

  function FieldHeaders(fields: List<Field>): (headers: seq<Header>) {
    match fields
    case Nil => []
    case Snoc(front, f) => FieldHeaders(front) + [FieldHeader(f)]
  }

  /** The request a tree denotes. */
  function Project(t: Tree): Request {
    Request(t.verb, t.uri, DecimalValue(t.major), DecimalValue(t.minor), FieldHeaders(t.fields))
  }

  predicate BeforeVersion(state: State) {
    state in {MethodStart, Method, Uri, VersionH, VersionT1, VersionT2, VersionP, VersionSlash}
  }

  predicate SameVersion(t: Tree, req: Request) {
    req.versionMajor == DecimalValue(t.major) && req.versionMinor == DecimalValue(t.minor)
  }

  /** `req` is the request built from `t`; before the '/' of the version its two
      number fields still hold whatever they held at the start. */
  predicate Denotes(state: State, t: Tree, req: Request) {
    && req.verb == t.verb && req.uri == t.uri && req.headers == FieldHeaders(t.fields)
    && (!BeforeVersion(state) ==> SameVersion(t, req))
  }

  lemma HeaderGrowValue(f: Field, c: char)
    ensures FieldHeader(GrowValue(f, c)) == Header(f.name + "", FieldHeader(f).value + [c])
  {
    assert f.name + "" == f.name;
    match f.folds
    case Nil =>
    case Snoc(front, d) =>
      Assoc(FoldTexts(front), d.text, [c]);
      Assoc(f.value, FoldTexts(f.folds), [c]);
  }

  /** One tree action is one request action, on the headers ... */
  lemma GrowDenotesHeaders(action: Action, t: Tree, req: Request, c: char)
    requires CanGrow(action, t) && req.headers == FieldHeaders(t.fields)
    ensures Apply(action, req, c).headers == FieldHeaders(Grow(action, t, c).fields)
  {
    match action
    case NewHeader => assert FieldHeader(Field([c], "", Nil)) == Header([c], "");
    case NameChar =>
      var value := FieldHeader(t.fields.last).value;
      assert value + "" == value;
    case ValueChar => HeaderGrowValue(t.fields.last, c);
    case NewFold =>
      var texts := FoldTexts(t.fields.last.folds);
      assert texts + "" == texts;
    case FoldSpace =>
      var text := t.fields.last.folds.last.text;
      assert text + "" == text;
    case _ =>
  }

  lemma DigitAppended(s: string, c: char)
    ensures DecimalValue(s + [c]) == DecimalValue(s) * 10 + c as int - '0' as int
  {
    assert (s + [c])[..|s|] == s;
  }

  /** ... and on the request line. */
  lemma GrowDenotesLine(action: Action, t: Tree, req: Request, c: char)
    requires CanGrow(action, t) && (TouchesLastHeader(action) ==> req.headers != [])
    requires req.verb == t.verb && req.uri == t.uri
    ensures var u, r := Grow(action, t, c), Apply(action, req, c);
            && r.verb == u.verb && r.uri == u.uri
            && (action != ClearVersion && SameVersion(t, req) ==> SameVersion(u, r))
            && (action == ClearVersion && t.major == "" && t.minor == "" ==> SameVersion(u, r))
  {
    match action
    case MajorDigit => DigitAppended(t.major, c);
    case MinorDigit => DigitAppended(t.minor, c);
    case _ =>
  }

  lemma VersionClearedAtSlash(state: State, hasHeaders: bool, c: char)
    ensures match Transition(state, hasHeaders, c)
            case Go(next, action) =>
              && (action == ClearVersion <==> state == VersionSlash)
              && (BeforeVersion(state) && !BeforeVersion(next) ==> state == VersionSlash)
            case _ => true
  {
  }

  predicate Follows(p: Progress, o: Outcome) {
    match p
    case Dead => o.result == Bad
    case Done(t) => o.result == Good && Denotes(Newline3, t, o.machine.req)
    case At(state, t) => o.result == Indeterminate && o.machine.state == state && Denotes(state, t, o.machine.req)
  }

  lemma StepFollows(state: State, t: Tree, req: Request, c: char)
    requires Shape(state, t) && Denotes(state, t, req)
    ensures Machine(state, req).Safe()
    ensures Follows(TreeStep(state, t, c), Step(Machine(state, req), c))
  {
    match Transition(state, t.fields != Nil, c)
    case Go(next, action) =>
      GrowDenotesHeaders(action, t, req, c);
      GrowDenotesLine(action, t, req, c);
      VersionClearedAtSlash(state, t.fields != Nil, c);
    case _ =>
  }

  lemma FollowsSnoc(m: Machine, v: string, state: State, t: Tree, c: char)
    requires m.Safe() && Shape(state, t) && Follows(At(state, t), Run(m, v))
    ensures Follows(TreeStep(state, t, c), Run(m, v + [c])) && Run(m, v + [c]).consumed == |v| + 1
  {
    var o := Run(m, v);
    StepFollows(state, t, o.machine.req, c);
    RunSnoc(m, v, c);
    assert Run(m, v + [c]) == Shift(|v|, Step(Machine(state, o.machine.req), c));
  }

  lemma {:induction false} RunFollows(m: Machine, w: string)
    requires Fresh(m)
    ensures var o, p := Run(m, w), TreeRun(w);
            if p.Dead? then o.result == Bad || (o.result == Good && o.consumed < |w|)
            else Follows(p, o) && o.consumed == |w|
    decreases w
  {
    if w != "" {
      FrontLast(w);
      RunFollows(m, Front(w));
      RunSnoc(m, Front(w), Last(w));
      var p := TreeRun(Front(w));
      if p.At? {
        FollowsSnoc(m, Front(w), p.state, p.tree, Last(w));
      }
    }
  }

  // Soundness, completeness, uniqueness

  /** `parse` answers good on the last byte of `w`. */
  predicate Accepts(m: Machine, w: string)
    requires m.Safe()
  {
    Run(m, w).result == Good && Run(m, w).consumed == |w|
  }

  /** Soundness, with the tree as witness. */
  lemma AcceptedTree(m: Machine, w: string) returns (t: Tree)
    requires Fresh(m) && Accepts(m, w)
    ensures ValidTree(t) && Render(t) == w
    ensures Run(m, w).machine.req == Project(t)
  {
    RunFollows(m, w);
    t := TreeRun(w).tree;
  }

  /** Completeness: the rendering of a valid tree is accepted, to the last byte,
      and yields the request the tree denotes. */
  lemma RenderAccepted(m: Machine, t: Tree)
    requires Fresh(m) && ValidTree(t)
    ensures Accepts(m, Render(t))
    ensures Run(m, Render(t)).machine.req == Project(t)
  {
    RunFollows(m, Render(t));
    RunOnRender(t);
  }

  /** The accepted language. */
  lemma Language(m: Machine, w: string)
    requires Fresh(m)
    ensures Accepts(m, w) <==> exists t :: ValidTree(t) && Render(t) == w
  {
    if Accepts(m, w) {
      var t := AcceptedTree(m, w);
    }
    forall t | ValidTree(t) && Render(t) == w ensures Accepts(m, w) {
      RenderAccepted(m, t);
    }
  }

  /** The grammar is unambiguous. */
  lemma Unambiguous(t: Tree, u: Tree)
    requires ValidTree(t) && ValidTree(u) && Render(t) == Render(u)
    ensures t == u
  {
    RunOnRender(t);
    RunOnRender(u);
  }

  /** The undecided inputs are exactly the renderings of partial trees. */
  lemma UndecidedInputs(m: Machine, w: string)
    requires Fresh(m)
    ensures Run(m, w).result == Indeterminate <==>
            exists state, t :: Shape(state, t) && Partial(state, t) == w
  {
    RunFollows(m, w);
    if Run(m, w).result == Indeterminate {
      var p := TreeRun(w);
      assert Shape(p.state, p.tree) && Partial(p.state, p.tree) == w;
    }
    forall state, t | Shape(state, t) && Partial(state, t) == w
      ensures Run(m, w).result == Indeterminate
    {
      RunOnPartial(state, t);
    }
  }

  // No dead ends

  /** One byte on the way to a complete request. */
  function Onwards(state: State): char {
    match state
    case MethodStart => 'A'
    case Method => ' '
    case Uri => ' '
    case VersionH => 'H'
    case VersionT1 => 'T'
    case VersionT2 => 'T'
    case VersionP => 'P'
    case VersionSlash => '/'
    case MajorStart => '1'
    case Major => '.'
    case MinorStart => '0'
    case Minor => '\r'
    case Newline1 => '\n'
    case HeaderLineStart => '\r'
    case HeaderLws => '\r'
    case HeaderName => ':'
    case SpaceBeforeValue => ' '
    case HeaderValue => '\r'
    case Newline2 => '\n'
    case Newline3 => '\n'
  }

  function Distance(state: State): nat {
    match state
    case MethodStart => 15
    case Method => 14
    case Uri => 13
    case VersionH => 12
    case VersionT1 => 11
    case VersionT2 => 10
    case VersionP => 9
    case VersionSlash => 8
    case MajorStart => 7
    case Major => 6
    case MinorStart => 5
    case Minor => 4
    case Newline1 => 3
    case HeaderLineStart => 2
    case HeaderLws => 4
    case HeaderName => 6
    case SpaceBeforeValue => 5
    case HeaderValue => 4
    case Newline2 => 3
    case Newline3 => 1
  }

  lemma OnwardsMoves(m: Machine)
    requires m.Safe()
    ensures var o := Step(m, Onwards(m.state));
            if m.state == Newline3 then o.result == Good
            else o.result == Indeterminate && Distance(o.machine.state) + 1 == Distance(m.state)
  {
    assert IsTokenChar('A');
  }

  /** A parser that asks for more can be satisfied by at most 15 more bytes: every
      undecided input is a proper prefix of an accepted one. */
  lemma {:induction false} NoDeadEnd(m: Machine) returns (rest: string)
    requires m.Safe()
    ensures |rest| == Distance(m.state) && 1 <= |rest| <= 15
    ensures Accepts(m, rest)
    decreases Distance(m.state)
  {
    var c := Onwards(m.state);
    OnwardsMoves(m);
    if m.state == Newline3 {
      rest := [c];
      RunOne(m, c);
    } else {
      var tail := NoDeadEnd(Step(m, c).machine);
      rest := [c] + tail;
      assert rest[1..] == tail;
    }
  }

  /** Bad input is reported on the first byte that makes it hopeless: the answer is
      bad exactly when no part of the input was a request and nothing that could
      follow would make it one. */
  lemma EarliestRejection(m: Machine, w: string)
    requires m.Safe()
    ensures Run(m, w).result == Bad <==>
            (forall k | 0 <= k <= |w| :: !Accepts(m, w[..k])) && (forall rest :: !Accepts(m, w + rest))
  {
    match Run(m, w).result
    case Bad =>
      forall k | 0 <= k <= |w| ensures !Accepts(m, w[..k]) {
        ShortestDecision(m, w, k);
      }
      forall rest ensures !Accepts(m, w + rest) {
        RunAppend(m, w, rest);
      }
    case Good =>
      ShortestDecision(m, w, Run(m, w).consumed);
      assert Accepts(m, w[..Run(m, w).consumed]);
    case Indeterminate =>
      var rest := NoDeadEnd(Run(m, w).machine);
      RunAppend(m, w, rest);
      assert Accepts(m, w + rest);
  }

  // Bytes by number

  predicate TokenByte(n: int) {
    n == 33 || 35 <= n <= 39 || n == 42 || n == 43 || n == 45 || n == 46 || 48 <= n <= 57
    || 65 <= n <= 90 || 94 <= n <= 122 || n == 124 || n == 126
  }

  predicate TargetByte(n: int) {
    33 <= n <= 126 || 128 <= n
  }

  predicate TextByte(n: int) {
    32 <= n <= 126 || 128 <= n
  }

  predicate BlankByte(n: int) {
    n == 9 || n == 32
  }

  predicate DigitByte(n: int) {
    48 <= n <= 57
  }

  lemma ByteClasses(c: char)
    ensures IsTokenChar(c) <==> TokenByte(c as int)
    ensures !IsCtl(c) && c != ' ' <==> TargetByte(c as int)
    ensures !IsCtl(c) <==> TextByte(c as int)
    ensures IsBlank(c) <==> BlankByte(c as int)
    ensures IsDigit(c) <==> DigitByte(c as int)
  {
  }

  predicate SpeltFold(f: Fold) {
    && f.blanks != "" && (forall i | 0 <= i < |f.blanks| :: BlankByte(f.blanks[i] as int))
    && (forall i | 0 <= i < |f.text| :: TextByte(f.text[i] as int)) && (f.text != "" ==> f.text[0] as int != 32)
  }

  predicate SpeltFolds(folds: List<Fold>) {
    match folds
    case Nil => true
    case Snoc(front, f) => SpeltFolds(front) && SpeltFold(f)
  }

  predicate SpeltField(f: Field) {
    && f.name != "" && (forall i | 0 <= i < |f.name| :: TokenByte(f.name[i] as int))
    && (forall i | 0 <= i < |f.value| :: TextByte(f.value[i] as int)) && SpeltFolds(f.folds)
  }

  predicate SpeltFields(fields: List<Field>) {
    match fields
    case Nil => true
    case Snoc(front, f) => SpeltFields(front) && SpeltField(f)
  }

  predicate SpeltLine(t: Tree) {
    && t.verb != "" && (forall i | 0 <= i < |t.verb| :: TokenByte(t.verb[i] as int))
    && (forall i | 0 <= i < |t.uri| :: TargetByte(t.uri[i] as int))
    && t.major != "" && (forall i | 0 <= i < |t.major| :: DigitByte(t.major[i] as int))
    && t.minor != "" && (forall i | 0 <= i < |t.minor| :: DigitByte(t.minor[i] as int))
  }

  lemma {:induction false} FoldsSpelt(folds: List<Fold>)
    ensures ValidFolds(folds) <==> SpeltFolds(folds)
  {
    if folds != Nil {
      FoldsSpelt(folds.front);
      forall c ensures IsBlank(c) <==> BlankByte(c as int) {
        ByteClasses(c);
      }
      forall c ensures !IsCtl(c) <==> TextByte(c as int) {
        ByteClasses(c);
      }
    }
  }

  lemma {:induction false} FieldsSpelt(fields: List<Field>)
    ensures ValidFields(fields) <==> SpeltFields(fields)
  {
    if fields != Nil {
      FieldsSpelt(fields.front);
      FoldsSpelt(fields.last.folds);
      forall c ensures IsTokenChar(c) <==> TokenByte(c as int) {
        ByteClasses(c);
      }
      forall c ensures !IsCtl(c) <==> TextByte(c as int) {
        ByteClasses(c);
      }
    }
  }

  lemma LineSpelt(t: Tree)
    ensures ValidLine(t) <==> SpeltLine(t)
  {
    forall c ensures IsTokenChar(c) <==> TokenByte(c as int) {
      ByteClasses(c);
    }
    forall c ensures !IsCtl(c) && c != ' ' <==> TargetByte(c as int) {
      ByteClasses(c);
    }
    forall c ensures IsDigit(c) <==> DigitByte(c as int) {
      ByteClasses(c);
    }
  }

  /** The accepted language with every class of bytes given by their numbers. */
  lemma LanguageByNumbers(m: Machine, w: string)
    requires Fresh(m)
    ensures Accepts(m, w) <==> exists t :: SpeltLine(t) && SpeltFields(t.fields) && Render(t) == w
  {
    Language(m, w);
    forall t ensures ValidTree(t) <==> SpeltLine(t) && SpeltFields(t.fields) {
      LineSpelt(t);
      FieldsSpelt(t.fields);
    }
  }

  /** The bytes, by number, that may come next in a control state. */
  predicate Welcome(state: State, hasHeaders: bool, n: int) {
    match state
    case MethodStart => TokenByte(n)
    case Method => TokenByte(n) || n == 32
    case Uri => TargetByte(n) || n == 32
    case VersionH => n == 72
    case VersionT1 => n == 84
    case VersionT2 => n == 84
    case VersionP => n == 80
    case VersionSlash => n == 47
    case MajorStart => DigitByte(n)
    case Major => DigitByte(n) || n == 46
    case MinorStart => DigitByte(n)
    case Minor => DigitByte(n) || n == 13
    case Newline1 => n == 10
    case HeaderLineStart => TokenByte(n) || n == 13 || (hasHeaders && BlankByte(n))
    case HeaderLws => TextByte(n) || n == 9 || n == 13
    case HeaderName => TokenByte(n) || n == 58
    case SpaceBeforeValue => n == 32
    case HeaderValue => TextByte(n) || n == 13
    case Newline2 => n == 10
    case Newline3 => n == 10
  }

  lemma RefusedByte(m: Machine, c: char)
    requires m.Safe()
    ensures Step(m, c).result == Bad <==> !Welcome(m.state, m.req.headers != [], c as int)
  {
    ByteClasses(c);
  }

  /** In tokens, targets, values and everywhere else: which bytes are refused. */
  lemma RefusedBytes(m: Machine, w: string, c: char)
    requires m.Safe() && !Run(m, w).Decided()
    ensures var p := Run(m, w).machine;
            Run(m, w + [c]).result == Bad <==> !Welcome(p.state, p.req.headers != [], c as int)
  {
    RunSnoc(m, w, c);
    RefusedByte(Run(m, w).machine, c);
  }

  // Accepted requests

  predicate ValidHeader(h: Header) {
    IsToken(h.name) && IsText(h.value)
  }

  predicate ValidRequest(req: Request) {
    && IsToken(req.verb) && IsUri(req.uri)
    && req.versionMajor >= 0 && req.versionMinor >= 0
    && ValidHeaders(req.headers)
  }

  lemma {:induction false} FoldTextsAreText(folds: List<Fold>)
    requires ValidFolds(folds)
    ensures IsText(FoldTexts(folds))
  {
    if folds != Nil {
      FoldTextsAreText(folds.front);
    }
  }

  predicate ValidHeaders(headers: seq<Header>) {
    forall i | 0 <= i < |headers| :: ValidHeader(headers[i])
  }

  lemma {:induction false} FieldHeadersValid(fields: List<Field>)
    requires ValidFields(fields)
    ensures ValidHeaders(FieldHeaders(fields))
  {
    if fields != Nil {
      FieldHeadersValid(fields.front);
      FoldTextsAreText(fields.last.folds);
    }
  }

  /** At every point of a run the headers stored so far are valid: names are
      non-empty tokens, values free of control characters. */
  lemma HeadersAlwaysValid(m: Machine, w: string)
    requires Fresh(m) && !Run(m, w).Decided()
    ensures ValidHeaders(Run(m, w).machine.req.headers)
  {
    RunFollows(m, w);
    FieldHeadersValid(TreeRun(w).tree.fields);
  }

  lemma ProjectValid(t: Tree)
    requires ValidTree(t)
    ensures ValidRequest(Project(t))
  {
    DecimalValueNonNegative(t.major);
    DecimalValueNonNegative(t.minor);
    FieldHeadersValid(t.fields);
  }

  /** Request line, one "name: value" line per header, blank line. */
  function Print(req: Request): string
    requires ValidRequest(req)
  {
    req.verb + " " + req.uri + " HTTP/" + Decimal(req.versionMajor) + "." + Decimal(req.versionMinor) + "\r\n"
    + PrintHeaders(req.headers) + "\r\n"
  }

  function PrintHeaders(headers: seq<Header>): string {
    if headers == [] then ""
    else
      var h := headers[|headers| - 1];
      PrintHeaders(headers[..|headers| - 1]) + h.name + ": " + h.value + "\r\n"
  }

  /** The tree of the printed form: no folds, no leading zeros. */
  function PlainTree(req: Request): (t: Tree)
    requires ValidRequest(req)
    ensures ValidTree(t)
  {
    Tree(req.verb, req.uri, Decimal(req.versionMajor), Decimal(req.versionMinor), PlainFields(req.headers))
  }

  function PlainFields(headers: seq<Header>): (fields: List<Field>)
    ensures ValidHeaders(headers) ==> ValidFields(fields)
  {
    if headers == [] then Nil
    else
      var h := headers[|headers| - 1];
      Snoc(PlainFields(headers[..|headers| - 1]), Field(h.name, h.value, Nil))
  }

  lemma {:induction false} PlainFieldsDenote(headers: seq<Header>)
    ensures RenderFields(PlainFields(headers)) == PrintHeaders(headers)
    ensures FieldHeaders(PlainFields(headers)) == headers
  {
    if headers != [] {
      var n := |headers| - 1;
      var h := headers[n];
      PlainFieldsDenote(headers[..n]);
      assert h.value + "" == h.value;
      Assoc(PrintHeaders(headers[..n]), h.name, ": ");
      Assoc(PrintHeaders(headers[..n]), h.name + ": ", h.value);
      assert h.name + ": " + h.value + "" == h.name + ": " + h.value;
    }
  }

  lemma PlainTreeDenotes(req: Request)
    requires ValidRequest(req)
    ensures Project(PlainTree(req)) == req
    ensures Render(PlainTree(req)) == Print(req)
  {
    DecimalRoundTrip(req.versionMajor);
    DecimalRoundTrip(req.versionMinor);
    PlainFieldsDenote(req.headers);
  }

  /** Printing and parsing gives the request back. */
  lemma PrintParse(m: Machine, req: Request)
    requires Fresh(m) && ValidRequest(req)
    ensures Accepts(m, Print(req))
    ensures Run(m, Print(req)).machine.req == req
  {
    PlainTreeDenotes(req);
    RenderAccepted(m, PlainTree(req));
  }

  lemma FoldedField(name: string, first: string, blanks: string, second: string) returns (f: Field)
    requires IsToken(name) && IsText(first) && ValidFold(Fold(blanks, second))
    ensures ValidField(f) && RenderOpen(f) == name + ": " + first + ("\r\n" + blanks + second)
    ensures FieldHeader(f) == Header(name, first + second)
  {
    var d := Fold(blanks, second);
    var folds := Snoc(Nil, d);
    f := Field(name, first, folds);
    assert ValidFolds(Nil);
    assert RenderFolds(folds) == "" + "\r\n" + blanks + second == "\r\n" + blanks + second;
    assert FoldTexts(folds) == "" + second == second;
  }

  lemma OneField(line: Tree, f: Field)
    requires ValidLine(line) && ValidField(f)
    ensures var t := line.(fields := Snoc(Nil, f));
            && ValidTree(t) && Render(t) == RenderLine(line) + (RenderOpen(f) + "\r\n") + "\r\n"
            && Project(t).headers == [FieldHeader(f)]
  {
    var fields := Snoc(Nil, f);
    assert ValidFields(Nil);
    assert RenderFields(fields) == "" + RenderOpen(f) + "\r\n" == RenderOpen(f) + "\r\n";
    assert FieldHeaders(fields) == [] + [FieldHeader(f)] == [FieldHeader(f)];
  }

  /** The second line of a header is joined to the first with nothing in between, its
      leading blanks dropped. */
  lemma FoldedHeader(m: Machine, line: Tree, name: string, first: string, blanks: string, second: string)
    requires Fresh(m) && ValidLine(line) && IsToken(name) && IsText(first) && ValidFold(Fold(blanks, second))
    ensures var w := RenderLine(line) + (name + ": " + first + ("\r\n" + blanks + second) + "\r\n") + "\r\n";
            Accepts(m, w) && Run(m, w).machine.req.headers == [Header(name, first + second)]
  {
    var f := FoldedField(name, first, blanks, second);
    OneField(line, f);
    RenderAccepted(m, line.(fields := Snoc(Nil, f)));
  }

  /** Whatever was accepted, folded or with leading zeros, is a valid request
      whose printed form is an accepted normal form of the input. */
  lemma NormalForm(m: Machine, w: string)
    requires Fresh(m) && Accepts(m, w)
    ensures var req := Run(m, w).machine.req;
            ValidRequest(req) && Accepts(m, Print(req)) && Run(m, Print(req)).machine.req == req
  {
    var t := AcceptedTree(m, w);
    ProjectValid(t);
    PrintParse(m, Project(t));
  }
}
