/** Consequences of the request language for whoever holds the byte stream: where
    a request ends, when its version numbers fit an `int`, and what a parser that
    was only `reset` makes of a request object that was not cleared. */
module RequestFraming {
  import Text
  import opened RequestMachine
  import opened RequestGrammar
  import opened RequestLanguage

  // Where a request ends

  /** LF only after CR, and CR only before LF or as the last byte. */
  predicate PairedLineEnds(w: string) {
    && (forall i | 0 <= i < |w| && w[i] == '\n' :: i > 0 && w[i - 1] == '\r')
    && (forall i | 0 <= i < |w| - 1 && w[i] == '\r' :: w[i + 1] == '\n')
  }

  predicate BlankLineAt(w: string, i: int) {
    0 <= i && i + 4 <= |w| && w[i] == '\r' && w[i + 1] == '\n' && w[i + 2] == '\r' && w[i + 3] == '\n'
  }

  ghost predicate NoBlankLine(w: string) {
    forall i :: !BlankLineAt(w, i)
  }

  /** How the control state reflects the end of the input read so far. */
  ghost predicate TracksLineEnds(state: State, w: string) {
    && PairedLineEnds(w) && NoBlankLine(w)
    && (state in {Newline1, Newline2, Newline3} <==> w != "" && w[|w| - 1] == '\r')
    && (state == HeaderLineStart <==> w != "" && w[|w| - 1] == '\n')
    && (state == Newline3 <==> |w| >= 2 && w[|w| - 1] == '\r' && w[|w| - 2] == '\n')
  }

  lemma StepTracksLineEnds(m: Machine, w: string, c: char)
    requires m.Safe() && TracksLineEnds(m.state, w) && !Step(m, c).Decided()
    ensures TracksLineEnds(Step(m, c).machine.state, w + [c])
  {
    var v := w + [c];
    forall i ensures !BlankLineAt(v, i) {
      assert !BlankLineAt(w, i);
    }
  }

  lemma {:induction false} RunTracksLineEnds(m: Machine, w: string)
    requires Fresh(m) && !Run(m, w).Decided()
    ensures TracksLineEnds(Run(m, w).machine.state, w)
    decreases |w|
  {
    if w != "" {
      FrontLast(w);
      RunSnoc(m, Front(w), Last(w));
      RunTracksLineEnds(m, Front(w));
      StepTracksLineEnds(Run(m, Front(w)).machine, Front(w), Last(w));
    }
  }

  /** The decision is that of the last byte consumed. */
  lemma DecidingByte(m: Machine, w: string)
    requires m.Safe() && Run(m, w).Decided()
    ensures var n := Run(m, w).consumed;
            var o := Run(m, w[..n - 1]);
            !o.Decided() && Run(m, w) == Shift(n - 1, Step(o.machine, w[n - 1]))
  {
    var n := Run(m, w).consumed;
    ShortestDecision(m, w, n);
    ShortestDecision(m, w, n - 1);
    assert w[..n] == w[..n - 1] + [w[n - 1]];
    RunSnoc(m, w[..n - 1], w[n - 1]);
  }

  lemma GoodStep(m: Machine, c: char)
    requires m.Safe() && Step(m, c).result == Good
    ensures m.state == Newline3 && c == '\n' && Step(m, c).machine == m
  {
  }

  /** Good is the answer to the '\n' that follows the final CR. */
  lemma LastStepGood(m: Machine, w: string)
    requires m.Safe() && Run(m, w).result == Good
    ensures var n := Run(m, w).consumed;
            var o := Run(m, w[..n - 1]);
            n > 0 && !o.Decided() && o.machine.state == Newline3 && w[n - 1] == '\n'
            && o.machine == Run(m, w).machine
  {
    DecidingByte(m, w);
    var n := Run(m, w).consumed;
    GoodStep(Run(m, w[..n - 1]).machine, w[n - 1]);
  }

  lemma BlankLineCompleted(v: string, w: string, n: nat)
    requires 0 < n <= |w| && v == w[..n - 1] && w[n - 1] == '\n'
    requires TracksLineEnds(Newline3, v)
    ensures BlankLineAt(w, n - 4) && (forall i | i < n - 4 :: !BlankLineAt(w, i))
    ensures PairedLineEnds(w[..n])
  {
    assert v[n - 2] == '\r' && v[n - 3] == '\n' && v[n - 4] == '\r';
    forall i | i < n - 4 ensures !BlankLineAt(w, i) {
      assert !BlankLineAt(v, i);
    }
    forall i | 0 <= i < n - 1 ensures w[..n][i] == v[i] {}
  }

  /** A good answer is given on the last byte of the first CRLFCRLF, and all line
      ends up to there are CRLF pairs. */
  lemma GoodAtFirstBlankLine(m: Machine, w: string)
    requires Fresh(m) && Run(m, w).result == Good
    ensures var n := Run(m, w).consumed;
            && BlankLineAt(w, n - 4) && (forall i | i < n - 4 :: !BlankLineAt(w, i))
            && PairedLineEnds(w[..n]) && w[n - 1] == '\n'
  {
    LastStepGood(m, w);
    var n := Run(m, w).consumed;
    RunTracksLineEnds(m, w[..n - 1]);
    BlankLineCompleted(w[..n - 1], w, n);
  }

  /** No accepted request is a proper prefix of another. */
  lemma PrefixFree(m: Machine, w: string, rest: string)
    requires Fresh(m) && Accepts(m, w) && Accepts(m, w + rest)
    ensures rest == ""
  {
    RunAppend(m, w, rest);
  }

  // Version numbers in a 32-bit int

  predicate FitsInt(v: int) {
    -0x8000_0000 <= v <= 0x7FFF_FFFF
  }

  /** Every intermediate of `v * 10 + c - '0'`, evaluated left to right, fits. */
  predicate DigitFits(v: int, c: char) {
    FitsInt(v * 10) && FitsInt(v * 10 + c as int) && FitsInt(v * 10 + c as int - '0' as int)
  }

  predicate DigitsFit(s: string) {
    s == "" || (DigitsFit(Front(s)) && DigitFits(Text.DecimalValue(Front(s)), Last(s)))
  }

  /** The largest version number: the ASCII offset of the digit costs 48. */
  const MAX_VERSION := 0x7FFF_FFFF - 48

  lemma {:induction false} DigitsFitBound(s: string)
    requires Text.AllDigits(s)
    ensures DigitsFit(s) <==> Text.DecimalValue(s) <= MAX_VERSION
  {
    if s != "" {
      DigitsFitBound(Front(s));
      Text.DecimalValueNonNegative(Front(s));
      assert Text.IsDigit(Last(s));
    }
  }

  predicate ActionFits(action: Action, req: Request, c: char) {
    && (action == MajorDigit ==> DigitFits(req.versionMajor, c))
    && (action == MinorDigit ==> DigitFits(req.versionMinor, c))
  }

  /** The arithmetic a byte triggers stays in range. */
  predicate StepFits(m: Machine, c: char) {
    match Transition(m.state, m.req.headers != [], c)
    case Go(next, action) => ActionFits(action, m.req, c)
    case _ => true
  }

  /** No byte of `w` overflows a version field. */
  predicate RunFits(m: Machine, w: string)
    requires m.Safe()
  {
    w == "" || (RunFits(m, Front(w)) && (Run(m, Front(w)).Decided() || StepFits(Run(m, Front(w)).machine, Last(w))))
  }

  predicate TreeFits(t: Tree) {
    DigitsFit(t.major) && DigitsFit(t.minor)
  }

  lemma GrowFits(action: Action, t: Tree, req: Request, c: char)
    requires CanGrow(action, t)
    requires action == MajorDigit || action == MinorDigit ==> SameVersion(t, req)
    ensures TreeFits(Grow(action, t, c)) <==> TreeFits(t) && ActionFits(action, req, c)
  {
    assert Front(t.major + [c]) == t.major;
    assert Front(t.minor + [c]) == t.minor;
  }

  lemma DigitsAfterSlash(state: State, hasHeaders: bool, c: char)
    ensures match Transition(state, hasHeaders, c)
            case Go(next, action) => action == MajorDigit || action == MinorDigit ==> !BeforeVersion(state)
            case _ => true
  {
  }

  lemma StepFitsTree(state: State, t: Tree, req: Request, c: char)
    requires Shape(state, t) && Denotes(state, t, req) && (t.fields != Nil <==> req.headers != [])
    requires TreeStep(state, t, c).At?
    ensures TreeFits(TreeStep(state, t, c).tree) <==> TreeFits(t) && StepFits(Machine(state, req), c)
  {
    match Transition(state, t.fields != Nil, c)
    case Go(next, action) =>
      DigitsAfterSlash(state, t.fields != Nil, c);
      GrowFits(action, t, req, c);
    case _ =>
  }

  lemma {:induction false} RunFitsTree(m: Machine, w: string)
    requires Fresh(m) && !Run(m, w).Decided()
    ensures TreeRun(w).At?
    ensures RunFits(m, w) <==> TreeFits(TreeRun(w).tree)
    decreases |w|
  {
    RunFollows(m, w);
    if w != "" {
      FrontLast(w);
      RunSnoc(m, Front(w), Last(w));
      RunFitsTree(m, Front(w));
      RunFollows(m, Front(w));
      var p := TreeRun(Front(w));
      StepFitsTree(p.state, p.tree, Run(m, Front(w)).machine.req, Last(w));
    }
  }

  /** The bytes read before the one that decides. */
  function Undecided(m: Machine, w: string): (v: string)
    requires m.Safe()
    ensures !Run(m, v).Decided()
  {
    if Run(m, w).Decided() then
      DecidingByte(m, w);
      w[..Run(m, w).consumed - 1]
    else w
  }

  lemma DecidingByteFits(m: Machine, c: char)
    requires m.Safe() && Step(m, c).Decided()
    ensures StepFits(m, c)
  {
  }

  /** Neither the deciding byte nor any after it does arithmetic. */
  lemma {:induction false} RunFitsUndecided(m: Machine, w: string)
    requires m.Safe()
    ensures RunFits(m, w) <==> RunFits(m, Undecided(m, w))
    decreases |w|
  {
    if Run(m, w).Decided() {
      FrontLast(w);
      RunSnoc(m, Front(w), Last(w));
      if Run(m, Front(w)).Decided() {
        assert w[..Run(m, w).consumed - 1] == Front(w)[..Run(m, w).consumed - 1];
        RunFitsUndecided(m, Front(w));
      } else {
        DecidingByteFits(Run(m, Front(w)).machine, Last(w));
      }
    }
  }

  lemma ShapeDigits(state: State, t: Tree)
    requires Shape(state, t)
    ensures Text.AllDigits(t.major) && Text.AllDigits(t.minor)
  {
  }

  /** Reading an input, be it accepted, rejected or unfinished, overflows nothing
      exactly when the two digit runs read before the deciding byte, however many
      leading zeros they have, stand for at most `MAX_VERSION`. */
  lemma VersionBound(m: Machine, w: string)
    requires Fresh(m)
    ensures var p := TreeRun(Undecided(m, w));
            p.At? && (RunFits(m, w) <==> Text.DecimalValue(p.tree.major) <= MAX_VERSION
                                         && Text.DecimalValue(p.tree.minor) <= MAX_VERSION)
  {
    var v := Undecided(m, w);
    RunFitsUndecided(m, w);
    RunFitsTree(m, v);
    var p := TreeRun(v);
    ShapeDigits(p.state, p.tree);
    DigitsFitBound(p.tree.major);
    DigitsFitBound(p.tree.minor);
  }

  /** Overflow is possible before anything was decided. */
  lemma VersionOverflows(m: Machine) returns (w: string)
    requires Fresh(m)
    ensures !Run(m, w).Decided() && !RunFits(m, w)
  {
    var t := Tree("A", "/", Text.Decimal(MAX_VERSION + 1), "", Nil);
    Text.DecimalRoundTrip(MAX_VERSION + 1);
    w := Partial(Major, t);
    RunOnPartial(Major, t);
    RunFollows(m, w);
    VersionBound(m, w);
  }

  lemma UndecidedOfAccepted(m: Machine, w: string)
    requires m.Safe() && Accepts(m, w)
    ensures Run(m, Undecided(m, w)).machine == Run(m, w).machine && Run(m, w).machine.state == Newline3
  {
    LastStepGood(m, w);
  }

  lemma VersionDenoted(m: Machine, v: string)
    requires Fresh(m) && !Run(m, v).Decided() && Run(m, v).machine.state == Newline3
    ensures TreeRun(v).At? && SameVersion(TreeRun(v).tree, Run(m, v).machine.req)
  {
    RunFollows(m, v);
  }

  /** For an accepted request those are its version numbers. */
  lemma AcceptedVersionBound(m: Machine, w: string)
    requires Fresh(m) && Accepts(m, w)
    ensures var req := Run(m, w).machine.req;
            RunFits(m, w) <==> req.versionMajor <= MAX_VERSION && req.versionMinor <= MAX_VERSION
  {
    VersionBound(m, w);
    UndecidedOfAccepted(m, w);
    VersionDenoted(m, Undecided(m, w));
  }

  // Reuse

  /** Storing `req` on top of what `stale` already holds. */
  function OnTop(stale: Request, req: Request): Request {
    Request(stale.verb + req.verb, stale.uri + req.uri, req.versionMajor, req.versionMinor,
            stale.headers + req.headers)
  }

  lemma OnTopOfBlank(stale: Request, req: Request)
    ensures OnTop(stale, req) == req <==> Blank(stale)
  {
    var both := OnTop(stale, req);
    if both == req {
      assert |both.verb| == |stale.verb| + |req.verb|;
      assert |both.uri| == |stale.uri| + |req.uri|;
      assert |both.headers| == |stale.headers| + |req.headers|;
    }
    if Blank(stale) {
      assert both.headers == req.headers;
    }
  }

  predicate Tops(state: State, stale: Request, req: Request, both: Request) {
    && both.verb == stale.verb + req.verb && both.uri == stale.uri + req.uri
    && both.headers == stale.headers + req.headers
    && (!BeforeVersion(state) ==> both.versionMajor == req.versionMajor && both.versionMinor == req.versionMinor)
  }

  lemma ApplyTops(state: State, action: Action, stale: Request, req: Request, both: Request, c: char)
    requires Tops(state, stale, req, both)
    requires TouchesLastHeader(action) ==> req.headers != []
    requires action == ClearVersion <==> state == VersionSlash
    ensures var r, b := Apply(action, req, c), Apply(action, both, c);
            && b.verb == stale.verb + r.verb && b.uri == stale.uri + r.uri
            && b.headers == stale.headers + r.headers
            && (!BeforeVersion(state) || state == VersionSlash ==>
                  b.versionMajor == r.versionMajor && b.versionMinor == r.versionMinor)
  {
    if req.headers != [] {
      assert both.headers[..|both.headers| - 1] == stale.headers + req.headers[..|req.headers| - 1];
    }
  }

  lemma StepTops(state: State, stale: Request, req: Request, both: Request, c: char)
    requires Machine(state, req).Safe() && Machine(state, both).Safe()
    requires Tops(state, stale, req, both)
    requires Step(Machine(state, req), c).result != Bad || stale.headers == []
    ensures var o, p := Step(Machine(state, req), c), Step(Machine(state, both), c);
            p.result == o.result && p.machine.state == o.machine.state
            && Tops(o.machine.state, stale, o.machine.req, p.machine.req)
  {
    match Transition(state, req.headers != [], c)
    case Go(next, action) =>
      VersionClearedAtSlash(state, req.headers != [], c);
      ApplyTops(state, action, stale, req, both, c);
    case _ =>
  }

  /** As long as a new parser finds nothing bad, or always if there are no old
      headers to fold a line onto, a reset parser goes through the same states. */
  lemma {:induction false} RunTops(m: Machine, stale: Request, w: string)
    requires Fresh(m) && (Run(m, w).result != Bad || stale.headers == [])
    ensures var o, p := Run(m, w), Run(Machine(MethodStart, stale), w);
            p.result == o.result && p.consumed == o.consumed && p.machine.state == o.machine.state
            && Tops(o.machine.state, stale, o.machine.req, p.machine.req)
    decreases |w|
  {
    if w != "" {
      var s := Machine(MethodStart, stale);
      FrontLast(w);
      RunSnoc(m, Front(w), Last(w));
      RunSnoc(s, Front(w), Last(w));
      RunTops(m, stale, Front(w));
      var o, p := Run(m, Front(w)), Run(s, Front(w));
      if !o.Decided() {
        StepTops(o.machine.state, stale, o.machine.req, p.machine.req, Last(w));
      }
    }
  }

  /** A reset parser accepts all that a new one accepts, but stores it on top of the
      request it is given; the result is the request that was sent exactly when
      that object was blank. */
  lemma ResetKeepsRequest(m: Machine, stale: Request, w: string)
    requires Fresh(m) && Accepts(m, w)
    ensures var s := Machine(MethodStart, stale);
            && Accepts(s, w)
            && Run(s, w).machine.req == OnTop(stale, Run(m, w).machine.req)
            && (Run(s, w).machine.req == Run(m, w).machine.req <==> Blank(stale))
  {
    LastStepGood(m, w);
    RunTops(m, stale, w);
    OnTopOfBlank(stale, Run(m, w).machine.req);
  }

  /** After a request line a new parser is at the start of a line with no headers,
      a reset one with the old ones. */
  lemma AfterRequestLine(m: Machine, stale: Request) returns (line: string)
    requires Fresh(m)
    ensures var o, p := Run(m, line), Run(Machine(MethodStart, stale), line);
            && !o.Decided() && o.machine.state == HeaderLineStart && o.machine.req.headers == []
            && !p.Decided() && p.machine.state == HeaderLineStart && p.machine.req.headers == stale.headers
  {
    var t := Tree("A", "", "1", "0", Nil);
    line := Partial(HeaderLineStart, t);
    RunOnPartial(HeaderLineStart, t);
    RunFollows(m, line);
    RunTops(m, stale, line);
  }

  lemma BlankRefused(m: Machine, line: string, tail: string)
    requires m.Safe() && !Run(m, line).Decided()
    requires Run(m, line).machine.state == HeaderLineStart && Run(m, line).machine.req.headers == []
    ensures Run(m, line + " ").result == Bad && !Accepts(m, line + " " + tail)
  {
    RunSnoc(m, line, ' ');
    RunAppend(m, line + " ", tail);
  }

  lemma BlankFolds(m: Machine, line: string)
    requires m.Safe() && !Run(m, line).Decided()
    requires Run(m, line).machine.state == HeaderLineStart && Run(m, line).machine.req.headers != []
    ensures var o := Run(m, line + " " + "x");
            !o.Decided() && o.machine.req.headers == ExtendLast(Run(m, line).machine.req.headers, "", "x")
  {
    RunSnoc(m, line, ' ');
    RunSnoc(m, line + " ", 'x');
  }

  /** A blank-led line right after the request line is bad input for a new parser
      and continues the last of the old headers for a reset one. */
  lemma FoldedOntoOldHeader(m: Machine, stale: Request) returns (line: string, rest: string)
    requires Fresh(m) && stale.headers != []
    ensures Run(m, line).machine.state == HeaderLineStart && Run(m, line).machine.req.headers == []
    ensures Run(m, line + " ").result == Bad
    ensures Run(Machine(MethodStart, stale), line + " " + "x").machine.req.headers == ExtendLast(stale.headers, "", "x")
    ensures Accepts(Machine(MethodStart, stale), line + " " + "x" + rest) && !Accepts(m, line + " " + "x" + rest)
  {
    var s := Machine(MethodStart, stale);
    line := AfterRequestLine(m, stale);
    BlankFolds(s, line);
    rest := NoDeadEnd(Run(s, line + " " + "x").machine);
    RunAppend(s, line + " " + "x", rest);
    BlankRefused(m, line, "x" + rest);
    Text.Assoc(line + " ", "x", rest);
  }

  /** A reset parser accepts the same inputs as a new one exactly when the request
      object it is given holds no headers. */
  lemma ResetLanguage(m: Machine, stale: Request)
    requires Fresh(m)
    ensures (forall w :: Accepts(Machine(MethodStart, stale), w) <==> Accepts(m, w)) <==> stale.headers == []
  {
    if stale.headers == [] {
      forall w ensures Accepts(Machine(MethodStart, stale), w) <==> Accepts(m, w) {
        RunTops(m, stale, w);
      }
    } else {
      var line, rest := FoldedOntoOldHeader(m, stale);
    }
  }
}
