/** Splitting strings and matching paths against patterns (src/lib/string.hpp). A
    ':' anywhere in a pattern starts a parameter that runs to the next '/'. */
module PathPattern {
  import opened Text

  /** Head before, tail after the first `delim`; everything and nothing without one. */
  function Split(input: string, delim: char): (string, string) {
    var pos := Find(input, delim);
    if pos < |input| then (input[..pos], input[pos + 1..]) else (input, "")
  }

  lemma SplitJoined(head: string, delim: char, tail: string)
    requires delim !in head
    ensures Split(head + [delim] + tail, delim) == (head, tail)
    ensures Split(head, delim) == (head, "")
  {
    var s := head + [delim] + tail;
    assert s[..|head|] == head && s[|head| + 1..] == tail;
    assert head[..|head|] == head;
    FindIs(s, delim, |head|);
    FindIs(head, delim, |head|);
  }

  /** Splitting brings in no characters, and the head lacks the delimiter. */
  lemma SplitLacks(s: string, delim: char, c: char)
    ensures delim !in Split(s, delim).0
    ensures c !in s ==> c !in Split(s, delim).0 && c !in Split(s, delim).1
  {
  }

  // What a pattern means

  /** Where the parameter (or other stretch) starting `p` ends: the next '/'. */
  function Stretch(p: string): (n: nat)
    ensures n <= |p| && '/' !in p[..n]
    ensures n < |p| ==> p[n] == '/'
  {
    Find(p, '/')
  }

  lemma StretchOfParameter(p: string)
    requires p != "" && p[0] == ':'
    ensures Stretch(p) == 1 + Find(p[1..], '/')
  {
    var n := 1 + Find(p[1..], '/');
    assert p[..n] == [':'] + p[1..][..n - 1];
    FindIs(p, '/', n);
  }

  /** Parameter names, left to right. */
  function Names(p: string): seq<string>
    decreases |p|
  {
    if p == "" then []
    else if p[0] == ':' then [p[1..Stretch(p)]] + Names(p[Stretch(p)..])
    else Names(p[1..])
  }

  /** The pattern with its parameters replaced by values, left to right. */
  function Inst(p: string, values: seq<string>): string
    requires |values| == |Names(p)|
    decreases |p|
  {
    if p == "" then ""
    else if p[0] == ':' then values[0] + Inst(p[Stretch(p)..], values[1..])
    else [p[0]] + Inst(p[1..], values)
  }

  /** The pattern's last component is, or ends in, a parameter. */
  predicate EndsInParameter(p: string)
    decreases |p|
  {
    p != "" &&
    if p[0] == ':' then Stretch(p) == |p| || EndsInParameter(p[Stretch(p)..])
    else EndsInParameter(p[1..])
  }

  predicate FreeOf(values: seq<string>, c: char) {
    forall i | 0 <= i < |values| :: c !in values[i]
  }

  /** A parameter at the very end of the pattern is given the empty value. */
  predicate EmptyAtEnd(p: string, values: seq<string>) {
    EndsInParameter(p) && values != [] && values[|values| - 1] == ""
  }

  /** `s` is the pattern instantiated with slash-free values, with an optional
      final '/'. Without that '/', a final parameter may not be empty. */
  predicate Instance(p: string, values: seq<string>, s: string) {
    && |values| == |Names(p)| && FreeOf(values, '/')
    && (s == Inst(p, values) + "/" || (s == Inst(p, values) && !EmptyAtEnd(p, values)))
  }

  function Zip(names: seq<string>, values: seq<string>): seq<(string, string)>
    requires |names| == |values|
  {
    seq(|names|, i requires 0 <= i < |names| => (names[i], values[i]))
  }

  // The matching walk

  /** Whether the walk reached a match, and the captures made on the way there
      (or up to the point of failure). */
  datatype Walked = Walked(matched: bool, captures: seq<(string, string)>)

  function Walk(p: string, s: string): Walked
    decreases |p|
  {
    if p == "" || s == "" then Walked(p == "" && (s == "" || s == "/"), [])
    else if p[0] == ':' then
      var rest := Walk(p[Stretch(p)..], s[Stretch(s)..]);
      Walked(rest.matched, [(p[1..Stretch(p)], s[..Stretch(s)])] + rest.captures)
    else if p[0] != s[0] then Walked(false, [])
    else Walk(p[1..], s[1..])
  }

  lemma EndsInParameterHasName(p: string)
    requires EndsInParameter(p)
    ensures Names(p) != []
    decreases |p|
  {
    if p[0] != ':' {
      EndsInParameterHasName(p[1..]);
    }
  }

  /** A value followed by an instance of the rest is an instance of a pattern that
      starts with a parameter. */
  lemma InstanceCons(p: string, value: string, values: seq<string>, rest: string)
    requires p != "" && p[0] == ':' && '/' !in value && value + rest != ""
    requires Instance(p[Stretch(p)..], values, rest)
    ensures Instance(p, [value] + values, value + rest)
  {
    var n, all := Stretch(p), [value] + values;
    assert all[1..] == values;
    assert value + (Inst(p[n..], values) + "/") == Inst(p, all) + "/";
    if n < |p| && EndsInParameter(p[n..]) {
      EndsInParameterHasName(p[n..]);
      assert all[|all| - 1] == values[|values| - 1];
    }
  }

  lemma ZipCons(name: string, names: seq<string>, value: string, values: seq<string>)
    requires |names| == |values|
    ensures Zip([name] + names, [value] + values) == [(name, value)] + Zip(names, values)
  {
  }

  /** Every match has slash-free values that rebuild the input. */
  lemma {:induction false} MatchSound(p: string, s: string) returns (values: seq<string>)
    requires Walk(p, s).matched
    ensures Instance(p, values, s)
    ensures Walk(p, s).captures == Zip(Names(p), values)
    decreases |p|
  {
    if p == "" {
      values := [];
    } else if p[0] == ':' {
      var n, k := Stretch(p), Stretch(s);
      var tail := MatchSound(p[n..], s[k..]);
      values := [s[..k]] + tail;
      assert s == s[..k] + s[k..];
      InstanceCons(p, s[..k], tail, s[k..]);
      ZipCons(p[1..n], Names(p[n..]), s[..k], tail);
    } else {
      values := MatchSound(p[1..], s[1..]);
      assert s == [p[0]] + s[1..];
    }
  }

  lemma FreeOfTail(values: seq<string>, c: char)
    requires values != [] && FreeOf(values, c)
    ensures FreeOf(values[1..], c)
  {
  }

  lemma StretchOfValue(value: string, rest: string)
    requires '/' !in value && (rest == "" || rest[0] == '/')
    ensures Stretch(value + rest) == |value|
    ensures (value + rest)[..|value|] == value && (value + rest)[|value|..] == rest
  {
    var s := value + rest;
    assert s[..|value|] == value;
    FindIs(s, '/', |value|);
  }

  /** An instance of a pattern that starts with a parameter is a value followed by
      an instance of the rest. */
  lemma InstanceTail(p: string, values: seq<string>, s: string)
    requires Instance(p, values, s) && p != "" && p[0] == ':'
    ensures |values[0]| <= |s| && s != ""
    ensures var tail := s[|values[0]|..];
            s == values[0] + tail && (tail == "" || tail[0] == '/')
            && Instance(p[Stretch(p)..], values[1..], tail)
  {
    var n := Stretch(p);
    FreeOfTail(values, '/');
    var rest := Inst(p[n..], values[1..]);
    var tail := s[|values[0]|..];
    assert s == values[0] + tail && (tail == rest || tail == rest + "/");
    if n < |p| {
      assert rest[0] == '/';
      if EmptyAtEnd(p[n..], values[1..]) {
        assert EmptyAtEnd(p, values);
      }
    }
  }

  lemma LiteralTail(p: string, values: seq<string>, s: string)
    requires Instance(p, values, s) && p != "" && p[0] != ':'
    ensures s != "" && s[0] == p[0] && Names(p) == Names(p[1..]) && Instance(p[1..], values, s[1..])
  {
    assert s[1..] == Inst(p[1..], values) + "/" || s[1..] == Inst(p[1..], values);
  }

  lemma WalkParameter(p: string, value: string, values: seq<string>, tail: string)
    requires p != "" && p[0] == ':' && '/' !in value && (tail == "" || tail[0] == '/') && value + tail != ""
    requires |values| == |Names(p[Stretch(p)..])|
    requires Walk(p[Stretch(p)..], tail) == Walked(true, Zip(Names(p[Stretch(p)..]), values))
    ensures Walk(p, value + tail) == Walked(true, Zip(Names(p), [value] + values))
  {
    var n := Stretch(p);
    StretchOfValue(value, tail);
    ZipCons(p[1..n], Names(p[n..]), value, values);
  }

  /** Every instance is matched, capturing exactly its values. */
  lemma {:induction false} MatchComplete(p: string, values: seq<string>, s: string)
    requires Instance(p, values, s)
    ensures Walk(p, s) == Walked(true, Zip(Names(p), values))
    decreases |p|
  {
    if p == "" {
    } else if p[0] == ':' {
      var n := Stretch(p);
      InstanceTail(p, values, s);
      var tail := s[|values[0]|..];
      MatchComplete(p[n..], values[1..], tail);
      WalkParameter(p, values[0], values[1..], tail);
      assert values == [values[0]] + values[1..];
    } else {
      LiteralTail(p, values, s);
      MatchComplete(p[1..], values, s[1..]);
    }
  }

  ghost predicate Matches(p: string, s: string) {
    exists values :: Instance(p, values, s)
  }

  /** The walk decides the declarative relation. */
  lemma WalkDecides(p: string, s: string)
    ensures Walk(p, s).matched <==> Matches(p, s)
  {
    if Walk(p, s).matched {
      var values := MatchSound(p, s);
    }
    forall values | Instance(p, values, s) ensures Walk(p, s).matched {
      MatchComplete(p, values, s);
    }
  }

  /** The values are determined by the input. */
  lemma UniqueValues(p: string, v: seq<string>, w: seq<string>, s: string)
    requires Instance(p, v, s) && Instance(p, w, s)
    ensures v == w
  {
    MatchComplete(p, v, s);
    MatchComplete(p, w, s);
    forall i | 0 <= i < |v| ensures v[i] == w[i] {
      assert Zip(Names(p), v)[i] == Zip(Names(p), w)[i];
    }
  }

  function Slashes(s: string): nat {
    if s == "" then 0 else (if s[0] == '/' then 1 else 0) + Slashes(s[1..])
  }

  lemma {:induction false} SlashCountAppend(a: string, b: string)
    ensures Slashes(a + b) == Slashes(a) + Slashes(b)
  {
    if a == "" {
      assert a + b == b;
    } else {
      assert (a + b)[1..] == a[1..] + b;
      SlashCountAppend(a[1..], b);
    }
  }

  lemma {:induction false} NoSlashes(s: string)
    requires '/' !in s
    ensures Slashes(s) == 0
  {
    if s != "" {
      NoSlashes(s[1..]);
    }
  }

  /** Slash-free values neither add nor remove separators. */
  lemma {:induction false} SlashCount(p: string, values: seq<string>)
    requires |values| == |Names(p)| && FreeOf(values, '/')
    ensures Slashes(Inst(p, values)) == Slashes(p)
    decreases |p|
  {
    if p == "" {
    } else if p[0] == ':' {
      var n := Stretch(p);
      FreeOfTail(values, '/');
      SlashCount(p[n..], values[1..]);
      NoSlashes(values[0]);
      SlashCountAppend(values[0], Inst(p[n..], values[1..]));
      NoSlashes(p[..n]);
      assert p == p[..n] + p[n..];
      SlashCountAppend(p[..n], p[n..]);
    } else {
      SlashCount(p[1..], values);
      assert Inst(p, values)[1..] == Inst(p[1..], values);
    }
  }

  /** Values can be read back from an instantiation. */
  lemma {:induction false} InstInjective(p: string, v: seq<string>, w: seq<string>)
    requires |v| == |w| == |Names(p)| && FreeOf(v, '/') && FreeOf(w, '/')
    requires Inst(p, v) == Inst(p, w)
    ensures v == w
    decreases |p|
  {
    MatchComplete(p, v, Inst(p, v) + "/");
    MatchComplete(p, w, Inst(p, w) + "/");
    UniqueValues(p, v, w, Inst(p, v) + "/");
  }

  /** With or without the extra '/': never both readings of one input. */
  lemma TrailingSlashIsExtra(p: string, v: seq<string>, w: seq<string>)
    requires |v| == |w| == |Names(p)| && FreeOf(v, '/') && FreeOf(w, '/')
    ensures Inst(p, v) + "/" != Inst(p, w)
  {
    SlashCount(p, v);
    SlashCount(p, w);
    SlashCountAppend(Inst(p, v), "/");
  }

  /** The bare instantiation is refused exactly when it leaves a parameter at the end
      of the pattern empty; with an extra '/' every instantiation is accepted. So
      "/:a" refuses "/" and accepts "//". */
  lemma EmptyFinalParameter(p: string, values: seq<string>)
    requires |values| == |Names(p)| && FreeOf(values, '/')
    ensures Matches(p, Inst(p, values)) <==> !EmptyAtEnd(p, values)
    ensures Matches(p, Inst(p, values) + "/")
  {
    assert Instance(p, values, Inst(p, values) + "/");
    if EmptyAtEnd(p, values) {
      forall other ensures !Instance(p, other, Inst(p, values)) {
        if |other| == |Names(p)| && FreeOf(other, '/') {
          TrailingSlashIsExtra(p, other, values);
          if Inst(p, other) == Inst(p, values) {
            InstInjective(p, other, values);
          }
        }
      }
    } else {
      assert Instance(p, values, Inst(p, values));
    }
  }

  lemma SameStretch(s: string, t: string)
    requires t < s && s[|t|] != '/'
    ensures Stretch(t) < |t| ==> Stretch(s) == Stretch(t) && t[Stretch(t)..] < s[Stretch(s)..]
    ensures Stretch(t) == |t| ==> Stretch(s) > |t|
  {
    var k, l := Stretch(s), Stretch(t);
    assert s[..|t|] == t && s[..l] == t[..l];
    if l < |t| {
      FindIs(s, '/', l);
      assert t[l..] == s[l..][..|t| - l];
    }
  }

  predicate LastDiffers(a: seq<(string, string)>, b: seq<(string, string)>) {
    |a| == |b| > 0 && a[|a| - 1].1 != b[|b| - 1].1
  }

  /** Cutting a match short anywhere but before a '/' leaves no match, or one with
      another last capture. */
  lemma {:induction false} CutMatch(p: string, s: string, t: string)
    requires Walk(p, s).matched && Walk(p, t).matched
    requires t < s && s[|t|] != '/'
    ensures LastDiffers(Walk(p, s).captures, Walk(p, t).captures)
    decreases |p|
  {
    if p != "" && p[0] == ':' {
      SameStretch(s, t);
      var n, k, l := Stretch(p), Stretch(s), Stretch(t);
      if l < |t| {
        CutMatch(p[n..], s[k..], t[l..]);
      } else {
        assert t[l..] == "" && p[n..] == "";
        assert |s[..k]| > |t[..l]|;
      }
    } else if p != "" {
      CutMatch(p[1..], s[1..], t[1..]);
    }
  }

  lemma MatchResult(p: string, s: string)
    ensures Walk(p, s).matched <==> Matches(p, s)
    ensures forall values | Instance(p, values, s) :: Walk(p, s).captures == Zip(Names(p), values)
  {
    WalkDecides(p, s);
    forall values | Instance(p, values, s) ensures Walk(p, s).captures == Zip(Names(p), values) {
      MatchComplete(p, values, s);
    }
  }

  /** `find('/', from)` */
  function NextSlash(s: string, from: nat): (n: nat)
    requires from <= |s|
    ensures from <= n <= |s|
  {
    from + Find(s[from..], '/')
  }

  /** The walk from the two cursors on, with captures already made put in front. */
  function WalkFrom(done: seq<(string, string)>, pattern: string, i: nat, input: string, j: nat): Walked
    requires i <= |pattern| && j <= |input|
  {
    var rest := Walk(pattern[i..], input[j..]);
    Walked(rest.matched, done + rest.captures)
  }

  lemma WalkStarts(pattern: string, input: string)
    ensures WalkFrom([], pattern, 0, input, 0) == Walk(pattern, input)
  {
    assert pattern[0..] == pattern && input[0..] == input;
  }

  lemma WalkCaptures(done: seq<(string, string)>, pattern: string, i: nat, input: string, j: nat)
    requires i < |pattern| && j < |input| && pattern[i] == ':'
    ensures var n, k := NextSlash(pattern, i + 1), NextSlash(input, j);
            WalkFrom(done, pattern, i, input, j)
            == WalkFrom(done + [(pattern[i + 1..n], input[j..k])], pattern, n, input, k)
  {
    var p, s := pattern[i..], input[j..];
    StretchOfParameter(p);
    assert p[1..] == pattern[i + 1..];
    var n, k := Stretch(p), Stretch(s);
    assert p[1..n] == pattern[i + 1..i + n] && s[..k] == input[j..j + k];
    assert p[n..] == pattern[i + n..] && s[k..] == input[j + k..];
    var capture := (p[1..n], s[..k]);
    var rest := Walk(p[n..], s[k..]);
    assert done + ([capture] + rest.captures) == done + [capture] + rest.captures;
  }

  lemma WalkSkips(done: seq<(string, string)>, pattern: string, i: nat, input: string, j: nat)
    requires i < |pattern| && j < |input| && pattern[i] != ':' && pattern[i] == input[j]
    ensures WalkFrom(done, pattern, i, input, j) == WalkFrom(done, pattern, i + 1, input, j + 1)
  {
    assert pattern[i..][1..] == pattern[i + 1..] && input[j..][1..] == input[j + 1..];
  }

  lemma WalkStops(done: seq<(string, string)>, pattern: string, i: nat, input: string, j: nat)
    requires i <= |pattern| && j <= |input|
    requires i == |pattern| || j == |input| || (pattern[i] != ':' && pattern[i] != input[j])
    ensures WalkFrom(done, pattern, i, input, j)
            == Walked(i == |pattern| && (j == |input| || (j + 1 == |input| && input[|input| - 1] == '/')), done)
  {
    assert done + [] == done;
    if i == |pattern| && j + 1 == |input| {
      assert input[j..] == [input[j]];
    }
  }

  lemma MapOfSnoc(done: seq<(string, string)>, name: string, value: string)
    ensures MapOf(done + [(name, value)]) == MapOf(done)[name := value]
  {
    assert (done + [(name, value)])[..|done|] == done;
  }

  /** The loop. On failure `parameters` holds the captures made so far. */
  method MatchPattern(pattern: string, input: string) returns (matched: bool, parameters: map<string, string>)
    ensures matched <==> Matches(pattern, input)
    ensures parameters == MapOf(Walk(pattern, input).captures)
    ensures forall values | Instance(pattern, values, input) :: parameters == MapOf(Zip(Names(pattern), values))
  {
    parameters := map[];
    var patternPos, inputPos := 0, 0;
    ghost var done := [];
    WalkStarts(pattern, input);
    while patternPos < |pattern| && inputPos < |input|
      invariant patternPos <= |pattern| && inputPos <= |input|
      invariant parameters == MapOf(done)
      invariant Walk(pattern, input) == WalkFrom(done, pattern, patternPos, input, inputPos)
      decreases |pattern| - patternPos
    {
      if pattern[patternPos] == ':' {
        WalkCaptures(done, pattern, patternPos, input, inputPos);
        var nameEnd := NextSlash(pattern, patternPos + 1);
        var name := pattern[patternPos + 1..nameEnd];
        var valueEnd := NextSlash(input, inputPos);
        var value := input[inputPos..valueEnd];
        MapOfSnoc(done, name, value);
        parameters := parameters[name := value];
        done := done + [(name, value)];
        patternPos, inputPos := nameEnd, valueEnd;
      } else {
        patternPos, inputPos := patternPos + 1, inputPos + 1;
        if pattern[patternPos - 1] != input[inputPos - 1] {
          WalkStops(done, pattern, patternPos - 1, input, inputPos - 1);
          MatchResult(pattern, input);
          return false, parameters;
        }
        WalkSkips(done, pattern, patternPos - 1, input, inputPos - 1);
      }
    }
    WalkStops(done, pattern, patternPos, input, inputPos);
    MatchResult(pattern, input);
    matched := patternPos == |pattern|
               && (inputPos == |input| || (inputPos + 1 == |input| && input[|input| - 1] == '/'));
  }
}
