/** The language of requests the parser accepts, stated as syntax trees and their
    renderings, and the proof that a machine building those trees is inverted by
    rendering, state by state. The grammar is close to sections 2.2, 3.1, 4.2 and
    5.1 of RFC 1945; the differences are the machine's. */
module RequestGrammar {
  import opened RequestMachine
  import Text

  // Syntax trees

  /** Lists that grow at the end, as the parser builds them. */
  datatype List<T> = Nil | Snoc(front: List<T>, last: T)

  /** A continuation line: a run of blanks, then text. */
  datatype Fold = Fold(blanks: string, text: string)

  datatype Field = Field(name: string, value: string, folds: List<Fold>)

  datatype Tree = Tree(verb: string, uri: string, major: string, minor: string, fields: List<Field>)

  const EMPTY := Tree("", "", "", "", Nil)

  predicate IsToken(s: string) {
    s != "" && forall i | 0 <= i < |s| :: IsTokenChar(s[i])
  }

  /** Text without control characters; '\t', CR and LF are control characters. */
  predicate IsText(s: string) {
    forall i | 0 <= i < |s| :: !IsCtl(s[i])
  }

  /** The request target: possibly empty, no spaces, no control characters. */
  predicate IsUri(s: string) {
    forall i | 0 <= i < |s| :: !IsCtl(s[i]) && s[i] != ' '
  }

  predicate IsNumeral(s: string) {
    s != "" && Text.AllDigits(s)
  }

  predicate AreBlanks(s: string) {
    s != "" && forall i | 0 <= i < |s| :: IsBlank(s[i])
  }

  predicate ValidFold(f: Fold) {
    AreBlanks(f.blanks) && IsText(f.text) && (f.text != "" ==> f.text[0] != ' ')
  }

  predicate ValidFolds(folds: List<Fold>) {
    folds == Nil || (ValidFolds(folds.front) && ValidFold(folds.last))
  }

  predicate ValidField(f: Field) {
    IsToken(f.name) && IsText(f.value) && ValidFolds(f.folds)
  }

  predicate ValidFields(fields: List<Field>) {
    fields == Nil || (ValidFields(fields.front) && ValidField(fields.last))
  }

  predicate ValidLine(t: Tree) {
    IsToken(t.verb) && IsUri(t.uri) && IsNumeral(t.major) && IsNumeral(t.minor)
  }

  predicate ValidTree(t: Tree) {
    ValidLine(t) && ValidFields(t.fields)
  }

  // Rendering

  function RenderFolds(folds: List<Fold>): string {
    match folds
    case Nil => ""
    case Snoc(front, d) => RenderFolds(front) + "\r\n" + d.blanks + d.text
  }

  /** A field up to the CRLF that ends its last line. */
  function RenderOpen(f: Field): string {
    f.name + ": " + f.value + RenderFolds(f.folds)
  }

  function RenderFields(fields: List<Field>): string {
    match fields
    case Nil => ""
    case Snoc(front, f) => RenderFields(front) + RenderOpen(f) + "\r\n"
  }

  function RenderLine(t: Tree): string {
    t.verb + " " + t.uri + " HTTP/" + t.major + "." + t.minor + "\r\n"
  }

  function Render(t: Tree): string {
    RenderLine(t) + RenderFields(t.fields) + "\r\n"
  }

  // The machine over trees

  predicate CanGrow(action: Action, t: Tree) {
    match action
    case NameChar => t.fields != Nil
    case ValueChar => t.fields != Nil
    case NewFold => t.fields != Nil
    case FoldSpace => t.fields != Nil && t.fields.last.folds != Nil
    case _ => true
  }

  function GrowFold(d: Fold, blanks: string, text: string): Fold {
    Fold(d.blanks + blanks, d.text + text)
  }

  function GrowLastFold(folds: List<Fold>, blanks: string, text: string): List<Fold>
    requires folds != Nil
  {
    Snoc(folds.front, GrowFold(folds.last, blanks, text))
  }

  function GrowValue(f: Field, c: char): Field {
    if f.folds == Nil then f.(value := f.value + [c])
    else f.(folds := GrowLastFold(f.folds, "", [c]))
  }

  function WithLast(t: Tree, f: Field): Tree
    requires t.fields != Nil
  {
    t.(fields := Snoc(t.fields.front, f))
  }

  /** The same actions as `RequestMachine.Apply`, keeping every byte. */
  function Grow(action: Action, t: Tree, c: char): Tree
    requires CanGrow(action, t)
  {
    match action
    case NoAction => t
    case ClearVersion => t
    case MethodChar => t.(verb := t.verb + [c])
    case UriChar => t.(uri := t.uri + [c])
    case MajorDigit => t.(major := t.major + [c])
    case MinorDigit => t.(minor := t.minor + [c])
    case NewHeader => t.(fields := Snoc(t.fields, Field([c], "", Nil)))
    case NameChar => var f := t.fields.last; WithLast(t, f.(name := f.name + [c]))
    case ValueChar => WithLast(t, GrowValue(t.fields.last, c))
    case NewFold => var f := t.fields.last; WithLast(t, f.(folds := Snoc(f.folds, Fold([c], ""))))
    case FoldSpace => var f := t.fields.last; WithLast(t, f.(folds := GrowLastFold(f.folds, [c], "")))
  }

  datatype Progress = Dead | At(state: State, tree: Tree) | Done(tree: Tree)

  function TreeStep(state: State, t: Tree, c: char): Progress
    requires Shape(state, t)
  {
    match Transition(state, t.fields != Nil, c)
    case Reject => Dead
    case Accept => Done(t)
    case Go(next, action) => At(next, Grow(action, t, c))
  }

  predicate InLine(t: Tree) {
    IsToken(t.verb) && IsUri(t.uri) && t.fields == Nil
  }

  predicate OpenName(t: Tree) {
    ValidTree(t) && t.fields != Nil && t.fields.last.value == "" && t.fields.last.folds == Nil
  }

  predicate OpenBlanks(t: Tree) {
    ValidTree(t) && t.fields != Nil && t.fields.last.folds != Nil && t.fields.last.folds.last.text == ""
  }

  predicate OpenValue(t: Tree) {
    ValidTree(t) && t.fields != Nil && (t.fields.last.folds != Nil ==> t.fields.last.folds.last.text != "")
  }

  /** What the tree built so far looks like in each control state. */
  predicate Shape(state: State, t: Tree) {
    match state
    case MethodStart => t == EMPTY
    case Method => IsToken(t.verb) && t == EMPTY.(verb := t.verb)
    case Uri => InLine(t) && t.major == "" && t.minor == ""
    case VersionH => InLine(t) && t.major == "" && t.minor == ""
    case VersionT1 => InLine(t) && t.major == "" && t.minor == ""
    case VersionT2 => InLine(t) && t.major == "" && t.minor == ""
    case VersionP => InLine(t) && t.major == "" && t.minor == ""
    case VersionSlash => InLine(t) && t.major == "" && t.minor == ""
    case MajorStart => InLine(t) && t.major == "" && t.minor == ""
    case Major => InLine(t) && IsNumeral(t.major) && t.minor == ""
    case MinorStart => InLine(t) && IsNumeral(t.major) && t.minor == ""
    case Minor => InLine(t) && IsNumeral(t.major) && IsNumeral(t.minor)
    case Newline1 => InLine(t) && IsNumeral(t.major) && IsNumeral(t.minor)
    case HeaderLineStart => ValidTree(t)
    case HeaderName => OpenName(t)
    case SpaceBeforeValue => OpenName(t)
    case HeaderValue => OpenValue(t)
    case HeaderLws => OpenBlanks(t)
    case Newline2 => ValidTree(t) && t.fields != Nil
    case Newline3 => ValidTree(t)
  }

  function LineHead(t: Tree): string {
    t.verb + " " + t.uri + " "
  }

  function FieldsHead(t: Tree): string
    requires t.fields != Nil
  {
    RenderLine(t) + RenderFields(t.fields.front)
  }

  function OpenField(t: Tree): string
    requires t.fields != Nil
  {
    FieldsHead(t) + RenderOpen(t.fields.last)
  }

  /** The bytes that lead to a control state with a given tree. */
  function Partial(state: State, t: Tree): string
    requires Shape(state, t)
  {
    match state
    case MethodStart => ""
    case Method => t.verb
    case Uri => t.verb + " " + t.uri
    case VersionH => LineHead(t)
    case VersionT1 => LineHead(t) + "H"
    case VersionT2 => LineHead(t) + "H" + "T"
    case VersionP => LineHead(t) + "H" + "T" + "T"
    case VersionSlash => LineHead(t) + "H" + "T" + "T" + "P"
    case MajorStart => LineHead(t) + "HTTP/"
    case Major => LineHead(t) + "HTTP/" + t.major
    case MinorStart => LineHead(t) + "HTTP/" + t.major + "."
    case Minor => LineHead(t) + "HTTP/" + t.major + "." + t.minor
    case Newline1 => LineHead(t) + "HTTP/" + t.major + "." + t.minor + "\r"
    case HeaderLineStart => RenderLine(t) + RenderFields(t.fields)
    case HeaderName => FieldsHead(t) + t.fields.last.name
    case SpaceBeforeValue => FieldsHead(t) + t.fields.last.name + ":"
    case HeaderValue => OpenField(t)
    case HeaderLws => OpenField(t)
    case Newline2 => OpenField(t) + "\r"
    case Newline3 => RenderLine(t) + RenderFields(t.fields) + "\r"
  }

  // One byte forwards

  lemma RenderGrowValue(f: Field, c: char)
    ensures RenderOpen(GrowValue(f, c)) == RenderOpen(f) + [c]
  {
    var head := f.name + ": ";
    match f.folds
    case Nil =>
      assert f.value + "" == f.value && f.value + [c] + "" == f.value + [c];
      Text.Assoc(head, f.value, [c]);
    case Snoc(front, d) =>
      var fixed := RenderFolds(front) + "\r\n" + d.blanks;
      assert d.blanks + "" == d.blanks;
      Text.Assoc(fixed, d.text, [c]);
      Text.Assoc(head + f.value, fixed + d.text, [c]);
  }

  lemma RenderNewFold(f: Field, c: char)
    ensures RenderOpen(f.(folds := Snoc(f.folds, Fold([c], "")))) == RenderOpen(f) + "\r\n" + [c]
  {
  }

  lemma RenderFoldSpace(f: Field, c: char)
    requires f.folds != Nil && f.folds.last.text == ""
    ensures RenderOpen(f.(folds := GrowLastFold(f.folds, [c], ""))) == RenderOpen(f) + [c]
  {
    var d := f.folds.last;
    var fixed := RenderFolds(f.folds.front) + "\r\n";
    assert fixed + d.blanks + "" == fixed + d.blanks;
    assert fixed + (d.blanks + [c]) + "" == fixed + (d.blanks + [c]);
    Text.Assoc(fixed, d.blanks, [c]);
    Text.Assoc(f.name + ": " + f.value, fixed + d.blanks, [c]);
  }

  lemma ValueAppended(t: Tree, c: char)
    requires ValidTree(t) && t.fields != Nil && !IsCtl(c)
    requires t.fields.last.folds != Nil && t.fields.last.folds.last.text == "" ==> c != ' '
    ensures var u := WithLast(t, GrowValue(t.fields.last, c));
            OpenValue(u) && OpenField(u) == OpenField(t) + [c]
  {
    RenderGrowValue(t.fields.last, c);
    Text.Assoc(FieldsHead(t), RenderOpen(t.fields.last), [c]);
  }

  lemma FoldOpened(t: Tree, c: char)
    requires ValidTree(t) && t.fields != Nil && IsBlank(c)
    ensures var u := WithLast(t, t.fields.last.(folds := Snoc(t.fields.last.folds, Fold([c], ""))));
            Shape(HeaderLws, u) && Partial(HeaderLws, u) == Partial(HeaderLineStart, t) + [c]
  {
    RenderNewFold(t.fields.last, c);
    var open := RenderOpen(t.fields.last);
    Text.Assoc(FieldsHead(t), open + "\r\n", [c]);
    Text.Assoc(RenderFields(t.fields.front), open, "\r\n");
    Text.Assoc(RenderLine(t), RenderFields(t.fields.front), open + "\r\n");
  }

  lemma BlankAppended(t: Tree, c: char)
    requires OpenBlanks(t) && IsBlank(c)
    ensures var u := WithLast(t, t.fields.last.(folds := GrowLastFold(t.fields.last.folds, [c], "")));
            OpenBlanks(u) && OpenField(u) == OpenField(t) + [c]
  {
    RenderFoldSpace(t.fields.last, c);
    Text.Assoc(FieldsHead(t), RenderOpen(t.fields.last), [c]);
  }

  lemma StepExtendsMethod(state: State, t: Tree, c: char)
    requires state in {MethodStart, Method, Uri} && Shape(state, t) && TreeStep(state, t, c).At?
    ensures var p := TreeStep(state, t, c);
            Shape(p.state, p.tree) && Partial(p.state, p.tree) == Partial(state, t) + [c]
  {
    if state == Method && c == ' ' {
      assert t.verb + " " + "" == t.verb + [c];
    }
    Text.Assoc(t.verb + " ", t.uri, [c]);
  }

  lemma StepExtendsMark(state: State, t: Tree, c: char)
    requires state in {VersionH, VersionT1, VersionT2, VersionP, VersionSlash}
    requires Shape(state, t) && TreeStep(state, t, c).At?
    ensures var p := TreeStep(state, t, c);
            Shape(p.state, p.tree) && Partial(p.state, p.tree) == Partial(state, t) + [c]
  {
    if state == VersionSlash {
      assert LineHead(t) + "H" + "T" + "T" + "P" + "/" == LineHead(t) + "HTTP/";
    }
  }

  lemma StepExtendsVersion(state: State, t: Tree, c: char)
    requires state in {MajorStart, Major, MinorStart, Minor}
    requires Shape(state, t) && TreeStep(state, t, c).At?
    ensures var p := TreeStep(state, t, c);
            Shape(p.state, p.tree) && Partial(p.state, p.tree) == Partial(state, t) + [c]
  {
    var mark := LineHead(t) + "HTTP/";
    assert mark + "" == mark;
    assert mark + t.major + "." + "" == mark + t.major + ".";
    Text.Assoc(mark, t.major, [c]);
    Text.Assoc(mark + t.major + ".", t.minor, [c]);
  }

  lemma StepExtendsNewline(state: State, t: Tree, c: char)
    requires state in {Newline1, Newline2, Newline3}
    requires Shape(state, t) && TreeStep(state, t, c).At?
    ensures var p := TreeStep(state, t, c);
            Shape(p.state, p.tree) && Partial(p.state, p.tree) == Partial(state, t) + [c]
  {
    if state == Newline1 {
      assert LineHead(t) + "HTTP/" + t.major + "." + t.minor + "\r" + "\n" == RenderLine(t) + "";
    } else {
      var f := t.fields.last;
      Text.Assoc(RenderLine(t), RenderFields(t.fields.front), RenderOpen(f) + "\r\n");
      assert FieldsHead(t) + RenderOpen(f) + "\r" + "\n" == FieldsHead(t) + (RenderOpen(f) + "\r\n");
      Text.Assoc(RenderFields(t.fields.front), RenderOpen(f), "\r\n");
    }
  }

  lemma NameOpened(t: Tree, c: char)
    requires ValidTree(t) && IsTokenChar(c)
    ensures var u := t.(fields := Snoc(t.fields, Field([c], "", Nil)));
            Shape(HeaderName, u) && Partial(HeaderName, u) == Partial(HeaderLineStart, t) + [c]
  {
    assert IsToken([c]);
  }

  lemma LastLineOpened(t: Tree)
    requires ValidTree(t)
    ensures Partial(Newline3, t) == Partial(HeaderLineStart, t) + ['\r']
  {
  }

  lemma LineStartMoves(t: Tree, c: char)
    requires Shape(HeaderLineStart, t) && TreeStep(HeaderLineStart, t, c).At?
    ensures TreeStep(HeaderLineStart, t, c)
            == if c == '\r' then At(Newline3, t)
               else if IsBlank(c)
               then At(HeaderLws, WithLast(t, t.fields.last.(folds := Snoc(t.fields.last.folds, Fold([c], "")))))
               else At(HeaderName, t.(fields := Snoc(t.fields, Field([c], "", Nil))))
    ensures c != '\r' && !IsBlank(c) ==> IsTokenChar(c)
  {
  }

  lemma StepExtendsLineStart(t: Tree, c: char)
    requires Shape(HeaderLineStart, t) && TreeStep(HeaderLineStart, t, c).At?
    ensures var p := TreeStep(HeaderLineStart, t, c);
            Shape(p.state, p.tree) && Partial(p.state, p.tree) == Partial(HeaderLineStart, t) + [c]
  {
    LineStartMoves(t, c);
    if IsBlank(c) {
      FoldOpened(t, c);
    } else if c == '\r' {
      LastLineOpened(t);
    } else {
      NameOpened(t, c);
    }
  }

  lemma StepExtendsLws(t: Tree, c: char)
    requires Shape(HeaderLws, t) && TreeStep(HeaderLws, t, c).At?
    ensures var p := TreeStep(HeaderLws, t, c);
            Shape(p.state, p.tree) && Partial(p.state, p.tree) == Partial(HeaderLws, t) + [c]
  {
    if IsBlank(c) {
      BlankAppended(t, c);
    } else if c != '\r' {
      ValueAppended(t, c);
    }
  }

  lemma StepExtendsName(t: Tree, c: char)
    requires Shape(HeaderName, t) && TreeStep(HeaderName, t, c).At?
    ensures var p := TreeStep(HeaderName, t, c);
            Shape(p.state, p.tree) && Partial(p.state, p.tree) == Partial(HeaderName, t) + [c]
  {
    Text.Assoc(FieldsHead(t), t.fields.last.name, [c]);
  }

  lemma StepExtendsSpace(t: Tree, c: char)
    requires Shape(SpaceBeforeValue, t) && TreeStep(SpaceBeforeValue, t, c).At?
    ensures var p := TreeStep(SpaceBeforeValue, t, c);
            Shape(p.state, p.tree) && Partial(p.state, p.tree) == Partial(SpaceBeforeValue, t) + [c]
  {
    var f := t.fields.last;
    assert FieldsHead(t) + f.name + ":" + [c] == FieldsHead(t) + (f.name + ": " + "" + "");
  }

  lemma StepExtendsValue(t: Tree, c: char)
    requires Shape(HeaderValue, t) && TreeStep(HeaderValue, t, c).At?
    ensures var p := TreeStep(HeaderValue, t, c);
            Shape(p.state, p.tree) && Partial(p.state, p.tree) == Partial(HeaderValue, t) + [c]
  {
    if c != '\r' {
      ValueAppended(t, c);
    }
  }

  lemma StepExtends(state: State, t: Tree, c: char)
    requires Shape(state, t) && TreeStep(state, t, c).At?
    ensures var p := TreeStep(state, t, c);
            Shape(p.state, p.tree) && Partial(p.state, p.tree) == Partial(state, t) + [c]
  {
    if state in {MethodStart, Method, Uri} {
      StepExtendsMethod(state, t, c);
    } else if state in {VersionH, VersionT1, VersionT2, VersionP, VersionSlash} {
      StepExtendsMark(state, t, c);
    } else if state in {MajorStart, Major, MinorStart, Minor} {
      StepExtendsVersion(state, t, c);
    } else if state in {Newline1, Newline2, Newline3} {
      StepExtendsNewline(state, t, c);
    } else if state == HeaderLineStart {
      StepExtendsLineStart(t, c);
    } else if state == HeaderLws {
      StepExtendsLws(t, c);
    } else if state == HeaderName {
      StepExtendsName(t, c);
    } else if state == HeaderValue {
      StepExtendsValue(t, c);
    } else {
      StepExtendsSpace(t, c);
    }
  }

  // One byte backwards

  /** The control state and tree one byte earlier. */
  datatype Before = Before(state: State, tree: Tree, byte: char)

  function Front(s: string): string
    requires s != ""
  {
    s[..|s| - 1]
  }

  function Last(s: string): char
    requires s != ""
  {
    s[|s| - 1]
  }

  lemma FrontLast(s: string)
    requires s != ""
    ensures s == Front(s) + [Last(s)]
  {
  }

  function ShrinkText(d: Fold): Fold
    requires d.text != ""
  {
    d.(text := Front(d.text))
  }

  function UndoValue(t: Tree): Before
    requires OpenValue(t)
  {
    var f := t.fields.last;
    if f.folds != Nil then
      var d := f.folds.last;
      Before(if |d.text| == 1 then HeaderLws else HeaderValue,
             WithLast(t, f.(folds := Snoc(f.folds.front, ShrinkText(d)))), Last(d.text))
    else if f.value == "" then Before(SpaceBeforeValue, t, ' ')
    else Before(HeaderValue, WithLast(t, f.(value := Front(f.value))), Last(f.value))
  }

  function UndoBlanks(t: Tree): Before
    requires OpenBlanks(t)
  {
    var f := t.fields.last;
    var d := f.folds.last;
    if |d.blanks| == 1 then Before(HeaderLineStart, WithLast(t, f.(folds := f.folds.front)), d.blanks[0])
    else Before(HeaderLws, WithLast(t, f.(folds := Snoc(f.folds.front, d.(blanks := Front(d.blanks))))), Last(d.blanks))
  }

  function UndoName(t: Tree): Before
    requires OpenName(t)
  {
    var f := t.fields.last;
    if |f.name| == 1 then Before(HeaderLineStart, t.(fields := t.fields.front), f.name[0])
    else Before(HeaderName, WithLast(t, f.(name := Front(f.name))), Last(f.name))
  }

  /** Undoes one step: the inverse of `TreeStep` on every shape. */
  function Undo(state: State, t: Tree): Before
    requires Shape(state, t) && state != MethodStart
  {
    match state
    case Method => Before(if |t.verb| == 1 then MethodStart else Method, t.(verb := Front(t.verb)), Last(t.verb))
    case Uri => if t.uri == "" then Before(Method, t, ' ') else Before(Uri, t.(uri := Front(t.uri)), Last(t.uri))
    case VersionH => Before(Uri, t, ' ')
    case VersionT1 => Before(VersionH, t, 'H')
    case VersionT2 => Before(VersionT1, t, 'T')
    case VersionP => Before(VersionT2, t, 'T')
    case VersionSlash => Before(VersionP, t, 'P')
    case MajorStart => Before(VersionSlash, t, '/')
    case Major => Before(if |t.major| == 1 then MajorStart else Major, t.(major := Front(t.major)), Last(t.major))
    case MinorStart => Before(Major, t, '.')
    case Minor => Before(if |t.minor| == 1 then MinorStart else Minor, t.(minor := Front(t.minor)), Last(t.minor))
    case Newline1 => Before(Minor, t, '\r')
    case HeaderLineStart => Before(if t.fields == Nil then Newline1 else Newline2, t, '\n')
    case HeaderName => UndoName(t)
    case SpaceBeforeValue => Before(HeaderName, t, ':')
    case HeaderValue => UndoValue(t)
    case HeaderLws => UndoBlanks(t)
    case Newline2 => Before(if OpenValue(t) then HeaderValue else HeaderLws, t, '\r')
    case Newline3 => Before(HeaderLineStart, t, '\r')
  }

  predicate Undone(state: State, t: Tree)
    requires Shape(state, t) && state != MethodStart
  {
    var b := Undo(state, t);
    Shape(b.state, b.tree) && TreeStep(b.state, b.tree, b.byte) == At(state, t)
  }

  lemma UndoneMajor(state: State, t: Tree)
    requires state in {Major, MinorStart} && Shape(state, t)
    ensures Undone(state, t)
  {
    FrontLast(t.major);
    assert Text.AllDigits(Front(t.major)) && Text.IsDigit(Last(t.major));
  }

  lemma UndoneMinor(state: State, t: Tree)
    requires state in {Minor, Newline1} && Shape(state, t)
    ensures Undone(state, t)
  {
    FrontLast(t.minor);
    assert Text.AllDigits(Front(t.minor)) && Text.IsDigit(Last(t.minor));
  }

  lemma UndoneTarget(state: State, t: Tree)
    requires state in {Method, Uri} && Shape(state, t)
    ensures Undone(state, t)
  {
    FrontLast(t.verb);
    if t.uri != "" {
      FrontLast(t.uri);
    }
  }

  lemma UndoneMark(state: State, t: Tree)
    requires state in {VersionH, VersionT1, VersionT2, VersionP, VersionSlash, MajorStart}
    requires Shape(state, t)
    ensures Undone(state, t)
  {
  }

  lemma UndoneFirstNameChar(t: Tree)
    requires Shape(HeaderName, t) && |t.fields.last.name| == 1
    ensures Undone(HeaderName, t)
  {
    var f := t.fields.last;
    assert f.name == [f.name[0]];
    assert f == Field([f.name[0]], "", Nil);
  }

  lemma UndoneNameChar(t: Tree)
    requires Shape(HeaderName, t) && |t.fields.last.name| > 1
    ensures Undone(HeaderName, t)
  {
    var f := t.fields.last;
    FrontLast(f.name);
    assert IsToken(Front(f.name)) && IsTokenChar(Last(f.name));
    assert f == f.(name := Front(f.name)).(name := Front(f.name) + [Last(f.name)]);
  }

  lemma UndonePlainValue(t: Tree)
    requires Shape(HeaderValue, t) && t.fields.last.folds == Nil
    ensures Undone(HeaderValue, t)
  {
    if t.fields.last.value != "" {
      FrontLast(t.fields.last.value);
    }
  }

  lemma ShrunkText(d: Fold)
    requires ValidFold(d) && d.text != ""
    ensures var e := ShrinkText(d);
            ValidFold(e) && GrowFold(e, "", [Last(d.text)]) == d && !IsCtl(Last(d.text))
            && (|d.text| == 1 <==> e.text == "") && (|d.text| == 1 ==> Last(d.text) != ' ')
  {
    FrontLast(d.text);
    assert d.blanks + "" == d.blanks;
  }

  lemma ShrunkField(t: Tree)
    requires OpenValue(t) && t.fields.last.folds != Nil
    ensures var f := t.fields.last;
            var d := f.folds.last;
            var u := WithLast(t, f.(folds := Snoc(f.folds.front, ShrinkText(d))));
            && ValidTree(u) && Grow(ValueChar, u, Last(d.text)) == t
            && (if |d.text| == 1 then OpenBlanks(u) else OpenValue(u))
  {
    ShrunkText(t.fields.last.folds.last);
  }

  lemma TextMoves(c: char)
    requires !IsCtl(c)
    ensures Transition(HeaderValue, true, c) == Go(HeaderValue, ValueChar)
    ensures c != ' ' ==> Transition(HeaderLws, true, c) == Go(HeaderValue, ValueChar)
  {
  }

  lemma UndoneFirstText(t: Tree)
    requires Shape(HeaderValue, t) && t.fields.last.folds != Nil && |t.fields.last.folds.last.text| == 1
    ensures Undone(HeaderValue, t)
  {
    var b := UndoValue(t);
    ShrunkText(t.fields.last.folds.last);
    ShrunkField(t);
    TextMoves(b.byte);
    assert b.state == HeaderLws && OpenBlanks(b.tree) && Grow(ValueChar, b.tree, b.byte) == t;
  }

  lemma UndoneNextText(t: Tree)
    requires Shape(HeaderValue, t) && t.fields.last.folds != Nil && |t.fields.last.folds.last.text| > 1
    ensures Undone(HeaderValue, t)
  {
    var b := UndoValue(t);
    ShrunkText(t.fields.last.folds.last);
    ShrunkField(t);
    TextMoves(b.byte);
    assert b.state == HeaderValue && OpenValue(b.tree) && Grow(ValueChar, b.tree, b.byte) == t;
  }

  lemma UndoneFirstBlank(t: Tree)
    requires Shape(HeaderLws, t) && |t.fields.last.folds.last.blanks| == 1
    ensures Undone(HeaderLws, t)
  {
    var d := t.fields.last.folds.last;
    assert d.blanks == [d.blanks[0]];
    assert d == Fold([d.blanks[0]], "");
  }

  lemma UndoneNextBlank(t: Tree)
    requires Shape(HeaderLws, t) && |t.fields.last.folds.last.blanks| > 1
    ensures Undone(HeaderLws, t)
  {
    var f := t.fields.last;
    var d := f.folds.last;
    var e := d.(blanks := Front(d.blanks));
    var g := f.(folds := Snoc(f.folds.front, e));
    FrontLast(d.blanks);
    assert ValidFold(e) && ValidField(g);
    assert GrowFold(e, [Last(d.blanks)], "") == d;
    assert WithLast(WithLast(t, g), f) == t;
  }

  lemma UndoneRest(state: State, t: Tree)
    requires state in {HeaderLineStart, SpaceBeforeValue, Newline2, Newline3} && Shape(state, t)
    ensures Undone(state, t)
  {
  }

  lemma UndoInverts(state: State, t: Tree)
    requires Shape(state, t) && state != MethodStart
    ensures Undone(state, t)
  {
    if state in {Major, MinorStart} {
      UndoneMajor(state, t);
    } else if state in {Minor, Newline1} {
      UndoneMinor(state, t);
    } else if state == HeaderName {
      if |t.fields.last.name| == 1 {
        UndoneFirstNameChar(t);
      } else {
        UndoneNameChar(t);
      }
    } else if state == HeaderValue {
      if t.fields.last.folds == Nil {
        UndonePlainValue(t);
      } else if |t.fields.last.folds.last.text| == 1 {
        UndoneFirstText(t);
      } else {
        UndoneNextText(t);
      }
    } else if state == HeaderLws {
      if |t.fields.last.folds.last.blanks| == 1 {
        UndoneFirstBlank(t);
      } else {
        UndoneNextBlank(t);
      }
    } else if state in {HeaderLineStart, SpaceBeforeValue, Newline2, Newline3} {
      UndoneRest(state, t);
    } else if state in {Method, Uri} {
      UndoneTarget(state, t);
    } else {
      UndoneMark(state, t);
    }
  }

  // Whole inputs

  /** Progress accounts for exactly the bytes of `w`. */
  predicate Tracks(p: Progress, w: string) {
    match p
    case Dead => true
    case At(state, t) => Shape(state, t) && Partial(state, t) == w
    case Done(t) => ValidTree(t) && Render(t) == w
  }

  lemma StepTracks(state: State, t: Tree, c: char)
    requires Shape(state, t)
    ensures Tracks(TreeStep(state, t, c), Partial(state, t) + [c])
  {
    var p := TreeStep(state, t, c);
    if p.At? {
      StepExtends(state, t, c);
    } else if p.Done? {
      var body := RenderLine(t) + RenderFields(t.fields);
      Text.Assoc(body, "\r", "\n");
      assert ['\r'] + ['\n'] == "\r\n";
    }
  }

  /** The tree machine over a whole input. */
  function TreeRun(w: string): (p: Progress)
    ensures Tracks(p, w)
  {
    if w == "" then At(MethodStart, EMPTY)
    else
      match TreeRun(Front(w))
      case At(state, t) =>
        FrontLast(w);
        StepTracks(state, t, Last(w));
        TreeStep(state, t, Last(w))
      case _ => Dead
  }

  /** Every rendering of a well-shaped tree drives the machine back to that tree. */
  lemma {:induction false} RunOnPartial(state: State, t: Tree)
    requires Shape(state, t)
    ensures TreeRun(Partial(state, t)) == At(state, t)
    decreases |Partial(state, t)|
  {
    if state != MethodStart {
      UndoInverts(state, t);
      var b := Undo(state, t);
      StepExtends(b.state, b.tree, b.byte);
      RunOnPartial(b.state, b.tree);
      assert Front(Partial(state, t)) == Partial(b.state, b.tree);
    }
  }

  lemma RunOnRender(t: Tree)
    requires ValidTree(t)
    ensures TreeRun(Render(t)) == Done(t)
  {
    RunOnPartial(Newline3, t);
    var w := Render(t);
    assert Front(w) == Partial(Newline3, t);
  }
}
