/** Percent decoding (src/lib/url.cpp). Escapes are those of section 2.1 of RFC
    3986; in addition '+' stands for a space. */
module Url {

  predicate IsHexDigit(c: char) {
    '0' <= c <= '9' || 'a' <= c <= 'f' || 'A' <= c <= 'F'
  }

  function HexValue(c: char): (v: nat)
    requires IsHexDigit(c)
    ensures v < 16
  {
    if '0' <= c <= '9' then c as int - '0' as int
    else if 'a' <= c <= 'f' then c as int - 'a' as int + 10
    else c as int - 'A' as int + 10
  }

  // What an encoded string says

  /** One way of writing one byte. */
  datatype Written = Plain(c: char) | Plus | Escape(hi: char, lo: char)

  predicate ValidUnit(u: Written) {
    match u
    case Plain(c) => c != '%' && c != '+'
    case Plus => true
    case Escape(hi, lo) => IsHexDigit(hi) && IsHexDigit(lo)
  }

  function SpellUnit(u: Written): string {
    match u
    case Plain(c) => [c]
    case Plus => "+"
    case Escape(hi, lo) => ['%', hi, lo]
  }

  function UnitMeaning(u: Written): char
    requires ValidUnit(u)
  {
    match u
    case Plain(c) => c
    case Plus => ' '
    case Escape(hi, lo) => (16 * HexValue(hi) + HexValue(lo)) as char
  }

  predicate ValidUnits(us: seq<Written>) {
    forall i | 0 <= i < |us| :: ValidUnit(us[i])
  }

  function Spell(us: seq<Written>): string {
    if us == [] then "" else SpellUnit(us[0]) + Spell(us[1..])
  }

  function Meaning(us: seq<Written>): (s: string)
    requires ValidUnits(us)
    ensures |s| == |us|
  {
    seq(|us|, i requires 0 <= i < |us| => UnitMeaning(us[i]))
  }

  function Escapes(us: seq<Written>): nat {
    if us == [] then 0 else (if us[0].Escape? then 1 else 0) + Escapes(us[1..])
  }

  // The decoder

  /** `text` is what was decoded before success or failure. */
  datatype Decoded = Decoded(ok: bool, text: string)

  predicate StartsWithEscape(e: string) {
    |e| > 2 && e[0] == '%' && IsHexDigit(e[1]) && IsHexDigit(e[2])
  }

  function Prepend(head: string, d: Decoded): Decoded {
    Decoded(d.ok, head + d.text)
  }

  function Decode(e: string): Decoded {
    if e == "" then Decoded(true, "")
    else if e[0] == '%' then
      if StartsWithEscape(e) then Prepend([UnitMeaning(Escape(e[1], e[2]))], Decode(e[3..]))
      else Decoded(false, "")
    else if e[0] == '+' then Prepend(" ", Decode(e[1..]))
    else Prepend([e[0]], Decode(e[1..]))
  }

  lemma UnitsCons(u: Written, tail: seq<Written>)
    requires ValidUnit(u) && ValidUnits(tail)
    ensures var us := [u] + tail;
            && ValidUnits(us) && Spell(us) == SpellUnit(u) + Spell(tail)
            && Meaning(us) == [UnitMeaning(u)] + Meaning(tail)
  {
    assert ([u] + tail)[1..] == tail;
  }

  /** The units a decodable string is made of. */
  lemma {:induction false} DecodeSound(e: string) returns (us: seq<Written>)
    requires Decode(e).ok
    ensures ValidUnits(us) && Spell(us) == e && Meaning(us) == Decode(e).text
  {
    if e == "" {
      us := [];
    } else {
      var u := if e[0] == '%' then Escape(e[1], e[2]) else if e[0] == '+' then Plus else Plain(e[0]);
      var rest := e[|SpellUnit(u)|..];
      var tail := DecodeSound(rest);
      us := [u] + tail;
      UnitsCons(u, tail);
      assert SpellUnit(u) == e[..|SpellUnit(u)|];
    }
  }

  lemma {:induction false} DecodeComplete(us: seq<Written>)
    requires ValidUnits(us)
    ensures Decode(Spell(us)) == Decoded(true, Meaning(us))
  {
    if us != [] {
      var e, unit := Spell(us), SpellUnit(us[0]);
      DecodeComplete(us[1..]);
      assert e[|unit|..] == Spell(us[1..]);
      assert Meaning(us) == [UnitMeaning(us[0])] + Meaning(us[1..]);
    }
  }

  /** Decoding succeeds with `s` exactly on the encodings of `s`. */
  lemma DecodesTo(e: string, s: string)
    ensures Decode(e) == Decoded(true, s) <==>
            exists us :: ValidUnits(us) && Spell(us) == e && Meaning(us) == s
  {
    if Decode(e) == Decoded(true, s) {
      var us := DecodeSound(e);
    }
    forall us | ValidUnits(us) && Spell(us) == e && Meaning(us) == s
      ensures Decode(e) == Decoded(true, s)
    {
      DecodeComplete(us);
    }
  }

  /** An encoded string splits into units in one way. */
  lemma {:induction false} UniqueUnits(us: seq<Written>, vs: seq<Written>)
    requires ValidUnits(us) && ValidUnits(vs) && Spell(us) == Spell(vs)
    ensures us == vs
  {
    if us == [] {
      assert vs != [] ==> |Spell(vs)| > 0;
    } else {
      assert |Spell(us)| > 0;
      assert vs != [];
      var e := Spell(us);
      assert e[0] == SpellUnit(us[0])[0] && e[0] == SpellUnit(vs[0])[0];
      assert us[0].Escape? ==> e[1] == us[0].hi && e[2] == us[0].lo;
      assert vs[0].Escape? ==> e[1] == vs[0].hi && e[2] == vs[0].lo;
      assert us[0] == vs[0];
      assert e[|SpellUnit(us[0])|..] == Spell(us[1..]) && e[|SpellUnit(us[0])|..] == Spell(vs[1..]);
      UniqueUnits(us[1..], vs[1..]);
      assert us == [us[0]] + us[1..] && vs == [vs[0]] + vs[1..];
    }
  }

  /** Each escape shortens the text by two. */
  lemma {:induction false} DecodedLength(us: seq<Written>)
    requires ValidUnits(us)
    ensures |Meaning(us)| == |Spell(us)| - 2 * Escapes(us)
  {
    if us != [] {
      DecodedLength(us[1..]);
    }
  }

  /** After a decodable string decoding goes on as if it started there. */
  lemma {:induction false} DecodeAppend(a: string, b: string)
    requires Decode(a).ok
    ensures Decode(a + b) == Prepend(Decode(a).text, Decode(b))
  {
    if a == "" {
      assert a + b == b;
      assert "" + Decode(b).text == Decode(b).text;
    } else {
      var n := if a[0] == '%' then 3 else 1;
      var head := if a[0] == '%' then [UnitMeaning(Escape(a[1], a[2]))] else if a[0] == '+' then " " else [a[0]];
      assert (a + b)[n..] == a[n..] + b;
      assert (a + b)[0] == a[0] && (n == 3 ==> (a + b)[1] == a[1] && (a + b)[2] == a[2]);
      assert Decode(a + b) == Prepend(head, Decode(a[n..] + b));
      DecodeAppend(a[n..], b);
      PrependTwice(head, Decode(a[n..]).text, Decode(b));
    }
  }

  // What is decoded, digit by digit

  const LOWER_DIGITS := "0123456789abcdef"
  const UPPER_DIGITS := "0123456789ABCDEF"

  function HexDigit(v: nat, lower: bool): (c: char)
    requires v < 16
  {
    if lower then LOWER_DIGITS[v] else UPPER_DIGITS[v]
  }

  predicate IsDigitFor(c: char, v: nat) {
    v < 16 && (c == LOWER_DIGITS[v] || c == UPPER_DIGITS[v])
  }

  /** The digits are the thirty-two characters, with their values. */
  lemma DigitFor(c: char, v: nat)
    ensures IsDigitFor(c, v) <==> IsHexDigit(c) && HexValue(c) == v
  {
  }

  /** `e` says `c`: as an escape in upper or lower case, as itself, or, a space, as '+'. */
  predicate Says(e: string, c: char) {
    || (|e| == 3 && e[0] == '%' && c as int < 256 && IsDigitFor(e[1], c as int / 16) && IsDigitFor(e[2], c as int % 16))
    || (e == [c] && c != '%' && c != '+')
    || (e == "+" && c == ' ')
  }

  /** `e` says `s` byte by byte. */
  ghost predicate SaysAll(e: string, s: string)
    decreases |s|
  {
    if s == "" then e == ""
    else exists n :: 0 < n <= |e| && Says(e[..n], s[0]) && SaysAll(e[n..], s[1..])
  }

  lemma UnitSays(u: Written)
    requires ValidUnit(u)
    ensures Says(SpellUnit(u), UnitMeaning(u))
  {
    if u.Escape? {
      DigitFor(u.hi, HexValue(u.hi));
      DigitFor(u.lo, HexValue(u.lo));
      EscapeValue(HexValue(u.hi), HexValue(u.lo));
    }
  }

  lemma EscapeValue(hi: nat, lo: nat)
    requires hi < 16 && lo < 16
    ensures (16 * hi + lo) as char as int / 16 == hi && (16 * hi + lo) as char as int % 16 == lo
  {
  }

  lemma SaidUnit(e: string, c: char) returns (u: Written)
    requires Says(e, c)
    ensures ValidUnit(u) && SpellUnit(u) == e && UnitMeaning(u) == c
  {
    if e == "+" && c == ' ' {
      u := Plus;
    } else if |e| == 1 {
      u := Plain(c);
    } else {
      DigitFor(e[1], c as int / 16);
      DigitFor(e[2], c as int % 16);
      u := Escape(e[1], e[2]);
    }
  }

  lemma {:induction false} UnitsSay(us: seq<Written>)
    requires ValidUnits(us)
    ensures SaysAll(Spell(us), Meaning(us))
  {
    if us != [] {
      var e, n := Spell(us), |SpellUnit(us[0])|;
      UnitsSay(us[1..]);
      UnitSays(us[0]);
      assert e[..n] == SpellUnit(us[0]) && e[n..] == Spell(us[1..]);
      assert Meaning(us)[1..] == Meaning(us[1..]);
    }
  }

  lemma FirstSaid(e: string, s: string) returns (head: string, rest: string)
    requires SaysAll(e, s) && s != ""
    ensures e == head + rest && Says(head, s[0]) && SaysAll(rest, s[1..])
  {
    var n :| 0 < n <= |e| && Says(e[..n], s[0]) && SaysAll(e[n..], s[1..]);
    head, rest := e[..n], e[n..];
  }

  lemma {:induction false} SaidUnits(e: string, s: string) returns (us: seq<Written>)
    requires SaysAll(e, s)
    ensures ValidUnits(us) && Spell(us) == e && Meaning(us) == s
    decreases |s|
  {
    if s == "" {
      us := [];
    } else {
      var head, rest := FirstSaid(e, s);
      var u := SaidUnit(head, s[0]);
      var tail := SaidUnits(rest, s[1..]);
      us := [u] + tail;
      UnitsCons(u, tail);
      assert s == [s[0]] + s[1..];
    }
  }

  /** Decoding succeeds with `s` exactly on what says `s`. */
  lemma DecodesWhatIsSaid(e: string, s: string)
    ensures Decode(e) == Decoded(true, s) <==> SaysAll(e, s)
  {
    if Decode(e) == Decoded(true, s) {
      var us := DecodeSound(e);
      UnitsSay(us);
    }
    if SaysAll(e, s) {
      var us := SaidUnits(e, s);
      DecodeComplete(us);
    }
  }

  /** A '%' without two hexadecimal digits after it fails, with what precedes it
      decoded. */
  lemma BadEscape(head: string, tail: string)
    requires Decode(head).ok
    requires |tail| < 2 || tail[0] !in LOWER_DIGITS + UPPER_DIGITS || tail[1] !in LOWER_DIGITS + UPPER_DIGITS
    ensures Decode(head + ("%" + tail)) == Decoded(false, Decode(head).text)
  {
    DecodeAppend(head, "%" + tail);
    if |tail| >= 2 {
      KnownDigit(tail[0]);
      KnownDigit(tail[1]);
    }
    assert Decode(head).text + "" == Decode(head).text;
  }

  lemma KnownDigit(c: char)
    ensures IsHexDigit(c) ==> c in LOWER_DIGITS + UPPER_DIGITS
  {
    if IsHexDigit(c) {
      DigitFor(c, HexValue(c));
      assert LOWER_DIGITS[HexValue(c)] in LOWER_DIGITS && UPPER_DIGITS[HexValue(c)] in UPPER_DIGITS;
    }
  }

  // An encoder

  predicate AreBytes(s: string) {
    forall i | 0 <= i < |s| :: s[i] as int < 256
  }

  /** How one byte is written: the case of each digit, and '+' for a space. */
  datatype Style = Style(lowerHigh: bool, lowerLow: bool, plus: bool)

  function EncodeByte(c: char, safe: set<char>, style: Style): (u: Written)
    requires c as int < 256
  {
    if c in safe then Plain(c)
    else if c == ' ' && style.plus then Plus
    else Escape(HexDigit(c as int / 16, style.lowerHigh), HexDigit(c as int % 16, style.lowerLow))
  }

  lemma ByteEncoded(c: char, safe: set<char>, style: Style)
    requires c as int < 256 && '%' !in safe && '+' !in safe
    ensures var u := EncodeByte(c, safe, style);
            ValidUnit(u) && UnitMeaning(u) == c
  {
    DigitFor(HexDigit(c as int / 16, style.lowerHigh), c as int / 16);
    DigitFor(HexDigit(c as int % 16, style.lowerLow), c as int % 16);
  }

  /** Escapes every byte outside `safe`, each in its own style. */
  function EncodeUnits(s: string, safe: set<char>, styles: seq<Style>): (us: seq<Written>)
    requires AreBytes(s) && |styles| == |s|
  {
    seq(|s|, i requires 0 <= i < |s| => EncodeByte(s[i], safe, styles[i]))
  }

  function Encode(s: string, safe: set<char>, styles: seq<Style>): string
    requires AreBytes(s) && |styles| == |s|
  {
    Spell(EncodeUnits(s, safe, styles))
  }

  lemma UnitsEncoded(s: string, safe: set<char>, styles: seq<Style>)
    requires AreBytes(s) && |styles| == |s| && '%' !in safe && '+' !in safe
    ensures var us := EncodeUnits(s, safe, styles);
            ValidUnits(us) && Meaning(us) == s
  {
    var us := EncodeUnits(s, safe, styles);
    forall i | 0 <= i < |us| ensures ValidUnit(us[i]) && UnitMeaning(us[i]) == s[i] {
      ByteEncoded(s[i], safe, styles[i]);
    }
  }

  /** Whatever is left unescaped, and in whatever style the rest is written, decoding
      undoes encoding ... */
  lemma EncodeDecode(s: string, safe: set<char>, styles: seq<Style>)
    requires AreBytes(s) && |styles| == |s| && '%' !in safe && '+' !in safe
    ensures Decode(Encode(s, safe, styles)) == Decoded(true, s)
  {
    UnitsEncoded(s, safe, styles);
    DecodeComplete(EncodeUnits(s, safe, styles));
  }

  lemma {:induction false} SpelledChars(us: seq<Written>, safe: set<char>)
    requires ValidUnits(us)
    requires forall i | 0 <= i < |us| :: us[i].Plain? ==> us[i].c in safe
    ensures forall c | c in Spell(us) :: c == '%' || c == '+' || IsHexDigit(c) || c in safe
  {
    if us != [] {
      SpelledChars(us[1..], safe);
    }
  }

  /** ... and the encoding contains nothing but safe bytes, '%', '+' and hex digits. */
  lemma EncodedChars(s: string, safe: set<char>, styles: seq<Style>)
    requires AreBytes(s) && |styles| == |s| && '%' !in safe && '+' !in safe
    ensures forall c | c in Encode(s, safe, styles) :: c == '%' || c == '+' || IsHexDigit(c) || c in safe
  {
    UnitsEncoded(s, safe, styles);
    SpelledChars(EncodeUnits(s, safe, styles), safe);
  }

  /** The loop. On failure `output` holds what was decoded so far. */
  method UrlDecode(input: string) returns (ok: bool, output: string)
    ensures Decode(input) == Decoded(ok, output)
  {
    output := "";
    var i := 0;
    while i < |input|
      invariant i <= |input|
      invariant Decode(input) == Prepend(output, Decode(input[i..]))
    {
      ghost var rest := input[i..];
      if input[i] == '%' {
        if i + 2 >= |input| {
          assert output + "" == output;
          return false, output;
        }
        if !IsHexDigit(input[i + 1]) || !IsHexDigit(input[i + 2]) {
          assert output + "" == output;
          return false, output;
        }
        var value := 16 * HexValue(input[i + 1]) + HexValue(input[i + 2]);
        assert rest[3..] == input[i + 3..];
        PrependTwice(output, [value as char], Decode(input[i + 3..]));
        output := output + [value as char];
        i := i + 2;
      } else if input[i] == '+' {
        assert rest[1..] == input[i + 1..];
        PrependTwice(output, " ", Decode(input[i + 1..]));
        output := output + " ";
      } else {
        assert rest[1..] == input[i + 1..];
        PrependTwice(output, [input[i]], Decode(input[i + 1..]));
        output := output + [input[i]];
      }
      i := i + 1;
    }
    assert output + "" == output;
    ok := true;
  }

  lemma PrependTwice(a: string, b: string, d: Decoded)
    ensures Prepend(a, Prepend(b, d)) == Prepend(a + b, d)
  {
    assert a + (b + d.text) == a + b + d.text;
  }
}
