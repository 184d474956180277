/** Strings as the server uses them: searching, joining, decimal numbers and
    string-to-string maps. A byte is the `char` with the same code. */
module Text {

  /** `std::string::find` for one character; `npos` is rendered as `|s|`. */
  function Find(s: string, c: char): (i: nat)
    ensures i <= |s|
    ensures c !in s[..i]
    ensures i < |s| ==> s[i] == c
  {
    if s == "" || s[0] == c then 0
    else
      var i := 1 + Find(s[1..], c);
      assert s[..i] == [s[0]] + s[1..][..i - 1];
      i
  }

  /** The first occurrence is the only position with a `c`-free prefix before it. */
  lemma FindIs(s: string, c: char, i: nat)
    requires i <= |s| && c !in s[..i]
    requires i < |s| ==> s[i] == c
    ensures Find(s, c) == i
  {
    var k := Find(s, c);
    forall j | 0 <= j < i ensures s[j] != c {
      assert s[j] in s[..i];
    }
    forall j | 0 <= j < k ensures s[j] != c {
      assert s[j] in s[..k];
    }
  }

  lemma Assoc<T>(a: seq<T>, b: seq<T>, c: seq<T>)
    ensures a + (b + c) == a + b + c
  {
  }

  /** The concatenation of `parts`, in order. */
  function Flatten(parts: seq<string>): string {
    if parts == [] then "" else Flatten(parts[..|parts| - 1]) + parts[|parts| - 1]
  }

  lemma {:induction false} FlattenAppend(a: seq<string>, b: seq<string>)
    ensures Flatten(a + b) == Flatten(a) + Flatten(b)
  {
    if b == [] {
      assert a + b == a;
    } else {
      var n := |b| - 1;
      FlattenAppend(a, b[..n]);
      var all, init := a + b, a + b[..n];
      assert all == init + [b[n]] && all[..|all| - 1] == init && all[|all| - 1] == b[n];
      assert Flatten(a) + (Flatten(b[..n]) + b[n]) == Flatten(a) + Flatten(b[..n]) + b[n];
    }
  }

  // Decimal numerals

  predicate IsDigit(c: char) {
    '0' <= c <= '9'
  }

  predicate AllDigits(s: string) {
    forall i | 0 <= i < |s| :: IsDigit(s[i])
  }

  function DigitValue(c: char): int {
    c as int - '0' as int
  }

  /** The value of a digit run, most significant digit first. */
  function DecimalValue(s: string): int {
    if s == "" then 0
    else DecimalValue(s[..|s| - 1]) * 10 + DigitValue(s[|s| - 1])
  }

  /** `std::to_string` on a size. */
  function Decimal(n: nat): (s: string)
    ensures s != "" && AllDigits(s)
  {
    var digit := [('0' as int + n % 10) as char];
    if n < 10 then digit else Decimal(n / 10) + digit
  }

  lemma {:induction false} DecimalRoundTrip(n: nat)
    ensures DecimalValue(Decimal(n)) == n
  {
    var s := Decimal(n);
    if n >= 10 {
      DecimalRoundTrip(n / 10);
      assert s[..|s| - 1] == Decimal(n / 10);
    } else {
      assert s[..0] == "";
    }
  }

  function PowerOfTen(n: nat): nat {
    if n == 0 then 1 else 10 * PowerOfTen(n - 1)
  }

  /** Each digit counts for its power of ten. */
  lemma {:induction false} Positional(c: char, s: string)
    ensures DecimalValue([c] + s) == DigitValue(c) * PowerOfTen(|s|) + DecimalValue(s)
  {
    var all, n := [c] + s, |s|;
    if s == "" {
      assert all[..0] == "";
    } else {
      Positional(c, s[..n - 1]);
      assert all[..n] == [c] + s[..n - 1] && all[n] == s[n - 1];
      TimesTen(DigitValue(c), PowerOfTen(n - 1));
    }
  }

  lemma TimesTen(d: int, p: nat)
    ensures d * p * 10 == d * (10 * p)
  {
  }

  /** The numeral of a size has no leading zero. */
  lemma {:induction false} DecimalCanonical(n: nat)
    ensures if n < 10 then |Decimal(n)| == 1 else Decimal(n)[0] != '0'
  {
    if n >= 10 {
      DecimalCanonical(n / 10);
      if n < 100 {
        var first := n / 10;
        assert Decimal(first) == [('0' as int + first % 10) as char];
      }
    }
  }

  lemma {:induction false} DecimalValueNonNegative(s: string)
    requires AllDigits(s)
    ensures DecimalValue(s) >= 0
  {
    if s != "" {
      DecimalValueNonNegative(s[..|s| - 1]);
    }
  }

  /** Leading zeros carry no value. */
  lemma {:induction false} LeadingZero(s: string)
    ensures DecimalValue("0" + s) == DecimalValue(s)
  {
    if s == "" {
      assert ("0" + s)[..0] == "" && ("0" + s)[0] == '0';
    } else {
      LeadingZero(s[..|s| - 1]);
      assert ("0" + s)[..|s|] == "0" + s[..|s| - 1];
    }
  }

  // Association lists

  /** The map left behind by `m[key] = value` over the list: the last entry for a key wins. */
  function MapOf(entries: seq<(string, string)>): map<string, string> {
    if entries == [] then map[]
    else
      var last := entries[|entries| - 1];
      MapOf(entries[..|entries| - 1])[last.0 := last.1]
  }

  /** Only keys that occur are mapped. */
  lemma {:induction false} MapOfKeys(entries: seq<(string, string)>, key: string)
    ensures key in MapOf(entries) <==> exists i :: 0 <= i < |entries| && entries[i].0 == key
  {
    if entries != [] {
      var n := |entries| - 1;
      MapOfKeys(entries[..n], key);
      if key in MapOf(entries[..n]) {
        var i :| 0 <= i < n && entries[..n][i].0 == key;
        assert entries[i].0 == key;
      }
    }
  }

  /** A key maps to a value it occurs with. */
  lemma {:induction false} MapOfEntry(entries: seq<(string, string)>, key: string)
    requires key in MapOf(entries)
    ensures (key, MapOf(entries)[key]) in entries
  {
    var n := |entries| - 1;
    if entries[n].0 != key {
      MapOfEntry(entries[..n], key);
    } else {
      assert entries[n] == (key, MapOf(entries)[key]);
    }
  }

  /** A key maps to the value of its last occurrence. */
  lemma {:induction false} MapOfLastWins(entries: seq<(string, string)>, i: nat)
    requires i < |entries| && forall j | i < j < |entries| :: entries[j].0 != entries[i].0
    ensures entries[i].0 in MapOf(entries) && MapOf(entries)[entries[i].0] == entries[i].1
  {
    var n := |entries| - 1;
    if i < n {
      assert entries[n].0 != entries[i].0;
      MapOfLastWins(entries[..n], i);
    }
  }
}
