/** String operations the application relies on, with Python's semantics:
    `str.lower` (ASCII letters), `str.strip` (Python's whitespace set),
    `str(int)` and the `in` substring test. */
module Text {
  import opened Wrappers

  /** The characters for which Python's `str.isspace()` is true. */
  predicate IsSpace(c: char) {
    var n := c as int;
    n == 0x20 || 0x09 <= n <= 0x0D || 0x1C <= n <= 0x1F || n == 0x85 || n == 0xA0
    || n == 0x1680 || 0x2000 <= n <= 0x200A || n == 0x2028 || n == 0x2029
    || n == 0x202F || n == 0x205F || n == 0x3000
  }

  predicate AllSpace(s: string) {
    forall i | 0 <= i < |s| :: IsSpace(s[i])
  }

  predicate IsUpper(c: char) {
    'A' <= c <= 'Z'
  }

  function LowerChar(c: char): (d: char)
    ensures !IsUpper(d)
    ensures IsUpper(c) ==> d as int == c as int + 32
    ensures !IsUpper(c) ==> d == c
    ensures IsSpace(d) <==> IsSpace(c)
  {
    if IsUpper(c) then (c as int + 32) as char else c
  }

  /** `s.lower()` restricted to ASCII letters. */
  function Lower(s: string): (r: string)
    ensures |r| == |s|
    ensures forall i | 0 <= i < |r| :: !IsUpper(r[i])
    ensures forall i | 0 <= i < |s| :: IsUpper(s[i]) ==> r[i] as int == s[i] as int + 32
    ensures forall i | 0 <= i < |s| :: !IsUpper(s[i]) ==> r[i] == s[i]
    ensures forall i | 0 <= i < |s| :: IsSpace(r[i]) <==> IsSpace(s[i])
  {
    seq(|s|, i requires 0 <= i < |s| => LowerChar(s[i]))
  }

  /** Index of the first non-space character at or after `i`. */
  function SkipSpaces(s: string, i: nat): (k: nat)
    requires i <= |s|
    ensures i <= k <= |s|
    ensures forall m | i <= m < k :: IsSpace(s[m])
    ensures k < |s| ==> !IsSpace(s[k])
    decreases |s| - i
  {
    if i < |s| && IsSpace(s[i]) then SkipSpaces(s, i + 1) else i
  }

  /** Index just past the last non-space character of `s[lo..j]`. */
  function BackSpaces(s: string, lo: nat, j: nat): (k: nat)
    requires lo <= j <= |s|
    ensures lo <= k <= j
    ensures forall m | k <= m < j :: IsSpace(s[m])
    ensures k > lo ==> !IsSpace(s[k - 1])
    decreases j
  {
    if j > lo && IsSpace(s[j - 1]) then BackSpaces(s, lo, j - 1) else j
  }

  /** `s.strip()`: `s` without its leading and trailing whitespace. */
  function Strip(s: string): (r: string)
    ensures |r| <= |s|
    ensures r == [] || (!IsSpace(r[0]) && !IsSpace(r[|r| - 1]))
    ensures exists p, q :: s == p + r + q && AllSpace(p) && AllSpace(q)
    ensures forall k | 0 <= k < |r| :: r[k] in s
  {
    var i := SkipSpaces(s, 0);
    var j := BackSpaces(s, i, |s|);
    StripCut(s, i, j);
    s[i..j]
  }

  /** The part between two cuts that pass over whitespace only, and land
      on non-whitespace when the part is not empty, is what `strip()` keeps. */
  lemma StripCut(s: string, i: nat, j: nat)
    requires i <= j <= |s|
    requires forall m | 0 <= m < i :: IsSpace(s[m])
    requires forall m | j <= m < |s| :: IsSpace(s[m])
    requires i < j ==> !IsSpace(s[i]) && !IsSpace(s[j - 1])
    ensures var r := s[i..j];
            && |r| <= |s|
            && (r == [] || (!IsSpace(r[0]) && !IsSpace(r[|r| - 1])))
            && (exists p, q :: s == p + r + q && AllSpace(p) && AllSpace(q))
            && (forall k | 0 <= k < |r| :: r[k] in s)
  {
    CutSplit(s, i, j);
    CutChars(s, i, j);
  }

  /** Whitespace on both sides of the cut. */
  lemma CutSplit(s: string, i: nat, j: nat)
    requires i <= j <= |s|
    requires forall m | 0 <= m < i :: IsSpace(s[m])
    requires forall m | j <= m < |s| :: IsSpace(s[m])
    ensures exists p, q :: s == p + s[i..j] + q && AllSpace(p) && AllSpace(q)
  {
    SplitAround(s, i, j);
    var p, q := s[..i], s[j..];
    assert s == p + s[i..j] + q && AllSpace(p) && AllSpace(q);
  }

  /** The cut's characters come from `s`, and its ends are those of `s`. */
  lemma CutChars(s: string, i: nat, j: nat)
    requires i <= j <= |s|
    requires i < j ==> !IsSpace(s[i]) && !IsSpace(s[j - 1])
    ensures var r := s[i..j];
            && (r == [] || (!IsSpace(r[0]) && !IsSpace(r[|r| - 1])))
            && (forall k | 0 <= k < |r| :: r[k] in s)
  {
    var r := s[i..j];
    assert forall k | 0 <= k < |r| :: r[k] == s[i + k];
  }

  /** Cutting `s` at `i` and `j` leaves whitespace on both sides of the
      middle part when the two cuts only pass over whitespace. */
  lemma SplitAround(s: string, i: nat, j: nat)
    requires i <= j <= |s|
    requires forall m | 0 <= m < i :: IsSpace(s[m])
    requires forall m | j <= m < |s| :: IsSpace(s[m])
    ensures s == s[..i] + s[i..j] + s[j..]
    ensures AllSpace(s[..i]) && AllSpace(s[j..])
    ensures forall k | 0 <= k < j - i :: s[i..j][k] == s[i + k]
    ensures forall k | 0 <= k < j - i :: s[i..j][k] in s
  {
    assert forall m | 0 <= m < i :: s[..i][m] == s[m];
    assert forall m | 0 <= m < |s| - j :: s[j..][m] == s[j + m];
  }

  /** The unique decomposition: any `s == p + t + q` with `p` and `q`
      whitespace and `t` free of whitespace at both ends has `t == Strip(s)`. */
  lemma StripUnique(s: string, p: string, t: string, q: string)
    requires s == p + t + q && AllSpace(p) && AllSpace(q)
    requires t == [] || (!IsSpace(t[0]) && !IsSpace(t[|t| - 1]))
    ensures Strip(s) == t
  {
    var i := SkipSpaces(s, 0);
    var j := BackSpaces(s, i, |s|);
    if t == [] {
      assert forall m | 0 <= m < |s| :: IsSpace(s[m]) by {
        forall m | 0 <= m < |s| ensures IsSpace(s[m]) {
          if m < |p| { assert s[m] == p[m]; } else { assert s[m] == q[m - |p|]; }
        }
      }
      assert i == |s|;
    } else {
      assert s[|p|] == t[0];
      assert s[|p| + |t| - 1] == t[|t| - 1];
      assert forall m | 0 <= m < |p| :: s[m] == p[m];
      assert forall m | |p| + |t| <= m < |s| :: s[m] == q[m - |p| - |t|];
      assert i == |p|;
      assert j == |p| + |t|;
      assert s[i..j] == t;
    }
  }

  /** The name normalisation of the fetch service: `name.lower().strip()`. */
  function Normalize(name: string): (r: string)
    ensures forall i | 0 <= i < |r| :: !IsUpper(r[i])
    ensures r == [] || (!IsSpace(r[0]) && !IsSpace(r[|r| - 1]))
    ensures exists p, q :: Lower(name) == p + r + q && AllSpace(p) && AllSpace(q)
  {
    Strip(Lower(name))
  }

  lemma LowerOfLower(s: string)
    requires forall i | 0 <= i < |s| :: !IsUpper(s[i])
    ensures Lower(s) == s
  {
  }

  /** Normalising a normalised name changes nothing. */
  lemma {:induction false} NormalizeIdempotent(name: string)
    ensures Normalize(Normalize(name)) == Normalize(name)
  {
    var n := Normalize(name);
    LowerOfLower(n);
    StripOfStripped(n);
  }

  /** A string without whitespace at its ends is its own `strip()`. */
  lemma StripOfStripped(t: string)
    requires t == [] || (!IsSpace(t[0]) && !IsSpace(t[|t| - 1]))
    ensures Strip(t) == t
  {
    assert AllSpace([]);
    assert [] + t + [] == t;
    StripUnique(t, [], t, []);
  }

  // ---------------------------------------------------------------------
  // Decimal rendering, as Python's str(int)

  predicate IsDigit(c: char) {
    '0' <= c <= '9'
  }

  predicate AllDigits(s: string) {
    forall i | 0 <= i < |s| :: IsDigit(s[i])
  }

  function DigitChar(d: nat): (c: char)
    requires d < 10
    ensures IsDigit(c)
  {
    ('0' as int + d) as char
  }

  function DigitValue(c: char): (d: nat)
    requires IsDigit(c)
    ensures d < 10 && DigitChar(d) == c
  {
    c as int - '0' as int
  }

  /** Canonical digit strings: non-empty, no leading zero except "0" itself. */
  predicate Canonical(s: string) {
    |s| > 0 && AllDigits(s) && (|s| == 1 || s[0] != '0')
  }

  function NatToDecimal(n: nat): (r: string)
    ensures Canonical(r)
    ensures r[0] == '0' ==> n == 0
    decreases n
  {
    if n < 10 then [DigitChar(n)]
    else
      var prefix := NatToDecimal(n / 10);
      prefix + [DigitChar(n % 10)]
  }

  /** Python's `str(n)` for an integer `n`. */
  function IntToDecimal(n: int): (r: string)
    ensures |r| > 0
    ensures forall i | 0 <= i < |r| :: IsDigit(r[i]) || r[i] == '-'
  {
    if n < 0 then "-" + NatToDecimal(-n) else NatToDecimal(n)
  }

  function DigitsToNat(s: string): nat
    requires AllDigits(s)
    decreases |s|
  {
    if |s| == 0 then 0
    else DigitsToNat(s[..|s| - 1]) * 10 + DigitValue(s[|s| - 1])
  }

  /** The inverse of `IntToDecimal`: accepts exactly the strings it produces. */
  function ParseInt(s: string): Option<int> {
    if |s| > 0 && s[0] == '-' then
      var digits := s[1..];
      var v: int := if Canonical(digits) then DigitsToNat(digits) else 0;
      if Canonical(digits) && digits != "0" then Some(-v) else None
    else if Canonical(s) then Some(DigitsToNat(s) as int)
    else None
  }

  lemma {:induction false} DigitsOfNat(n: nat)
    ensures DigitsToNat(NatToDecimal(n)) == n
    decreases n
  {
    if n >= 10 {
      var prefix := NatToDecimal(n / 10);
      var r := prefix + [DigitChar(n % 10)];
      assert r[..|r| - 1] == prefix;
      DigitsOfNat(n / 10);
    }
  }

  lemma {:induction false} CanonicalPositive(s: string)
    requires Canonical(s) && s != "0"
    ensures DigitsToNat(s) >= 1
    decreases |s|
  {
    if |s| > 1 {
      var prefix := s[..|s| - 1];
      assert prefix[0] == s[0];
      if |prefix| == 1 {
        assert prefix == [s[0]];
        assert DigitsToNat(prefix) == DigitsToNat(prefix[..0]) * 10 + DigitValue(s[0]);
        assert prefix[..0] == [];
      } else {
        CanonicalPositive(prefix);
      }
    }
  }

  lemma {:induction false} NatOfDigits(s: string)
    requires Canonical(s)
    ensures NatToDecimal(DigitsToNat(s)) == s
    decreases |s|
  {
    if |s| == 1 {
      assert s[..0] == [];
    } else {
      var prefix := s[..|s| - 1];
      assert prefix[0] == s[0];
      assert Canonical(prefix);
      assert prefix[0] != '0';
      CanonicalPositive(prefix);
      NatOfDigits(prefix);
      var v := DigitsToNat(prefix);
      var d := DigitValue(s[|s| - 1]);
      assert (v * 10 + d) / 10 == v;
      assert (v * 10 + d) % 10 == d;
      assert s == prefix + [s[|s| - 1]];
    }
  }

  /** `str` then parse gives the integer back. */
  lemma DecimalRoundTrip(n: int)
    ensures ParseInt(IntToDecimal(n)) == Some(n)
  {
    if n < 0 {
      var d := NatToDecimal(-n);
      assert ("-" + d)[1..] == d;
      DigitsOfNat(-n);
    } else {
      DigitsOfNat(n);
    }
  }

  /** Every string the parser accepts is the rendering of its value. */
  lemma DecimalCanonical(s: string)
    requires ParseInt(s).Some?
    ensures IntToDecimal(ParseInt(s).value) == s
  {
    if |s| > 0 && s[0] == '-' {
      var digits := s[1..];
      CanonicalPositive(digits);
      NatOfDigits(digits);
      assert s == "-" + digits;
    } else {
      NatOfDigits(s);
    }
  }

  // ---------------------------------------------------------------------
  // Substrings and splitting

  predicate StartsWith(s: string, prefix: string) {
    |prefix| <= |s| && s[..|prefix|] == prefix
  }

  predicate EndsWith(s: string, suffix: string) {
    |suffix| <= |s| && s[|s| - |suffix|..] == suffix
  }

  /** Python's `needle in hay` for two strings. */
  predicate ContainsSub(hay: string, needle: string) {
    exists i | 0 <= i <= |hay| :: StartsWith(hay[i..], needle)
  }

  /** Text put in front of a string keeps every substring it had. */
  lemma ContainedAfterPrefix(a: string, b: string, needle: string)
    requires ContainsSub(b, needle)
    ensures ContainsSub(a + b, needle)
  {
    var i :| 0 <= i <= |b| && StartsWith(b[i..], needle);
    assert (a + b)[|a| + i..] == b[i..];
  }

  /** A one-character needle is in a string iff the character is. */
  lemma ContainsChar(hay: string, c: char)
    ensures ContainsSub(hay, [c]) <==> c in hay
  {
    if c in hay {
      var i :| 0 <= i < |hay| && hay[i] == c;
      assert hay[i..][..1] == [c];
    }
    if ContainsSub(hay, [c]) {
      var i :| 0 <= i <= |hay| && StartsWith(hay[i..], [c]);
      assert hay[i] == hay[i..][..1][0];
    }
  }

  /** A string without the letter `c` contains no needle that starts with `c`. */
  lemma NotContainedWithoutLetter(hay: string, needle: string)
    requires |needle| > 0
    requires forall k | 0 <= k < |hay| :: hay[k] != needle[0]
    ensures !ContainsSub(hay, needle)
  {
    forall i | 0 <= i <= |hay|
      ensures !StartsWith(hay[i..], needle)
    {
      if i < |hay| {
        assert hay[i..][0] == hay[i];
      }
    }
  }

  /** Position of the last occurrence of `c` in `s`. */
  function LastIndexOf(s: string, c: char): (r: Option<nat>)
    ensures r.Some? ==> (r.value < |s| && s[r.value] == c
                         && forall k | r.value < k < |s| :: s[k] != c)
    ensures r.None? ==> forall k | 0 <= k < |s| :: s[k] != c
    decreases |s|
  {
    if |s| == 0 then None
    else if s[|s| - 1] == c then Some(|s| - 1)
    else LastIndexOf(s[..|s| - 1], c)
  }

  /** Splits at the last occurrence of `sep`; the right part never holds `sep`. */
  function SplitLast(s: string, sep: char): (r: Option<(string, string)>)
    ensures r.Some? ==> (s == r.value.0 + [sep] + r.value.1
                         && forall k | 0 <= k < |r.value.1| :: r.value.1[k] != sep)
  {
    match LastIndexOf(s, sep)
    case None => None
    case Some(k) =>
      assert s == s[..k] + [sep] + s[k + 1..];
      Some((s[..k], s[k + 1..]))
  }

  lemma SplitLastJoin(a: string, sep: char, b: string)
    requires forall k | 0 <= k < |b| :: b[k] != sep
    ensures SplitLast(a + [sep] + b, sep) == Some((a, b))
  {
    var s := a + [sep] + b;
    var r := SplitLast(s, sep);
    assert s[|a|] == sep;
    assert r.Some?;
    var k := LastIndexOf(s, sep).value;
    assert forall m | |a| < m < |s| :: s[m] == b[m - |a| - 1];
    assert k == |a|;
    assert s[..k] == a;
    assert s[k + 1..] == b;
  }

  /** `s` without `prefix` and `suffix`, when it has both. */
  function Between(s: string, prefix: string, suffix: string): (r: Option<string>)
    ensures r.Some? ==> s == prefix + r.value + suffix
  {
    if |prefix| + |suffix| <= |s| && StartsWith(s, prefix) && EndsWith(s, suffix) then
      var mid := s[|prefix|..|s| - |suffix|];
      assert s == s[..|prefix|] + mid + s[|s| - |suffix|..];
      Some(mid)
    else None
  }

  lemma BetweenJoin(prefix: string, mid: string, suffix: string)
    ensures Between(prefix + mid + suffix, prefix, suffix) == Some(mid)
  {
    var s := prefix + mid + suffix;
    assert s[..|prefix|] == prefix;
    assert s[|s| - |suffix|..] == suffix;
    assert s[|prefix|..|s| - |suffix|] == mid;
  }
}
