/**
 * The parts of the Java standard library that the modelled classes rely on,
 * written out as Dafny functions: Integer.parseInt, String.valueOf(int),
 * ASCII case folding, String.contains / indexOf / compareTo / endsWith /
 * replace, equalsIgnoreCase and Collections.reverse.
 *
 * Java's `null` is modelled with `Option`: `None` stands for a null reference.
 */
module JavaLang {

  datatype Option<+T> = None | Some(value: T)

  /** The idiom `if (s == null) s = "";` used by the setters that never store null. */
  function OrEmpty(s: Option<string>): (r: string)
    ensures s.Some? ==> r == s.value
    ensures s.None? ==> r == ""
  {
    match s
    case None => ""
    case Some(v) => v
  }

  const INT_MIN: int := -0x8000_0000
  const INT_MAX: int := 0x7FFF_FFFF

  /** The values of a Java `int`. */
  predicate IsInt32(n: int) {
    INT_MIN <= n <= INT_MAX
  }

  /** The `x < lo ? lo : x > hi ? hi : x` idiom used by the setters and getters. */
  function Clamp(x: int, lo: int, hi: int): (r: int)
    requires lo <= hi
    ensures lo <= r <= hi
    ensures lo <= x <= hi ==> r == x
    ensures x < lo ==> r == lo
    ensures x > hi ==> r == hi
  {
    if x < lo then lo else if x > hi then hi else x
  }

  // ---------------------------------------------------------------------------
  // Decimal text: String.valueOf(int) and Integer.parseInt(String)
  // ---------------------------------------------------------------------------

  predicate IsDigit(c: char) {
    '0' <= c <= '9'
  }

  predicate AllDigits(s: string) {
    forall i :: 0 <= i < |s| ==> IsDigit(s[i])
  }

  function DigitChar(d: nat): char
    requires d < 10
  {
    (d + '0' as int) as char
  }

  function DigitValue(c: char): nat
    requires IsDigit(c)
  {
    c as int - '0' as int
  }

  /** The decimal digits of `n`, without leading zeros ("0" for zero). */
  function NatToDigits(n: nat): string
    decreases n
  {
    if n < 10 then [DigitChar(n)] else NatToDigits(n / 10) + [DigitChar(n % 10)]
  }

  /** String.valueOf(int): a minus sign for negative values, then the digits. */
  function IntToString(n: int): string {
    if n < 0 then "-" + NatToDigits(-n) else NatToDigits(n)
  }

  /** The value of a string of decimal digits, most significant first; leading zeros allowed. */
  function DigitsValue(s: string): nat
    requires AllDigits(s)
    decreases |s|
  {
    if s == [] then 0 else DigitsValue(s[..|s| - 1]) * 10 + DigitValue(s[|s| - 1])
  }

  /**
   * Integer.parseInt: an optional '+' or '-', then one or more decimal digits,
   * denoting a value within the range of `int`; anything else (including null
   * and the empty string) raises NumberFormatException, modelled as `None`.
   * Only ASCII digits are accepted here (Java also accepts other Unicode digits).
   */
  function ParseInt(text: Option<string>): (r: Option<int>)
    ensures r.Some? ==> IsInt32(r.value)
  {
    match text
    case None => None
    case Some(s) =>
      if s == [] then None
      else
        var negative := s[0] == '-';
        var digits := if s[0] == '-' || s[0] == '+' then s[1..] else s;
        if digits == [] || !AllDigits(digits) then None
        else
          var magnitude: int := DigitsValue(digits);
          var v := if negative then -magnitude else magnitude;
          if IsInt32(v) then Some(v) else None
  }

  lemma {:induction false} NatToDigitsWellFormed(n: nat)
    ensures NatToDigits(n) != []
    ensures AllDigits(NatToDigits(n))
    ensures DigitsValue(NatToDigits(n)) == n
    ensures |NatToDigits(n)| > 1 ==> NatToDigits(n)[0] != '0'
    decreases n
  {
    if n >= 10 {
      NatToDigitsWellFormed(n / 10);
      var s := NatToDigits(n);
      assert s[..|s| - 1] == NatToDigits(n / 10);
    }
  }

  /** Integer.parseInt(String.valueOf(n)) == n for every Java int. */
  lemma ParseIntOfIntToString(n: int)
    requires IsInt32(n)
    ensures ParseInt(Some(IntToString(n))) == Some(n)
  {
    if n < 0 {
      NatToDigitsWellFormed(-n);
      assert IntToString(n)[1..] == NatToDigits(-n);
    } else {
      NatToDigitsWellFormed(n);
    }
  }

  /** A positive value is written without a sign and without leading zeros. */
  lemma PositiveIntToString(n: int)
    requires n > 0
    ensures IntToString(n) != [] && AllDigits(IntToString(n))
    ensures IntToString(n)[0] != '0'
  {
    NatToDigitsWellFormed(n);
    if n < 10 {
      assert IntToString(n) == [DigitChar(n)];
    }
  }

  function Pow10(k: nat): (r: nat)
    ensures r >= 1
  {
    if k == 0 then 1 else 10 * Pow10(k - 1)
  }

  /** A value below 10^k has at most k digits; a value of at least 10^k has more than k. */
  lemma {:induction false} NatToDigitsLength(n: nat, k: nat)
    ensures 1 <= k && n < Pow10(k) ==> |NatToDigits(n)| <= k
    ensures Pow10(k) <= n ==> k + 1 <= |NatToDigits(n)|
    decreases k
  {
    if k >= 1 && n >= 10 {
      assert n / 10 < Pow10(k - 1) <==> n < Pow10(k) by {
        assert Pow10(k) == 10 * Pow10(k - 1);
      }
      assert Pow10(k - 1) <= n / 10 <==> Pow10(k) <= n by {
        assert Pow10(k) == 10 * Pow10(k - 1);
      }
      if k == 1 {
        assert Pow10(1) == 10;
      }
      NatToDigitsLength(n / 10, k - 1);
    } else if k >= 1 {
      assert Pow10(k) >= 10 by {
        assert Pow10(k) == 10 * Pow10(k - 1);
      }
    }
  }

  /** A string of digits that starts with '0' denotes less than 10^(length - 1). */
  lemma {:induction false} LeadingZeroValue(s: string)
    requires AllDigits(s) && s != [] && s[0] == '0'
    ensures DigitsValue(s) < Pow10(|s| - 1)
    decreases |s|
  {
    if |s| > 1 {
      var init := s[..|s| - 1];
      LeadingZeroValue(init);
      assert Pow10(|s| - 1) == 10 * Pow10(|init| - 1);
      assert DigitsValue(s) == DigitsValue(init) * 10 + DigitValue(s[|s| - 1]);
    }
  }

  // ---------------------------------------------------------------------------
  // Case folding (ASCII only; Java's toLowerCase/toUpperCase are locale dependent)
  // ---------------------------------------------------------------------------

  function LowerChar(c: char): char {
    if 'A' <= c <= 'Z' then (c as int + 32) as char else c
  }

  function UpperChar(c: char): char {
    if 'a' <= c <= 'z' then (c as int - 32) as char else c
  }

  function ToLowerCase(s: string): (r: string)
    ensures |r| == |s|
    ensures forall i :: 0 <= i < |s| ==> r[i] == LowerChar(s[i])
  {
    seq(|s|, i requires 0 <= i < |s| => LowerChar(s[i]))
  }

  function ToUpperCase(s: string): (r: string)
    ensures |r| == |s|
    ensures forall i :: 0 <= i < |s| ==> r[i] == UpperChar(s[i])
  {
    seq(|s|, i requires 0 <= i < |s| => UpperChar(s[i]))
  }

  /** String.equalsIgnoreCase on a non-null argument, with ASCII folding. */
  predicate EqualsIgnoreCase(a: string, b: string) {
    ToLowerCase(a) == ToLowerCase(b)
  }

  // ---------------------------------------------------------------------------
  // Searching: contains, indexOf, endsWith, replace(target, "")
  // ---------------------------------------------------------------------------

  /** s.contains(t): t occurs in s at some position. */
  predicate Contains(s: string, t: string)
    decreases |s|
  {
    t <= s || (s != [] && Contains(s[1..], t))
  }

  /** The positions at which t occurs in s. */
  predicate OccursAt(s: string, t: string, i: int) {
    0 <= i <= |s| && t <= s[i..]
  }

  lemma {:induction false} ContainsIffOccurs(s: string, t: string)
    ensures Contains(s, t) <==> exists i :: OccursAt(s, t, i)
    decreases |s|
  {
    if t <= s {
      assert OccursAt(s, t, 0);
    }
    if s != [] {
      ContainsIffOccurs(s[1..], t);
      if Contains(s[1..], t) {
        var i :| OccursAt(s[1..], t, i);
        assert s[1..][i..] == s[i + 1..];
        assert OccursAt(s, t, i + 1);
      }
      if exists i :: OccursAt(s, t, i) {
        var i :| OccursAt(s, t, i);
        if i > 0 {
          assert s[1..][i - 1..] == s[i..];
          assert OccursAt(s[1..], t, i - 1);
        }
      }
    } else {
      if exists i :: OccursAt(s, t, i) {
        var i :| OccursAt(s, t, i);
        assert i == 0;
      }
    }
  }

  /** A string shorter than t cannot contain t. */
  lemma {:induction false} ContainsNeedsRoom(s: string, t: string)
    requires |s| < |t|
    ensures !Contains(s, t)
    decreases |s|
  {
    if s != [] {
      ContainsNeedsRoom(s[1..], t);
    }
  }

  /** Every string contains the empty string. */
  lemma ContainsEmpty(s: string)
    ensures Contains(s, "")
  {
  }

  /** Folding both strings to one case keeps every occurrence, so a match survives folding. */
  lemma FoldingKeepsContains(s: string, t: string)
    requires Contains(s, t)
    ensures Contains(ToLowerCase(s), ToLowerCase(t))
    ensures Contains(ToUpperCase(s), ToUpperCase(t))
  {
    ContainsIffOccurs(s, t);
    var i :| OccursAt(s, t, i);
    forall k | 0 <= k < |t|
      ensures ToLowerCase(t)[k] == ToLowerCase(s)[i..][k] && ToUpperCase(t)[k] == ToUpperCase(s)[i..][k]
    {
      assert t[k] == s[i..][k] == s[i + k];
    }
    assert OccursAt(ToLowerCase(s), ToLowerCase(t), i);
    assert OccursAt(ToUpperCase(s), ToUpperCase(t), i);
    ContainsIffOccurs(ToLowerCase(s), ToLowerCase(t));
    ContainsIffOccurs(ToUpperCase(s), ToUpperCase(t));
  }

  /** s.indexOf(t): the least position at which t occurs in s, or -1. */
  function IndexOf(s: string, t: string): (r: int)
    ensures -1 <= r <= |s|
    decreases |s|
  {
    if t <= s then 0
    else if s == [] then -1
    else
      var k := IndexOf(s[1..], t);
      if k < 0 then -1 else k + 1
  }

  lemma {:induction false} IndexOfIsFirstOccurrence(s: string, t: string)
    ensures IndexOf(s, t) == -1 <==> !Contains(s, t)
    ensures IndexOf(s, t) >= 0 ==> OccursAt(s, t, IndexOf(s, t))
    ensures forall j :: 0 <= j < IndexOf(s, t) ==> !OccursAt(s, t, j)
    decreases |s|
  {
    if !(t <= s) && s != [] {
      IndexOfIsFirstOccurrence(s[1..], t);
      var k := IndexOf(s[1..], t);
      if k >= 0 {
        assert s[1..][k..] == s[k + 1..];
        forall j | 0 < j < k + 1
          ensures !OccursAt(s, t, j)
        {
          assert s[1..][j - 1..] == s[j..];
          assert !OccursAt(s[1..], t, j - 1);
        }
      }
    }
  }

  /** s.endsWith(suffix). */
  predicate EndsWith(s: string, suffix: string) {
    |suffix| <= |s| && s[|s| - |suffix|..] == suffix
  }

  /**
   * s.replace(target, ""): every occurrence of a non-empty target, found
   * scanning left to right without overlap, is deleted.
   */
  function RemoveAll(s: string, target: string): (r: string)
    requires target != []
    ensures |r| <= |s|
    decreases |s|
  {
    if s == [] then []
    else if target <= s then RemoveAll(s[|target|..], target)
    else [s[0]] + RemoveAll(s[1..], target)
  }

  /** s.trim(): leading and trailing characters up to U+0020 removed. */
  function Trim(s: string): (r: string)
    ensures |r| <= |s|
  {
    TrimEnd(TrimStart(s))
  }

  function TrimStart(s: string): (r: string)
    ensures |r| <= |s| && r == s[|s| - |r|..]
    ensures r == [] || r[0] > ' '
    decreases |s|
  {
    if s != [] && s[0] <= ' ' then TrimStart(s[1..]) else s
  }

  function TrimEnd(s: string): (r: string)
    ensures |r| <= |s| && r == s[..|r|]
    ensures r == [] || r[|r| - 1] > ' '
    decreases |s|
  {
    if s != [] && s[|s| - 1] <= ' ' then TrimEnd(s[..|s| - 1]) else s
  }

  // ---------------------------------------------------------------------------
  // String.compareTo: lexicographic order on characters, a proper prefix first
  // ---------------------------------------------------------------------------

  /**
   * The value of a.compareTo(b): the difference of the first differing
   * characters, or the difference of the lengths when one is a prefix of
   * the other.
   */
  function CompareTo(a: string, b: string): int
    decreases |a|
  {
    if a == [] || b == [] then |a| - |b|
    else if a[0] != b[0] then a[0] as int - b[0] as int
    else CompareTo(a[1..], b[1..])
  }

  lemma {:induction false} CompareToZeroIffEqual(a: string, b: string)
    ensures CompareTo(a, b) == 0 <==> a == b
    decreases |a|
  {
    if a != [] && b != [] && a[0] == b[0] {
      CompareToZeroIffEqual(a[1..], b[1..]);
      if a[1..] == b[1..] {
        assert a == [a[0]] + a[1..] && b == [b[0]] + b[1..];
      }
    }
  }

  lemma {:induction false} CompareToAntisymmetric(a: string, b: string)
    ensures CompareTo(b, a) == -CompareTo(a, b)
    decreases |a|
  {
    if a != [] && b != [] && a[0] == b[0] {
      CompareToAntisymmetric(a[1..], b[1..]);
    }
  }

  lemma {:induction false} CompareToTransitive(a: string, b: string, c: string)
    requires CompareTo(a, b) <= 0 && CompareTo(b, c) <= 0
    ensures CompareTo(a, c) <= 0
    decreases |a|
  {
    if a != [] && b != [] && c != [] && a[0] == b[0] && b[0] == c[0] {
      CompareToTransitive(a[1..], b[1..], c[1..]);
    }
  }

  /** `a.compareTo(b) <= 0` is a total preorder (indeed a total order) on strings. */
  lemma CompareToTotal(a: string, b: string)
    ensures CompareTo(a, b) <= 0 || CompareTo(b, a) <= 0
  {
    CompareToAntisymmetric(a, b);
  }

  // ---------------------------------------------------------------------------
  // Collections.reverse
  // ---------------------------------------------------------------------------

  function Reverse<T>(s: seq<T>): (r: seq<T>)
    ensures |r| == |s|
    ensures forall i :: 0 <= i < |s| ==> r[i] == s[|s| - 1 - i]
    decreases |s|
  {
    if s == [] then [] else Reverse(s[1..]) + [s[0]]
  }

  lemma {:induction false} ReversePreservesMultiset<T>(s: seq<T>)
    ensures multiset(Reverse(s)) == multiset(s)
    decreases |s|
  {
    if s != [] {
      ReversePreservesMultiset(s[1..]);
      assert s == [s[0]] + s[1..];
    }
  }
}
