/**
 * Text primitives shared by the relay: substring tests (Python's `in` and
 * `startswith`), decimal digits (Python's `str(int)`), fixed-width
 * zero-padded numbers (`strftime`) and Python's whitespace and `str.strip()`.
 * Strings are sequences of Unicode scalar values, so `|s|` is what Python's
 * `len()` returns for a `str`.
 */
module Text {

  /** `p` occurs in `s` at position `i`. */
  predicate StartsAt(s: string, i: nat, p: string)
  {
    i + |p| <= |s| && s[i..i + |p|] == p
  }

  /** Python's `s.startswith(p)`. */
  predicate StartsWith(s: string, p: string)
  {
    StartsAt(s, 0, p)
  }

  /** Python's `p in s` searched from position `i` onwards. */
  function ContainsFrom(s: string, p: string, i: nat): (b: bool)
    decreases |s| - i
    ensures b <==> exists j: nat :: i <= j && StartsAt(s, j, p)
  {
    if i + |p| > |s| then false
    else if StartsAt(s, i, p) then true
    else
      var rest := ContainsFrom(s, p, i + 1);
      assert forall j: nat :: i <= j && StartsAt(s, j, p) ==> i + 1 <= j;
      rest
  }

  /** Python's `p in s` for strings: `p` is a substring of `s`. */
  function Contains(s: string, p: string): (b: bool)
    ensures b <==> exists j: nat :: StartsAt(s, j, p)
  {
    ContainsFrom(s, p, 0)
  }

  // ---------------------------------------------------------------- digits

  predicate IsDigit(c: char)
  {
    '0' <= c <= '9'
  }

  predicate AllDigits(s: string)
  {
    forall i :: 0 <= i < |s| ==> IsDigit(s[i])
  }

  function DigitChar(d: nat): (c: char)
    requires d < 10
    ensures IsDigit(c)
  {
    ('0' as int + d) as char
  }

  function DigitValue(c: char): (d: nat)
    requires IsDigit(c)
    ensures d < 10 && DigitChar(d) == c
  {
    c as int - '0' as int
  }

  /** The number a string of decimal digits denotes (leading zeros allowed). */
  function DecimalValue(s: string): nat
    requires AllDigits(s)
  {
    if s == [] then 0 else DecimalValue(s[..|s| - 1]) * 10 + DigitValue(s[|s| - 1])
  }

  /** Python's `str(n)` for a non-negative integer. */
  function NatToDecimal(n: nat): (s: string)
    ensures |s| > 0 && AllDigits(s)
    ensures s[0] == '0' ==> n == 0
  {
    if n < 10 then [DigitChar(n)] else NatToDecimal(n / 10) + [DigitChar(n % 10)]
  }

  lemma {:induction false} DecimalOfNatToDecimal(n: nat)
    ensures DecimalValue(NatToDecimal(n)) == n
  {
    if n >= 10 {
      var s := NatToDecimal(n);
      assert s[..|s| - 1] == NatToDecimal(n / 10);
      DecimalOfNatToDecimal(n / 10);
    }
  }

  function Pow10(w: nat): (p: nat)
    ensures p >= 1
  {
    if w == 0 then 1 else 10 * Pow10(w - 1)
  }

  /** `n` written with exactly `w` digits, zero-padded on the left (`%02d`, `%04d`). */
  function Padded(n: nat, w: nat): (s: string)
    ensures |s| == w && AllDigits(s)
  {
    if w == 0 then [] else Padded(n / 10, w - 1) + [DigitChar(n % 10)]
  }

  lemma {:induction false} PaddedValue(n: nat, w: nat)
    requires n < Pow10(w)
    ensures DecimalValue(Padded(n, w)) == n
  {
    if w > 0 {
      var s := Padded(n, w);
      assert s[..|s| - 1] == Padded(n / 10, w - 1);
      assert s[|s| - 1] == DigitChar(n % 10);
      assert n / 10 < Pow10(w - 1) by {
        assert Pow10(w) == 10 * Pow10(w - 1);
      }
      PaddedValue(n / 10, w - 1);
      assert n == (n / 10) * 10 + n % 10;
    }
  }

  lemma {:induction false} PaddedOfValue(s: string)
    requires AllDigits(s)
    ensures DecimalValue(s) < Pow10(|s|)
    ensures Padded(DecimalValue(s), |s|) == s
  {
    if s != [] {
      var init := s[..|s| - 1];
      PaddedOfValue(init);
      var v := DecimalValue(s);
      assert v / 10 == DecimalValue(init) && v % 10 == DigitValue(s[|s| - 1]);
      assert s == init + [s[|s| - 1]];
    }
  }

  // ------------------------------------------------------------ sequences

  /** `a` is `b` with some elements left out, the rest kept in order. */
  ghost predicate IsSubsequence<T>(a: seq<T>, b: seq<T>)
    decreases |b|
  {
    a == [] ||
    (b != [] && ((a[|a| - 1] == b[|b| - 1] && IsSubsequence(a[..|a| - 1], b[..|b| - 1]))
                 || IsSubsequence(a, b[..|b| - 1])))
  }

  /** A subsequence of all but the last element is a subsequence of the whole. */
  lemma SubsequenceOfInit<T>(a: seq<T>, b: seq<T>)
    requires b != [] && IsSubsequence(a, b[..|b| - 1])
    ensures IsSubsequence(a, b) && IsSubsequence(a + [b[|b| - 1]], b)
  {
    var c := a + [b[|b| - 1]];
    assert c[..|c| - 1] == a;
  }

  // ------------------------------------------------------------ whitespace

  /** Python's `str.isspace()` for one character: what `str.strip()` removes. */
  predicate IsSpace(c: char)
  {
    || '\t' <= c <= '\r'
    || '\U{1c}' <= c <= '\U{1f}'
    || c == ' '
    || c == '\U{85}'
    || c == '\U{a0}'
    || c == '\U{1680}'
    || '\U{2000}' <= c <= '\U{200a}'
    || c == '\U{2028}'
    || c == '\U{2029}'
    || c == '\U{202f}'
    || c == '\U{205f}'
    || c == '\U{3000}'
  }

  function StripLeft(s: string): string
  {
    if s != [] && IsSpace(s[0]) then StripLeft(s[1..]) else s
  }

  function StripRight(s: string): string
  {
    if s != [] && IsSpace(s[|s| - 1]) then StripRight(s[..|s| - 1]) else s
  }

  /** StripLeft removes the leading run of whitespace and only that. */
  lemma {:induction false} StripLeftSpec(s: string)
    ensures var r := StripLeft(s);
      && |r| <= |s| && r == s[|s| - |r|..]
      && (r == [] || !IsSpace(r[0]))
      && forall k :: 0 <= k < |s| - |r| ==> IsSpace(s[k])
  {
    if s != [] && IsSpace(s[0]) {
      var t := s[1..];
      StripLeftSpec(t);
      var r := StripLeft(t);
      assert s[|s| - |r|..] == t[|t| - |r|..];
      forall k | 0 <= k < |s| - |r| ensures IsSpace(s[k]) {
        if k > 0 { assert s[k] == t[k - 1]; }
      }
    }
  }

  /** StripRight removes the trailing run of whitespace and only that. */
  lemma {:induction false} StripRightSpec(s: string)
    ensures var r := StripRight(s);
      && |r| <= |s| && r == s[..|r|]
      && (r == [] || !IsSpace(r[|r| - 1]))
      && forall k :: |r| <= k < |s| ==> IsSpace(s[k])
  {
    if s != [] && IsSpace(s[|s| - 1]) {
      var t := s[..|s| - 1];
      StripRightSpec(t);
      var r := StripRight(t);
      assert s[..|r|] == t[..|r|];
      forall k | |r| <= k < |s| ensures IsSpace(s[k]) {
        if k < |t| { assert s[k] == t[k]; }
      }
    }
  }

  /** Python's `s.strip()`: the leading and then the trailing run of whitespace removed. */
  function Strip(s: string): string
  {
    StripRight(StripLeft(s))
  }

  /**
   * What `strip()` promises: the result is a slice of the input with only
   * whitespace outside it and no whitespace at either end, and it is empty
   * exactly when the input is all whitespace.
   */
  lemma StripSpec(s: string)
    ensures var r := Strip(s);
      exists i, j :: 0 <= i <= j <= |s| && r == s[i..j]
                     && (forall k :: 0 <= k < i ==> IsSpace(s[k]))
                     && (forall k :: j <= k < |s| ==> IsSpace(s[k]))
    ensures var r := Strip(s); r != [] ==> !IsSpace(r[0]) && !IsSpace(r[|r| - 1])
    ensures Strip(s) == [] <==> forall k :: 0 <= k < |s| ==> IsSpace(s[k])
  {
    StripSlice(s);
    StripEnds(s);
    StripEmpty(s);
  }

  /** The stripped text is the slice between the leading and the trailing whitespace. */
  lemma StripSlice(s: string)
    ensures var r := Strip(s);
      exists i, j :: 0 <= i <= j <= |s| && r == s[i..j]
                     && (forall k :: 0 <= k < i ==> IsSpace(s[k]))
                     && (forall k :: j <= k < |s| ==> IsSpace(s[k]))
  {
    var left := StripLeft(s);
    var r := StripRight(left);
    StripLeftSpec(s);
    StripRightSpec(left);
    var i := |s| - |left|;
    var j := i + |r|;
    assert left == s[i..];
    assert r == s[i..j];
    forall k | j <= k < |s| ensures IsSpace(s[k]) {
      assert s[k] == left[k - i];
    }
  }

  /** Neither end of a non-empty stripped text is whitespace. */
  lemma StripEnds(s: string)
    ensures var r := Strip(s); r != [] ==> !IsSpace(r[0]) && !IsSpace(r[|r| - 1])
  {
    var left := StripLeft(s);
    var r := StripRight(left);
    StripLeftSpec(s);
    StripRightSpec(left);
    if r != [] {
      assert r[0] == left[0];
    }
  }

  /** The stripped text is empty exactly when the input is all whitespace. */
  lemma StripEmpty(s: string)
    ensures Strip(s) == [] <==> forall k :: 0 <= k < |s| ==> IsSpace(s[k])
  {
    var left := StripLeft(s);
    StripLeftSpec(s);
    StripRightSpec(left);
    if Strip(s) == [] {
      assert left == [];
    }
  }
}
