/**
 * The string primitives the controller uses: first-occurrence search and
 * replacement (JavaScript `String.prototype.replace` with a string pattern
 * and a replacement without `$` patterns), ASCII upper-casing, and decimal
 * rendering of integers (template-literal conversion of an integer).
 */
module Text {
  import opened Optional

  /** `p` occurs in `s` starting at index `i`. */
  predicate OccursAt(s: string, p: string, i: nat) {
    i + |p| <= |s| && s[i..i + |p|] == p
  }

  /** The index of the first occurrence of `p` in `s` at or after `from`. */
  function FindFrom(s: string, p: string, from: nat): (r: Option<nat>)
    ensures r.Some? ==> from <= r.value && OccursAt(s, p, r.value)
    ensures r.Some? ==> forall j: nat | from <= j < r.value :: !OccursAt(s, p, j)
    ensures r.None? ==> forall j: nat | from <= j :: !OccursAt(s, p, j)
    decreases |s| - from
  {
    if from + |p| > |s| then None
    else if s[from..from + |p|] == p then Some(from)
    else FindFrom(s, p, from + 1)
  }

  /** The index of the first occurrence of `p` in `s`, if any. */
  function IndexOf(s: string, p: string): (r: Option<nat>)
    ensures r.Some? ==> OccursAt(s, p, r.value)
    ensures r.Some? ==> forall j: nat | j < r.value :: !OccursAt(s, p, j)
    ensures r.None? ==> forall j: nat :: !OccursAt(s, p, j)
  {
    FindFrom(s, p, 0)
  }

  /**
   * Replaces the first occurrence of `p` in `s` by `rep`; `s` is returned
   * unchanged when `p` does not occur.
   */
  function ReplaceFirst(s: string, p: string, rep: string): (r: string)
    ensures (forall j: nat :: !OccursAt(s, p, j)) ==> r == s
    ensures forall i: nat | OccursAt(s, p, i) && (forall j: nat | j < i :: !OccursAt(s, p, j)) ::
              r == s[..i] + rep + s[i + |p|..]
    ensures |r| == |s| || |r| == |s| - |p| + |rep|
  {
    match IndexOf(s, p)
    case None => s
    case Some(i) => s[..i] + rep + s[i + |p|..]
  }

  /** A pattern whose first character never appears in `s` does not occur in it. */
  lemma AbsentFirstChar(s: string, p: string)
    requires |p| >= 1 && forall i | 0 <= i < |s| :: s[i] != p[0]
    ensures forall j: nat :: !OccursAt(s, p, j)
  {
    forall j: nat
      ensures !OccursAt(s, p, j)
    {
      if j + |p| <= |s| {
        assert s[j..j + |p|][0] == s[j];
      }
    }
  }

  predicate IsLowerAscii(ch: char) {
    'a' <= ch <= 'z'
  }

  /** `toUpperCase` restricted to ASCII: only `a`..`z` change. */
  function UpperChar(ch: char): (u: char)
    ensures !IsLowerAscii(u)
    ensures IsLowerAscii(ch) ==> u as int == ch as int - 32
    ensures !IsLowerAscii(ch) ==> u == ch
  {
    if IsLowerAscii(ch) then (ch as int - 32) as char else ch
  }

  function ToUpperAscii(s: string): (r: string)
    ensures |r| == |s|
    ensures forall i | 0 <= i < |r| :: !IsLowerAscii(r[i])
    ensures forall i | 0 <= i < |s| && !IsLowerAscii(s[i]) :: r[i] == s[i]
    ensures forall i | 0 <= i < |s| && IsLowerAscii(s[i]) :: r[i] as int == s[i] as int - 32
  {
    seq(|s|, i requires 0 <= i < |s| => UpperChar(s[i]))
  }

  predicate IsDigit(ch: char) {
    '0' <= ch <= '9'
  }

  predicate AllDigits(s: string) {
    forall i | 0 <= i < |s| :: IsDigit(s[i])
  }

  function DigitChar(d: nat): (ch: char)
    requires d < 10
    ensures IsDigit(ch)
    ensures ch as int - '0' as int == d
  {
    ('0' as int + d) as char
  }

  /** Decimal rendering of a natural number, without leading zeros. */
  function NatToString(n: nat): (r: string)
    ensures |r| >= 1
    ensures AllDigits(r)
    ensures r[0] == '0' ==> n == 0 && r == "0"
    decreases n
  {
    if n < 10 then [DigitChar(n)] else NatToString(n / 10) + [DigitChar(n % 10)]
  }

  /** The value of a string of decimal digits; the partner of `NatToString`. */
  function DigitsValue(s: string): nat
    requires AllDigits(s)
  {
    if |s| == 0 then 0
    else DigitsValue(s[..|s| - 1]) * 10 + (s[|s| - 1] as int - '0' as int)
  }

  /** Reading back a rendered natural gives the natural. */
  lemma {:induction false} DigitsValueOfNatToString(n: nat)
    ensures DigitsValue(NatToString(n)) == n
    decreases n
  {
    var s := NatToString(n);
    if n >= 10 {
      var prefix := NatToString(n / 10);
      assert s == prefix + [DigitChar(n % 10)];
      assert s[..|s| - 1] == prefix;
      DigitsValueOfNatToString(n / 10);
    }
  }

  /** Distinct naturals render to distinct strings. */
  lemma NatToStringInjective(a: nat, b: nat)
    ensures NatToString(a) == NatToString(b) ==> a == b
  {
    DigitsValueOfNatToString(a);
    DigitsValueOfNatToString(b);
  }

  /**
   * Template-literal rendering of an integer: a minus sign before negatives,
   * then the decimal digits of the magnitude without leading zeros.
   */
  function IntToString(i: int): (r: string)
    ensures |r| >= 1
    ensures i < 0 <==> r[0] == '-'
    ensures i >= 0 ==> AllDigits(r) && DigitsValue(r) == i && (r[0] == '0' ==> i == 0 && r == "0")
    ensures i < 0 ==> |r| >= 2 && AllDigits(r[1..]) && DigitsValue(r[1..]) == -i && r[1] != '0'
  {
    if i < 0 then
      DigitsValueOfNatToString(-i);
      assert ("-" + NatToString(-i))[1..] == NatToString(-i);
      "-" + NatToString(-i)
    else
      DigitsValueOfNatToString(i);
      NatToString(i)
  }

  /** Distinct payload integers render to distinct counter texts. */
  lemma IntToStringInjective(a: int, b: int)
    ensures IntToString(a) == IntToString(b) ==> a == b
  {
  }
}
