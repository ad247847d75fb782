/**
 * String helpers the booking form relies on: ASCII lower-casing
 * (`String.prototype.toLowerCase` restricted to ASCII), substring search
 * (`String.prototype.includes`) and decimal rendering of integers (the
 * `${n}` of a template literal).
 */
module Text {

  /** Lower-cases one ASCII letter; every other character is left alone. */
  function LowerChar(c: char): char
  {
    if 'A' <= c <= 'Z' then ((c as int) + 32) as char else c
  }

  /**
   * `toLowerCase` on ASCII: same length, no upper-case ASCII letter left,
   * each upper-case letter replaced by its lower-case partner and every
   * other character kept.
   */
  function Lower(s: string): (r: string)
    ensures |r| == |s|
    ensures forall i :: 0 <= i < |r| ==> !('A' <= r[i] <= 'Z')
    ensures forall i :: 0 <= i < |s| && 'A' <= s[i] <= 'Z' ==> r[i] as int == s[i] as int + 32
    ensures forall i :: 0 <= i < |s| && !('A' <= s[i] <= 'Z') ==> r[i] == s[i]
  {
    seq(|s|, i requires 0 <= i < |s| => LowerChar(s[i]))
  }

  lemma LowerIdempotent(s: string)
    ensures Lower(Lower(s)) == Lower(s)
  {
    assert forall i :: 0 <= i < |s| ==> LowerChar(LowerChar(s[i])) == LowerChar(s[i]);
  }

  /** `t` sits in `s` starting at position `i`. */
  ghost predicate OccursAt(t: string, s: string, i: int)
  {
    0 <= i && i + |t| <= |s| && s[i..i + |t|] == t
  }

  /**
   * `s.includes(t)`: scans `s` left to right for an occurrence of `t`.
   * The empty string is found in every string, and nothing longer than
   * `s` is found in it; `IncludesIff` characterises the rest.
   */
  function Includes(s: string, t: string): (r: bool)
    ensures t == "" ==> r
    ensures r ==> |t| <= |s|
    decreases |s|
  {
    if |t| > |s| then false
    else if s[..|t|] == t then true
    else Includes(s[1..], t)
  }

  /** The scan finds `t` exactly when `t` occurs somewhere in `s`. */
  lemma {:induction false} IncludesIff(s: string, t: string)
    ensures Includes(s, t) <==> exists i :: OccursAt(t, s, i)
    decreases |s|
  {
    if |t| > |s| {
    } else if s[..|t|] == t {
      assert OccursAt(t, s, 0);
    } else {
      IncludesIff(s[1..], t);
      forall j | OccursAt(t, s[1..], j) ensures OccursAt(t, s, j + 1) {
        assert s[j + 1..j + 1 + |t|] == s[1..][j..j + |t|];
      }
      forall j | OccursAt(t, s, j) ensures j >= 1 && OccursAt(t, s[1..], j - 1) {
        assert j != 0;
        assert s[1..][j - 1..j - 1 + |t|] == s[j..j + |t|];
      }
    }
  }

  /** The value of one decimal digit character. */
  ghost function DigitValue(c: char): int
  {
    c as int - '0' as int
  }

  /** The number a string of decimal digits stands for, read most significant first. */
  ghost function DecimalValue(s: string): int
    decreases |s|
  {
    if s == [] then 0 else 10 * DecimalValue(s[..|s| - 1]) + DigitValue(s[|s| - 1])
  }

  function Digit(d: nat): (c: char)
    requires d < 10
    ensures '0' <= c <= '9' && DigitValue(c) == d
  {
    "0123456789"[d]
  }

  /**
   * Decimal digits of a natural number, most significant first, no
   * leading zeros; read back as a decimal numeral they give `n`.
   */
  function NatToString(n: nat): (r: string)
    ensures |r| >= 1
    ensures forall k :: 0 <= k < |r| ==> '0' <= r[k] <= '9'
    ensures |r| > 1 ==> r[0] != '0'
    ensures DecimalValue(r) == n
    decreases n
  {
    if n < 10 then [Digit(n)]
    else
      var high := NatToString(n / 10);
      assert (high + [Digit(n % 10)])[..|high|] == high;
      high + [Digit(n % 10)]
  }

  /**
   * How JavaScript prints an integral number of magnitude below 10^21: a
   * minus sign exactly for a negative number, followed by the decimal
   * digits of its magnitude. Larger magnitudes print in exponent form.
   */
  function IntToString(i: int): (r: string)
    ensures r != ""
    ensures (r[0] == '-') <==> i < 0
    ensures i < 0 ==> DecimalValue(r[1..]) == -i
    ensures i >= 0 ==> DecimalValue(r) == i
    ensures forall k :: (if i < 0 then 1 else 0) <= k < |r| ==> '0' <= r[k] <= '9'
    ensures i < 0 ==> r == "-" + NatToString(-i)
    ensures i >= 0 ==> r == NatToString(i)
  {
    if i < 0 then "-" + NatToString(-i) else NatToString(i)
  }
}
