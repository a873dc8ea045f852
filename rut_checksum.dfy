/** The modulo-11 check digit of a Chilean RUT (Rol Único Tributario), shared by the two
    validators of the app: the body digits are weighted 2, 3, 4, 5, 6, 7, 2, 3, … counting
    from the rightmost digit, and the check digit is 11 − (sum mod 11), written '0' for 11
    and 'K' for 10. */
module RutChecksum {
  import opened KotlinText

  /** The weight of the digit at position `j`, counted from the right starting at 0. */
  function Weight(j: nat): (w: int)
    ensures 2 <= w <= 7
  {
    2 + j % 6
  }

  /** The multiplier steps 2, 3, …, 7 and then starts again at 2. */
  lemma WeightNext(j: nat)
    ensures Weight(j + 1) == if Weight(j) == 7 then 2 else Weight(j) + 1
  {
    if j % 6 == 5 {
      assert (j + 1) % 6 == 0;
    } else {
      assert (j + 1) % 6 == j % 6 + 1;
    }
  }

  /** The weighted digit sum; the leftmost digit of `body` is at position |body| − 1. */
  function WeightedSum(body: string): (r: nat)
    requires AllDigits(body)
    ensures r <= 63 * |body|
  {
    if body == [] then 0
    else
      MulBound(DigitValue(body[0]), Weight(|body| - 1));
      DigitValue(body[0]) * Weight(|body| - 1) + WeightedSum(body[1..])
  }

  /** A digit times a weight is at most 9 × 7. */
  lemma MulBound(d: nat, w: int)
    requires d <= 9 && 2 <= w <= 7
    ensures 0 <= d * w <= 63
  {
  }

  /** Every weight is positive, so the sum is 0 exactly when every digit is 0. */
  lemma {:induction false} WeightedSumZero(body: string)
    requires AllDigits(body)
    ensures WeightedSum(body) == 0 <==> forall i :: 0 <= i < |body| ==> body[i] == '0'
  {
    if body != [] {
      WeightedSumZero(body[1..]);
      assert forall i :: 1 <= i < |body| ==> body[i] == body[1..][i - 1];
      assert IsDigit(body[0]);
    }
  }

  /** The character that `11 - (sum % 11)` denotes: '0' for 11, 'K' for 10, the digit otherwise. */
  function CheckChar(sum: nat): (c: char)
    ensures c == 'K' || IsDigit(c)
    ensures c == 'K' <==> sum % 11 == 1
    ensures c == '0' <==> sum % 11 == 0
  {
    var m := 11 - sum % 11;
    if m == 11 then '0' else if m == 10 then 'K' else ('0' as int + m) as char
  }

  function CheckDigit(body: string): (c: char)
    requires AllDigits(body)
    ensures c == 'K' || IsDigit(c)
    ensures c == 'K' <==> WeightedSum(body) % 11 == 1
    ensures c == '0' <==> WeightedSum(body) % 11 == 0
  {
    CheckChar(WeightedSum(body))
  }

  /** Two sums give the same check character exactly when they agree modulo 11. */
  lemma CheckCharInjective(s1: nat, s2: nat)
    ensures CheckChar(s1) == CheckChar(s2) <==> s1 % 11 == s2 % 11
  {
  }

  /** Replacing the digit at index `i` changes the sum by the difference of the two digits
      times that position's weight. */
  lemma {:induction false} WeightedSumUpdate(body: string, i: nat, c: char)
    requires AllDigits(body) && i < |body| && IsDigit(c)
    ensures AllDigits(body[i := c])
    ensures WeightedSum(body[i := c]) as int
         == WeightedSum(body) as int + (DigitValue(c) as int - DigitValue(body[i]) as int) * Weight(|body| - 1 - i)
  {
    var b' := body[i := c];
    assert AllDigits(b') by {
      forall k | 0 <= k < |b'| ensures IsDigit(b'[k]) { if k != i { assert b'[k] == body[k]; } }
    }
    var w := Weight(|body| - 1);
    if i > 0 {
      assert b'[0] == body[0];
      assert b'[1..] == body[1..][i - 1 := c];
      WeightedSumUpdate(body[1..], i - 1, c);
    } else {
      assert b'[1..] == body[1..];
      var dc, db := DigitValue(c) as int, DigitValue(body[0]) as int;
      assert (dc - db) * w == dc * w - db * w;
    }
  }

  /** No multiple of a weight by a non-zero digit difference is divisible by 11. */
  lemma NotDivisible(d: int, w: int)
    requires -9 <= d <= 9 && d != 0 && 2 <= w <= 7
    ensures (d * w) % 11 != 0
  {
    if w == 2 { assert d * w == d + d; }
    else if w == 3 { assert d * w == d + d + d; }
    else if w == 4 { assert d * w == d + d + d + d; }
    else if w == 5 { assert d * w == d + d + d + d + d; }
    else if w == 6 { assert d * w == d + d + d + d + d + d; }
    else { assert d * w == d + d + d + d + d + d + d; }
  }

  /** The check digit detects every single-digit substitution in the body. */
  lemma SubstitutionDetected(body: string, i: nat, c: char)
    requires AllDigits(body) && i < |body| && IsDigit(c) && c != body[i]
    ensures AllDigits(body[i := c])
    ensures CheckDigit(body[i := c]) != CheckDigit(body)
  {
    WeightedSumUpdate(body, i, c);
    var d := DigitValue(c) as int - DigitValue(body[i]) as int;
    var w := Weight(|body| - 1 - i);
    NotDivisible(d, w);
    var s := WeightedSum(body);
    var s' := WeightedSum(body[i := c]);
    assert s' == s + d * w;
    if s' % 11 == s % 11 {
      ShiftResidue(s, d * w);
    }
    CheckCharInjective(s, s');
  }

  lemma ShiftResidue(s: int, x: int)
    requires (s + x) % 11 == s % 11
    ensures x % 11 == 0
  {
    var q1, q2 := (s + x) / 11, s / 11;
    assert x == (q1 - q2) * 11 + ((s + x) % 11 - s % 11);
    assert x == (q1 - q2) * 11;
  }
}
