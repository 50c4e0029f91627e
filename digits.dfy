/**
 * Decimal digits as characters, and the numbers that strings of them denote.
 *
 * The textual integer stores a number as its decimal string; its arithmetic
 * reverses that string so that index 0 holds the least significant digit.
 * `Value` reads a string most-significant-digit first, `LeValue` reads a
 * reversed buffer least-significant-digit first, and `Weighted` reads a
 * buffer of column sums (numbers that may exceed 9) the same way.
 */
module Digits {

  /** 10^n */
  function Pow10(n: nat): (r: nat)
    ensures r >= 1
  {
    if n == 0 then 1 else 10 * Pow10(n - 1)
  }

  lemma {:induction false} Pow10Add(m: nat, n: nat)
    ensures Pow10(m + n) == Pow10(m) * Pow10(n)
  {
    if n > 0 {
      Pow10Add(m, n - 1);
      calc {
        Pow10(m + n);
        10 * Pow10(m + n - 1);
        10 * (Pow10(m) * Pow10(n - 1));
        Pow10(m) * (10 * Pow10(n - 1));
      }
    }
  }

  lemma {:induction false} Pow10Monotonic(m: nat, n: nat)
    requires m <= n
    ensures Pow10(m) <= Pow10(n)
  {
    if m < n {
      Pow10Monotonic(m, n - 1);
    }
  }

  predicate IsDigit(c: char) {
    '0' <= c <= '9'
  }

  predicate AllDigits(s: string) {
    forall i :: 0 <= i < |s| ==> IsDigit(s[i])
  }

  /** `c.to_digit(10).unwrap_or(0)`: a character that is not a decimal digit (such as '-') reads as 0. */
  function Digit(c: char): (d: nat)
    ensures d <= 9
    ensures d == 0 <==> (c == '0' || !IsDigit(c))
  {
    if IsDigit(c) then c as int - '0' as int else 0
  }

  /** `std::char::from_digit(d, 10).unwrap()` for a digit value. */
  function DigitChar(d: nat): (c: char)
    requires d <= 9
    ensures IsDigit(c) && Digit(c) == d
  {
    (d + '0' as int) as char
  }

  lemma DigitCharOfDigit(c: char)
    requires IsDigit(c)
    ensures DigitChar(Digit(c)) == c
  {
  }

  /** The number a decimal string denotes, read most significant digit first. */
  function Value(s: string): nat
  {
    if |s| == 0 then 0 else 10 * Value(s[..|s| - 1]) + Digit(s[|s| - 1])
  }

  /** The number a reversed digit buffer denotes: index k weighs 10^k. */
  function LeValue(r: string): nat
  {
    if |r| == 0 then 0 else Digit(r[0]) + 10 * LeValue(r[1..])
  }

  /** The number a buffer of column sums denotes: index k weighs 10^k. */
  function Weighted(s: seq<nat>): nat
  {
    if |s| == 0 then 0 else s[0] + 10 * Weighted(s[1..])
  }

  /** `s.chars().rev().collect()`, and `Vec::reverse`. */
  function Reverse<T>(s: seq<T>): (r: seq<T>)
    ensures |r| == |s|
  {
    if |s| == 0 then [] else [s[|s| - 1]] + Reverse(s[..|s| - 1])
  }

  /** Position i of the reversal holds position n-1-i of the original. */
  lemma {:induction false} ReverseAt<T>(s: seq<T>)
    ensures forall i :: 0 <= i < |s| ==> Reverse(s)[i] == s[|s| - 1 - i]
  {
    if |s| > 0 {
      ReverseAt(s[..|s| - 1]);
    }
  }

  lemma ReverseReverse<T>(s: seq<T>)
    ensures Reverse(Reverse(s)) == s
  {
    ReverseAt(s);
    ReverseAt(Reverse(s));
  }

  lemma {:induction false} ReverseMultiset<T>(s: seq<T>)
    ensures multiset(Reverse(s)) == multiset(s)
  {
    if |s| > 0 {
      var init := s[..|s| - 1];
      assert Reverse(s) == [s[|s| - 1]] + Reverse(init);
      ReverseMultiset(init);
      assert s == init + [s[|s| - 1]];
    }
  }

  /** Reading a string forwards is reading its reversal backwards. */
  lemma {:induction false} LeValueOfReverse(s: string)
    ensures LeValue(Reverse(s)) == Value(s)
  {
    if |s| > 0 {
      var init := s[..|s| - 1];
      assert Reverse(s)[1..] == Reverse(init);
      LeValueOfReverse(init);
    }
  }

  lemma ValueOfReverse(r: string)
    ensures Value(Reverse(r)) == LeValue(r)
  {
    LeValueOfReverse(Reverse(r));
    ReverseReverse(r);
  }

  /** Pushing a character onto a reversed buffer adds it at the next power of ten. */
  lemma {:induction false} LeValueAppend(r: string, c: char)
    ensures LeValue(r + [c]) == LeValue(r) + Digit(c) * Pow10(|r|)
  {
    if |r| > 0 {
      assert (r + [c])[1..] == r[1..] + [c];
      LeValueAppend(r[1..], c);
      Shift(LeValue(r[1..]), Digit(c), Pow10(|r| - 1));
    }
  }

  lemma {:induction false} WeightedAppend(s: seq<nat>, x: nat)
    ensures Weighted(s + [x]) == Weighted(s) + x * Pow10(|s|)
  {
    if |s| > 0 {
      assert (s + [x])[1..] == s[1..] + [x];
      WeightedAppend(s[1..], x);
      Shift(Weighted(s[1..]), x, Pow10(|s| - 1));
    }
  }

  /** Adding x to column k raises the buffer's value by x * 10^k. */
  lemma {:induction false} WeightedUpdate(s: seq<nat>, k: nat, x: nat)
    requires k < |s|
    ensures Weighted(s[k := s[k] + x]) == Weighted(s) + x * Pow10(k)
  {
    if k == 0 {
      assert s[k := s[k] + x][1..] == s[1..];
    } else {
      assert s[k := s[k] + x][1..] == s[1..][k - 1 := s[k] + x];
      WeightedUpdate(s[1..], k - 1, x);
      Shift(Weighted(s[1..]), x, Pow10(k - 1));
    }
  }

  /** The low `i` digits of a reversed buffer; positions past its end read as 0 (`get(i).unwrap_or(0)`). */
  function DigitAt(r: string, i: nat): (d: nat)
    ensures d <= 9
  {
    if i < |r| then Digit(r[i]) else 0
  }

  function LowValue(r: string, i: nat): nat
  {
    if i <= |r| then LeValue(r[..i]) else LeValue(r)
  }

  lemma LowValueStep(r: string, i: nat)
    ensures LowValue(r, i + 1) == LowValue(r, i) + DigitAt(r, i) * Pow10(i)
  {
    if i < |r| {
      assert r[..i + 1] == r[..i] + [r[i]];
      LeValueAppend(r[..i], r[i]);
    } else if i == |r| {
      assert r[..i] == r;
    }
  }

  lemma LowValueFull(r: string, n: nat)
    requires |r| <= n
    ensures LowValue(r, n) == LeValue(r)
  {
    if n == |r| {
      assert r[..n] == r;
    }
  }

  /** A string of n characters denotes less than 10^n (every character reads as at most 9). */
  lemma {:induction false} ValueBound(s: string)
    ensures Value(s) < Pow10(|s|)
  {
    if |s| > 0 {
      ValueBound(s[..|s| - 1]);
    }
  }

  lemma {:induction false} LeValueBound(r: string)
    ensures LeValue(r) < Pow10(|r|)
  {
    if |r| > 0 {
      LeValueBound(r[1..]);
    }
  }

  /** Reading the leading character separately: it weighs 10^(n-1). */
  lemma {:induction false} ValueFront(s: string)
    requires |s| > 0
    ensures Value(s) == Digit(s[0]) * Pow10(|s| - 1) + Value(s[1..])
  {
    if |s| > 1 {
      var init, tail := s[..|s| - 1], s[1..];
      ValueFront(init);
      assert init[1..] == tail[..|tail| - 1];
      assert tail[|tail| - 1] == s[|s| - 1];
      var d, p, v, last := Digit(s[0]), Pow10(|s| - 2), Value(init[1..]), Digit(s[|s| - 1]);
      assert Value(s) == 10 * Value(init) + last;
      assert Value(init) == d * p + v;
      assert Value(tail) == 10 * v + last;
      assert Pow10(|s| - 1) == 10 * p;
      Regroup(d, p, v, last);
    }
  }

  /** Multiplying by ten shifts a weighted digit to the next power. */
  lemma Shift(v: int, d: int, p: int)
    ensures 10 * (v + d * p) == 10 * v + d * (10 * p)
  {
  }

  lemma Regroup(d: int, p: int, v: int, last: int)
    ensures 10 * (d * p + v) + last == d * (10 * p) + (10 * v + last)
  {
  }

  lemma ValueLeadingZero(s: string)
    requires |s| > 0 && Digit(s[0]) == 0
    ensures Value(s) == Value(s[1..])
  {
    ValueFront(s);
  }

  /** The leading character weighs 10^(n-1), so a non-zero one makes the value at least that. */
  lemma ValueAtLeastLeading(s: string)
    requires |s| > 0 && Digit(s[0]) > 0
    ensures Value(s) >= Pow10(|s| - 1)
  {
    ValueFront(s);
  }

  /** A value below 10^(n-1) means the leading character of the n-character string reads as 0. */
  lemma LeadingZeroFromBound(s: string)
    requires |s| > 0 && Value(s) < Pow10(|s| - 1)
    ensures Digit(s[0]) == 0
  {
    if Digit(s[0]) > 0 {
      ValueAtLeastLeading(s);
    }
  }
}
