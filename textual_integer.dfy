/**
 * TextualInteger: a signed decimal integer kept as its decimal string
 * (src/textual_integer.rs).
 *
 * Canonical form is one or more digits with no leading zero, optionally
 * preceded by '-', and never "-0". `TextualInteger::new` validates nothing,
 * so canonical form is a precondition of the operations here. `IntValue`
 * is the integer a canonical string denotes and `Render` the canonical
 * string of an integer (`RenderIntValue`: the two are inverse). Each
 * arithmetic operation is proved to return a canonical string denoting the
 * integer result, except where the source itself departs from it (`Mul` of
 * a negative by zero, `pow` of a negative base).
 */
module TextualIntegers {
  import opened Digits

  datatype TextualInteger = TextualInteger(value: string)

  /** `std::cmp::Ordering` */
  datatype Ordering = Less | Equal | Greater

  function IntCmp(x: int, y: int): Ordering {
    if x < y then Less else if x > y then Greater else Equal
  }

  /** A magnitude in canonical form: digits only, at least one, no leading zero unless it is "0". */
  predicate NonNegCanonical(s: string) {
    |s| >= 1 && AllDigits(s) && (|s| == 1 || s[0] != '0')
  }

  /** `value.starts_with('-')` */
  predicate StartsWithMinus(s: string) {
    |s| > 0 && s[0] == '-'
  }

  predicate Canonical(x: TextualInteger) {
    || NonNegCanonical(x.value)
    || (StartsWithMinus(x.value) && NonNegCanonical(x.value[1..]) && x.value[1..] != "0")
  }

  /** The integer a (canonical) textual integer denotes. */
  function IntValue(x: TextualInteger): int {
    if StartsWithMinus(x.value) then -(Value(x.value[1..]) as int) else Value(x.value)
  }

  /** The digits of the string with any '-' read as 0, which is how `mul_positive` reads its operands. */
  function Magnitude(x: TextualInteger): nat {
    Value(x.value)
  }

  /** The canonical decimal string of a natural number. */
  function NatToString(n: nat): (s: string)
    ensures NonNegCanonical(s) && Value(s) == n
    ensures n > 0 ==> s[0] != '0'
  {
    if n < 10 then [DigitChar(n)]
    else
      var init := NatToString(n / 10);
      var s := init + [DigitChar(n % 10)];
      assert s[..|s| - 1] == init;
      s
  }

  /** The canonical textual integer of an integer. */
  function Render(n: int): (r: TextualInteger)
    ensures Canonical(r) && IntValue(r) == n
  {
    if n < 0 then
      var s := "-" + NatToString(-n);
      assert s[1..] == NatToString(-n);
      TextualInteger(s)
    else TextualInteger(NatToString(n))
  }

  /** A canonical magnitude is the one string `NatToString` gives for its value. */
  lemma {:induction false} NatToStringUnique(s: string)
    requires NonNegCanonical(s)
    ensures NatToString(Value(s)) == s
  {
    var n := |s|;
    if n == 1 {
      DigitCharOfDigit(s[0]);
      assert Value(s) == Digit(s[0]);
    } else {
      var init := s[..n - 1];
      assert init[0] == s[0];
      var x, d := Value(init), Digit(s[n - 1]);
      assert Value(s) == 10 * x + d;
      CanonicalLowerBound(s);
      Pow10Monotonic(1, n - 1);
      NatToStringUnique(init);
      DivMod10(x, d);
      assert NatToString(10 * x + d) == NatToString(x) + [DigitChar(d)];
      DigitCharOfDigit(s[n - 1]);
      assert s == init + [s[n - 1]];
    }
  }

  lemma DivMod10(x: nat, d: nat)
    requires d <= 9
    ensures (10 * x + d) / 10 == x && (10 * x + d) % 10 == d
  {
  }

  /** Canonical strings and integers are in one-to-one correspondence. */
  lemma {:induction false} RenderIntValue(x: TextualInteger)
    requires Canonical(x)
    ensures Render(IntValue(x)) == x
  {
    if StartsWithMinus(x.value) {
      NatToStringUnique(x.value[1..]);
      assert x.value == "-" + x.value[1..];
    } else {
      NatToStringUnique(x.value);
    }
  }

  lemma {:induction false} RenderInjective(m: int, n: int)
    requires Render(m) == Render(n)
    ensures m == n
  {
  }

  /** A canonical magnitude of n > 1 digits is at least 10^(n-1). */
  lemma {:induction false} CanonicalLowerBound(s: string)
    requires NonNegCanonical(s) && |s| > 1
    ensures Value(s) >= Pow10(|s| - 1)
  {
    ValueAtLeastLeading(s);
  }

  /** A digit string whose value reaches the weight of its leading position has no leading zero. */
  lemma {:induction false} CanonicalByValue(s: string)
    requires |s| >= 1 && AllDigits(s)
    requires |s| > 1 ==> Value(s) >= Pow10(|s| - 1)
    ensures NonNegCanonical(s)
  {
    if |s| > 1 && s[0] == '0' {
      ValueLeadingZero(s);
      ValueBound(s[1..]);
    }
  }

  /** A canonical textual integer's digits, with '-' read as 0, give the absolute value. */
  lemma {:induction false} MagnitudeIsAbs(x: TextualInteger)
    requires Canonical(x)
    ensures Magnitude(x) == if IntValue(x) < 0 then -IntValue(x) else IntValue(x)
  {
    if StartsWithMinus(x.value) {
      ValueLeadingZero(x.value);
    }
  }

  /** `is_positive`: the string does not start with '-'; on canonical strings, the value is not negative. */
  function IsPositive(x: TextualInteger): (r: bool)
    ensures Canonical(x) ==> (r <==> IntValue(x) >= 0)
  {
    NegativeSign(x);
    !StartsWithMinus(x.value)
  }

  /** A canonical string starts with '-' exactly when it denotes a negative number. */
  lemma {:induction false} NegativeSign(x: TextualInteger)
    ensures Canonical(x) ==> (StartsWithMinus(x.value) <==> IntValue(x) < 0)
  {
    if Canonical(x) && StartsWithMinus(x.value) {
      NatToStringUnique(x.value[1..]);
    }
  }

  /** Rust's `Ord` on strings: lexicographic by character. */
  function LexCmp(s: string, t: string): Ordering
  {
    if |s| == 0 then (if |t| == 0 then Equal else Less)
    else if |t| == 0 then Greater
    else if s[0] < t[0] then Less
    else if s[0] > t[0] then Greater
    else LexCmp(s[1..], t[1..])
  }

  /** On digit strings of equal length, lexicographic order is numeric order. */
  lemma {:induction false} LexCmpIsNumeric(s: string, t: string)
    requires |s| == |t| && AllDigits(s) && AllDigits(t)
    ensures LexCmp(s, t) == IntCmp(Value(s), Value(t))
  {
    if |s| > 0 {
      ValueFront(s);
      ValueFront(t);
      ValueBound(s[1..]);
      ValueBound(t[1..]);
      var p := Pow10(|s| - 1);
      var ds, dt := Digit(s[0]), Digit(t[0]);
      if s[0] < t[0] {
        LeadingDigitDecides(ds, dt, p, Value(s[1..]), Value(t[1..]));
      } else if s[0] > t[0] {
        LeadingDigitDecides(dt, ds, p, Value(t[1..]), Value(s[1..]));
      } else {
        LexCmpIsNumeric(s[1..], t[1..]);
      }
    }
  }

  lemma {:induction false} LeadingDigitDecides(d: nat, e: nat, p: nat, u: nat, v: nat)
    requires d < e && u < p
    ensures d * p + u < e * p + v
  {
    assert (d + 1) * p <= e * p;
  }

  /** `is_smaller`: shorter first, then lexicographic. */
  function IsSmaller(a: TextualInteger, b: TextualInteger): (r: bool)
  {
    if |a.value| < |b.value| then true
    else if |a.value| > |b.value| then false
    else LexCmp(a.value, b.value) == Less
  }

  /** On canonical magnitudes a shorter string denotes a smaller number. */
  lemma {:induction false} ShorterIsSmaller(s: string, t: string)
    requires NonNegCanonical(s) && NonNegCanonical(t) && |s| < |t|
    ensures Value(s) < Value(t)
  {
    ValueBound(s);
    Pow10Monotonic(|s|, |t| - 1);
    CanonicalLowerBound(t);
  }

  lemma {:induction false} IsSmallerIsMagnitudeOrder(a: TextualInteger, b: TextualInteger)
    requires NonNegCanonical(a.value) && NonNegCanonical(b.value)
    ensures IsSmaller(a, b) <==> Value(a.value) < Value(b.value)
  {
    if |a.value| < |b.value| {
      ShorterIsSmaller(a.value, b.value);
    } else if |a.value| > |b.value| {
      ShorterIsSmaller(b.value, a.value);
    } else {
      LexCmpIsNumeric(a.value, b.value);
    }
  }

  /** `Ord::cmp`: sign first, then length, then lexicographic; two negatives compare their magnitudes reversed. */
  function Cmp(a: TextualInteger, b: TextualInteger): Ordering
    decreases |a.value| + |b.value|
  {
    var negative1 := StartsWithMinus(a.value);
    var negative2 := StartsWithMinus(b.value);
    if negative1 && negative2 then Cmp(TextualInteger(b.value[1..]), TextualInteger(a.value[1..]))
    else if negative1 then Less
    else if negative2 then Greater
    else if |a.value| < |b.value| then Less
    else if |a.value| > |b.value| then Greater
    else LexCmp(a.value, b.value)
  }

  /** `cmp` orders canonical textual integers as the integers they denote. */
  lemma {:induction false} CmpIsIntegerOrder(a: TextualInteger, b: TextualInteger)
    requires Canonical(a) && Canonical(b)
    ensures Cmp(a, b) == IntCmp(IntValue(a), IntValue(b))
  {
    var negative1 := StartsWithMinus(a.value);
    var negative2 := StartsWithMinus(b.value);
    if negative1 && negative2 {
      NonNegOrder(TextualInteger(b.value[1..]), TextualInteger(a.value[1..]));
    } else if negative1 {
      assert IntValue(a) < 0 by { NatToStringUnique(a.value[1..]); }
    } else if negative2 {
      assert IntValue(b) < 0 by { NatToStringUnique(b.value[1..]); }
    } else {
      NonNegOrder(a, b);
    }
  }

  lemma {:induction false} NonNegOrder(a: TextualInteger, b: TextualInteger)
    requires NonNegCanonical(a.value) && NonNegCanonical(b.value)
    ensures Cmp(a, b) == IntCmp(Value(a.value), Value(b.value))
  {
    if |a.value| < |b.value| {
      ShorterIsSmaller(a.value, b.value);
    } else if |a.value| > |b.value| {
      ShorterIsSmaller(b.value, a.value);
    } else {
      LexCmpIsNumeric(a.value, b.value);
    }
  }

  // ---------------------------------------------------------------------------
  // The digit loops

  lemma {:induction false} CarryStep(sum: nat, p: nat)
    ensures (sum % 10) * p + (sum / 10) * (10 * p) == sum * p
  {
    var q, m := sum / 10, sum % 10;
    assert sum == 10 * q + m;
    calc {
      m * p + q * (10 * p);
      m * p + (10 * q) * p;
      (m + 10 * q) * p;
    }
  }

  /** One column of the carry pass: the digit written and the new carry keep the running value. */
  lemma {:induction false} CarryColumn(acc: nat, carry: nat, x: nat, w: nat, p: nat)
    requires acc + carry * p == w
    ensures acc + ((x + carry) % 10) * p + ((x + carry) / 10) * (10 * p) == w + x * p
  {
    CarryStep(x + carry, p);
    assert (x + carry) * p == x * p + carry * p;
  }

  lemma {:induction false} Distribute3(x: int, y: int, z: int, p: int)
    ensures (x + y + z) * p == x * p + y * p + z * p
  {
  }

  /**
   * `add_positive`: digit-by-digit addition with carry over the reversed
   * strings; a final carry becomes one more digit.
   */
  method AddPositive(a: TextualInteger, b: TextualInteger) returns (r: TextualInteger)
    requires NonNegCanonical(a.value) && NonNegCanonical(b.value)
    ensures NonNegCanonical(r.value) && Value(r.value) == Value(a.value) + Value(b.value)
  {
    var chars1 := Reverse(a.value);
    var chars2 := Reverse(b.value);
    var digits, carry := AddDigits(chars1, chars2);
    var resultStr := digits;
    if carry > 0 {
      resultStr := resultStr + [DigitChar(carry)];
    }
    r := TextualInteger(Reverse(resultStr));
    LeValueOfReverse(a.value);
    LeValueOfReverse(b.value);
    AddOutcome(a.value, b.value, |digits|, digits, carry, r.value);
  }

  /**
   * The digit loop of `add_positive` over the reversed operands: one digit
   * per column up to the longer length, and the carry left over.
   */
  method AddDigits(chars1: string, chars2: string) returns (resultStr: string, carry: nat)
    ensures |resultStr| == (if |chars1| < |chars2| then |chars2| else |chars1|)
    ensures AllDigits(resultStr) && carry <= 1
    ensures LeValue(resultStr) + CarryOut(carry, |resultStr|) == LeValue(chars1) + LeValue(chars2)
  {
    resultStr := [];
    carry := 0;
    var maxLen := if |chars1| < |chars2| then |chars2| else |chars1|;

    for i := 0 to maxLen
      invariant |resultStr| == i && AllDigits(resultStr) && carry <= 1
      invariant LeValue(resultStr) + CarryOut(carry, i) == LowValue(chars1, i) + LowValue(chars2, i)
    {
      var digit1 := DigitAt(chars1, i);
      var digit2 := DigitAt(chars2, i);
      var sum := digit1 + digit2 + carry;
      AddColumn(resultStr, chars1, chars2, i, carry);
      carry := sum / 10;
      resultStr := resultStr + [DigitChar(sum % 10)];
    }
    LowValueFull(chars1, maxLen);
    LowValueFull(chars2, maxLen);
  }

  /** The weight of a carry or borrow (0 or 1) out of the low i digits. */
  function CarryOut(c: int, i: nat): nat {
    if c == 0 then 0 else Pow10(i)
  }

  /** One column of `add_positive`: the digit pushed and the new carry keep the running sum. */
  lemma {:induction false} AddColumn(acc: string, chars1: string, chars2: string, i: nat, carry: nat)
    requires LeValue(acc) + CarryOut(carry, i) == LowValue(chars1, i) + LowValue(chars2, i)
    requires |acc| == i && AllDigits(acc) && carry <= 1
    ensures var sum := DigitAt(chars1, i) + DigitAt(chars2, i) + carry;
      && |acc + [DigitChar(sum % 10)]| == i + 1 && AllDigits(acc + [DigitChar(sum % 10)]) && sum / 10 <= 1
      && LeValue(acc + [DigitChar(sum % 10)]) + CarryOut(sum / 10, i + 1) == LowValue(chars1, i + 1) + LowValue(chars2, i + 1)
  {
    var digit1, digit2 := DigitAt(chars1, i), DigitAt(chars2, i);
    var sum := digit1 + digit2 + carry;
    LeValueAppend(acc, DigitChar(sum % 10));
    LowValueStep(chars1, i);
    LowValueStep(chars2, i);
    ColumnArith(LeValue(acc), LowValue(chars1, i), LowValue(chars2, i), digit1, digit2, carry, Pow10(i));
  }

  /** The arithmetic of one column of `add_positive`. */
  lemma {:induction false} ColumnArith(acc: int, low1: int, low2: int, d1: nat, d2: nat, carry: nat, p: nat)
    requires d1 <= 9 && d2 <= 9 && carry <= 1
    requires acc + (if carry == 0 then 0 else p) == low1 + low2
    ensures var sum := d1 + d2 + carry;
      acc + (sum % 10) * p + (if sum / 10 == 0 then 0 else 10 * p) == (low1 + d1 * p) + (low2 + d2 * p)
  {
    var sum := d1 + d2 + carry;
    var q, c := sum % 10, sum / 10;
    assert sum == 10 * c + q && c <= 1;
    Distribute3(d1, d2, carry, p);
    SplitColumn(c, q, p);
    assert carry * p == (if carry == 0 then 0 else p);
    assert c * p == (if c == 0 then 0 else p);
  }

  lemma SplitColumn(c: int, q: int, p: int)
    ensures (10 * c + q) * p == q * p + 10 * (c * p)
  {
  }

  /** What the digit loop of `add_positive` leaves behind, reversed, is the canonical string of the sum. */
  lemma {:induction false} AddOutcome(a: string, b: string, maxLen: nat, digits: string, carry: nat, s: string)
    requires NonNegCanonical(a) && NonNegCanonical(b)
    requires |a| <= maxLen && |b| <= maxLen && (|a| == maxLen || |b| == maxLen)
    requires |digits| == maxLen && AllDigits(digits) && carry <= 1
    requires LeValue(digits) + CarryOut(carry, maxLen) == Value(a) + Value(b)
    requires s == Reverse(if carry > 0 then digits + [DigitChar(carry)] else digits)
    ensures NonNegCanonical(s) && Value(s) == Value(a) + Value(b)
  {
    var resultStr := if carry > 0 then digits + [DigitChar(carry)] else digits;
    PushCarry(digits, carry);
    ValueOfReverse(resultStr);
    ReverseAllDigits(resultStr);
    SumCanonical(a, b, s, maxLen, carry);
  }

  /** A digit string of the sum's length, denoting the sum, has no leading zero. */
  lemma {:induction false} SumCanonical(a: string, b: string, s: string, maxLen: nat, carry: nat)
    requires NonNegCanonical(a) && NonNegCanonical(b)
    requires |a| <= maxLen && |b| <= maxLen && (|a| == maxLen || |b| == maxLen)
    requires |s| == maxLen + (if carry > 0 then 1 else 0) && |s| >= 1 && AllDigits(s)
    requires Value(s) == Value(a) + Value(b)
    requires carry > 0 ==> Value(s) >= Pow10(maxLen)
    ensures NonNegCanonical(s)
  {
    if |s| > 1 && carry == 0 {
      if |a| == maxLen {
        CanonicalLowerBound(a);
      } else {
        CanonicalLowerBound(b);
      }
    }
    CanonicalByValue(s);
  }

  lemma ReverseAllDigits(s: string)
    requires AllDigits(s)
    ensures AllDigits(Reverse(s))
  {
    ReverseAt(s);
  }

  /** Pushing the final carry of `add_positive` (0 or 1) adds it at the next power of ten. */
  lemma {:induction false} PushCarry(digits: string, carry: nat)
    requires carry <= 1
    ensures var pushed := if carry > 0 then digits + [DigitChar(carry)] else digits;
      && (carry == 0 ==> pushed == digits)
      && (carry > 0 ==> LeValue(pushed) == LeValue(digits) + Pow10(|digits|) && |pushed| == |digits| + 1)
      && (AllDigits(digits) ==> AllDigits(pushed))
  {
    if carry > 0 {
      LeValueAppend(digits, DigitChar(carry));
    }
  }


  /**
   * `sub_positive`: digit-by-digit subtraction with borrow; zeros at the
   * most significant end are popped, keeping at least one digit.
   */
  method SubPositive(a: TextualInteger, b: TextualInteger) returns (r: TextualInteger)
    requires NonNegCanonical(a.value) && NonNegCanonical(b.value)
    requires Value(a.value) >= Value(b.value)
    ensures NonNegCanonical(r.value) && Value(r.value) == Value(a.value) - Value(b.value)
  {
    var chars1 := Reverse(a.value);
    var chars2 := Reverse(b.value);
    var resultStr, borrow := SubDigits(chars1, chars2);

    ghost var difference := Value(a.value) - Value(b.value);
    LeValueOfReverse(a.value);
    LeValueOfReverse(b.value);
    NoFinalBorrow(resultStr, borrow, Value(a.value), Value(b.value));

    while |resultStr| > 1 && resultStr[|resultStr| - 1] == '0'
      invariant |resultStr| >= 1 && AllDigits(resultStr)
      invariant LeValue(resultStr) == difference
    {
      PopZero(resultStr);
      resultStr := resultStr[..|resultStr| - 1];
    }

    r := TextualInteger(Reverse(resultStr));
    TrimmedOutcome(resultStr, difference);
  }

  /**
   * The digit loop of `sub_positive` over the reversed operands: one digit
   * per column up to the longer length, and the borrow left over.
   */
  method SubDigits(chars1: string, chars2: string) returns (resultStr: string, borrow: int)
    ensures |resultStr| == (if |chars1| < |chars2| then |chars2| else |chars1|)
    ensures AllDigits(resultStr) && 0 <= borrow <= 1
    ensures LeValue(resultStr) == LeValue(chars1) - LeValue(chars2) + CarryOut(borrow, |resultStr|)
  {
    resultStr := [];
    borrow := 0;
    var maxLen := if |chars1| < |chars2| then |chars2| else |chars1|;

    for i := 0 to maxLen
      invariant |resultStr| == i && AllDigits(resultStr) && 0 <= borrow <= 1
      invariant LeValue(resultStr) == LowValue(chars1, i) - LowValue(chars2, i) + CarryOut(borrow, i)
    {
      var digit1 := DigitAt(chars1, i);
      var digit2 := DigitAt(chars2, i);
      var diff := digit1 - digit2 - borrow;
      SubColumn(resultStr, chars1, chars2, i, borrow);
      if diff < 0 {
        borrow := 1;
        resultStr := resultStr + [DigitChar(diff + 10)];
      } else {
        borrow := 0;
        resultStr := resultStr + [DigitChar(diff)];
      }
    }
    LowValueFull(chars1, maxLen);
    LowValueFull(chars2, maxLen);
  }

  /** When the minuend is at least the subtrahend the digit loop of `sub_positive` ends without a borrow. */
  lemma {:induction false} NoFinalBorrow(digits: string, borrow: int, x: nat, y: nat)
    requires x >= y && 0 <= borrow <= 1
    requires LeValue(digits) == x - y + CarryOut(borrow, |digits|)
    ensures borrow == 0 && LeValue(digits) == x - y
  {
    LeValueBound(digits);
  }

  /** A reversed buffer without zeros at its most significant end reads back as a canonical string. */
  lemma {:induction false} TrimmedOutcome(digits: string, n: nat)
    requires |digits| >= 1 && AllDigits(digits) && LeValue(digits) == n
    requires |digits| == 1 || digits[|digits| - 1] != '0'
    ensures NonNegCanonical(Reverse(digits)) && Value(Reverse(digits)) == n
  {
    ValueOfReverse(digits);
    ReverseAllDigits(digits);
  }

  /** A zero at the most significant end of a reversed buffer adds nothing. */
  lemma {:induction false} PopZero(r: string)
    requires |r| > 0 && r[|r| - 1] == '0'
    ensures LeValue(r[..|r| - 1]) == LeValue(r)
  {
    var init := r[..|r| - 1];
    assert r == init + ['0'];
    LeValueAppend(init, '0');
  }

  /** One column of `sub_positive`: the digit pushed and the new borrow keep the running difference. */
  lemma {:induction false} SubColumn(acc: string, chars1: string, chars2: string, i: nat, borrow: int)
    requires LeValue(acc) == LowValue(chars1, i) - LowValue(chars2, i) + CarryOut(borrow, i)
    requires |acc| == i && 0 <= borrow <= 1
    ensures var diff := DigitAt(chars1, i) - DigitAt(chars2, i) - borrow;
      && (diff < 0 ==> LeValue(acc + [DigitChar(diff + 10)]) == LowValue(chars1, i + 1) - LowValue(chars2, i + 1) + CarryOut(1, i + 1))
      && (diff >= 0 ==> LeValue(acc + [DigitChar(diff)]) == LowValue(chars1, i + 1) - LowValue(chars2, i + 1) + CarryOut(0, i + 1))
  {
    var digit1, digit2 := DigitAt(chars1, i), DigitAt(chars2, i);
    var diff := digit1 - digit2 - borrow;
    LowValueStep(chars1, i);
    LowValueStep(chars2, i);
    if diff < 0 {
      LeValueAppend(acc, DigitChar(diff + 10));
    } else {
      LeValueAppend(acc, DigitChar(diff));
    }
    assert CarryOut(borrow, i) == borrow * Pow10(i);
    BorrowStep(LeValue(acc), LowValue(chars1, i), LowValue(chars2, i), digit1, digit2, borrow, Pow10(i));
  }

  /** The arithmetic of one column of `sub_positive`: the digit written and the new borrow keep the running difference. */
  lemma {:induction false} BorrowStep(acc: int, low1: int, low2: int, d1: int, d2: int, borrow: int, p: int)
    requires acc == low1 - low2 + borrow * p
    ensures var diff := d1 - d2 - borrow;
      && (diff < 0 ==> acc + (diff + 10) * p == (low1 + d1 * p) - (low2 + d2 * p) + 1 * (10 * p))
      && (diff >= 0 ==> acc + diff * p == (low1 + d1 * p) - (low2 + d2 * p) + 0 * (10 * p))
  {
    var diff := d1 - d2 - borrow;
    assert acc + diff * p == (low1 + d1 * p) - (low2 + d2 * p) by {
      assert diff * p == d1 * p - d2 * p - borrow * p;
    }
    assert (diff + 10) * p == diff * p + 10 * p;
  }

  lemma {:induction false} WeightedZeros(s: seq<nat>)
    requires forall i :: 0 <= i < |s| ==> s[i] == 0
    ensures Weighted(s) == 0
  {
    if |s| > 0 {
      WeightedZeros(s[1..]);
    }
  }

  lemma {:induction false} MulColumnStep(base: int, d1: int, d2: int, lj: int, pi: int, pj: int)
    ensures base + d1 * lj * pi + d1 * d2 * (pi * pj) == base + d1 * (lj + d2 * pj) * pi
  {
    calc {
      d1 * (lj + d2 * pj) * pi;
      (d1 * lj + d1 * (d2 * pj)) * pi;
      d1 * lj * pi + d1 * (d2 * pj) * pi;
    }
  }

  lemma {:induction false} MulRowStep(la: int, lb: int, d1: int, pi: int)
    ensures la * lb + d1 * lb * pi == (la + d1 * pi) * lb
  {
  }

  lemma {:induction false} ProductBound(x: nat, y: nat, bx: nat, bY: nat)
    requires x < bx && y < bY
    ensures x * y < bx * bY
  {
    assert x * y <= x * bY;
    assert x * bY < bx * bY;
  }

  lemma {:induction false} NoCarryOut(carry: nat, low: nat, p: nat, total: nat)
    requires low + carry * p == total && total < p
    ensures carry == 0
  {
  }

  /**
   * The column sums of `mul_positive`: column i + j collects the product of
   * digit i of one reversed operand and digit j of the other.
   */
  method ColumnSums(chars1: string, chars2: string) returns (resultDigits: array<nat>)
    ensures fresh(resultDigits) && resultDigits.Length == |chars1| + |chars2|
    ensures Weighted(resultDigits[..]) == LeValue(chars1) * LeValue(chars2)
  {
    var len1 := |chars1|;
    var len2 := |chars2|;
    resultDigits := new nat[len1 + len2](_ => 0);
    WeightedZeros(resultDigits[..]);
    ghost var lb := LeValue(chars2);

    for i := 0 to len1
      invariant Weighted(resultDigits[..]) == LeValue(chars1[..i]) * lb
    {
      ghost var la := LeValue(chars1[..i]);
      var digit1 := Digit(chars1[i]);
      AddRow(resultDigits, chars2, i, digit1);
      assert chars1[..i + 1] == chars1[..i] + [chars1[i]];
      LeValueAppend(chars1[..i], chars1[i]);
      MulRowStep(la, lb, digit1, Pow10(i));
    }
    assert chars1[..len1] == chars1;
  }

  /** The inner loop of `mul_positive`: digit i of one operand times every digit of the other, added at columns i, i + 1, ... */
  method AddRow(resultDigits: array<nat>, chars2: string, i: nat, digit1: nat)
    requires i + |chars2| <= resultDigits.Length
    modifies resultDigits
    ensures Weighted(resultDigits[..]) == old(Weighted(resultDigits[..])) + digit1 * LeValue(chars2) * Pow10(i)
  {
    ghost var start := Weighted(resultDigits[..]);
    for j := 0 to |chars2|
      invariant Weighted(resultDigits[..]) == start + digit1 * LeValue(chars2[..j]) * Pow10(i)
    {
      var digit2 := Digit(chars2[j]);
      var product := digit1 * digit2;
      ghost var before := resultDigits[..];
      resultDigits[i + j] := resultDigits[i + j] + product;
      assert resultDigits[..] == before[i + j := before[i + j] + product];

      WeightedUpdate(before, i + j, product);
      Pow10Add(i, j);
      assert chars2[..j + 1] == chars2[..j] + [chars2[j]];
      LeValueAppend(chars2[..j], chars2[j]);
      MulColumnStep(start, digit1, digit2, LeValue(chars2[..j]), Pow10(i), Pow10(j));
    }
    assert chars2[..|chars2|] == chars2;
  }

  /** The carry pass of `mul_positive`: one digit per column, least significant first, and the carry left over. */
  method CarryPass(resultDigits: array<nat>) returns (resultStr: string, carry: nat)
    ensures |resultStr| == resultDigits.Length && AllDigits(resultStr)
    ensures LeValue(resultStr) + carry * Pow10(resultDigits.Length) == Weighted(resultDigits[..])
  {
    resultStr := [];
    carry := 0;
    for k := 0 to resultDigits.Length
      invariant |resultStr| == k && AllDigits(resultStr)
      invariant LeValue(resultStr) + carry * Pow10(k) == Weighted(resultDigits[..k])
    {
      var currentSum := resultDigits[k] + carry;
      ghost var before, carryBefore := resultStr, carry;
      carry := currentSum / 10;
      resultStr := resultStr + [DigitChar(currentSum % 10)];

      LeValueAppend(before, DigitChar(currentSum % 10));
      assert resultDigits[..k + 1] == resultDigits[..k] + [resultDigits[k]];
      WeightedAppend(resultDigits[..k], resultDigits[k]);
      CarryColumn(LeValue(before), carryBefore, resultDigits[k], Weighted(resultDigits[..k]), Pow10(k));
    }
    assert resultDigits[..resultDigits.Length] == resultDigits[..];
  }

  /**
   * `mul_positive`: schoolbook multiplication into a buffer of column sums,
   * one carry pass, then leading zeros removed. Characters that are not
   * digits (a '-') read as 0, so a signed operand contributes its magnitude.
   */
  method MulPositive(a: TextualInteger, b: TextualInteger) returns (r: TextualInteger)
    requires |a.value| > 0 && |b.value| > 0
    ensures NonNegCanonical(r.value) && Magnitude(r) == Magnitude(a) * Magnitude(b)
  {
    if a.value == "0" || b.value == "0" {
      assert Value("0") == 10 * Value("") + Digit('0');
      assert Magnitude(a) == 0 || Magnitude(b) == 0;
      return TextualInteger("0");
    }

    var chars1 := Reverse(a.value);
    var chars2 := Reverse(b.value);
    var len1 := |chars1|;
    var len2 := |chars2|;
    var resultDigits := ColumnSums(chars1, chars2);
    var resultStr, carry := CarryPass(resultDigits);

    // The product has at most len1 + len2 digits, so no carry is left over
    // and the final carry push of the source never happens.
    var product := Magnitude(a) * Magnitude(b);
    ProductFits(a.value, b.value, resultStr, carry);

    var result := Reverse(resultStr);
    ValueOfReverse(resultStr);
    ReverseAllDigits(resultStr);
    while |result| > 1 && result[0] == '0'
      invariant |result| >= 1 && AllDigits(result)
      invariant Value(result) == product
    {
      ValueLeadingZero(result);
      result := result[1..];
    }
    r := TextualInteger(result);
  }

  /** The column sums of two operands of n and m digits, carried, fit in n + m digits. */
  lemma {:induction false} ProductFits(a: string, b: string, digits: string, carry: nat)
    requires |digits| == |a| + |b|
    requires LeValue(digits) + carry * Pow10(|a| + |b|) == LeValue(Reverse(a)) * LeValue(Reverse(b))
    ensures carry == 0 && LeValue(digits) == Value(a) * Value(b)
  {
    LeValueOfReverse(a);
    LeValueOfReverse(b);
    ValueBound(a);
    ValueBound(b);
    ProductBound(Value(a), Value(b), Pow10(|a|), Pow10(|b|));
    Pow10Add(|a|, |b|);
    NoCarryOut(carry, LeValue(digits), Pow10(|a| + |b|), Value(a) * Value(b));
  }

  /** b^n over the naturals */
  function NatPow(b: nat, n: nat): nat {
    if n == 0 then 1 else b * NatPow(b, n - 1)
  }

  /** b^n over the integers */
  function IntPow(b: int, n: nat): int {
    if n == 0 then 1 else b * IntPow(b, n - 1)
  }

  lemma {:induction false} NatPowAdd(b: nat, m: nat, n: nat)
    ensures NatPow(b, m + n) == NatPow(b, m) * NatPow(b, n)
  {
    if n > 0 {
      NatPowAdd(b, m, n - 1);
      Rotate(b, NatPow(b, m), NatPow(b, n - 1));
    }
  }

  lemma Rotate(b: int, x: int, y: int)
    ensures b * (x * y) == x * (b * y)
  {
  }

  lemma {:induction false} NatPowSquare(b: nat, n: nat)
    ensures NatPow(b * b, n) == NatPow(b, 2 * n)
  {
    if n > 0 {
      var bb := b * b;
      NatPowSquare(b, n - 1);
      var x := NatPow(b, 2 * (n - 1));
      assert NatPow(bb, n) == bb * x;
      NatPowAdd(b, 2, 2 * (n - 1));
      assert NatPow(b, 2) == bb by {
        assert NatPow(b, 1) == b;
      }
      assert 2 * n == 2 + 2 * (n - 1);
    }
  }

  /** One round of square-and-multiply keeps res * base^e unchanged. */
  lemma {:induction false} PowRound(res: nat, base: nat, e: nat)
    requires e > 0
    ensures (if e % 2 == 1 then res * base else res) * NatPow(base * base, e / 2) == res * NatPow(base, e)
  {
    NatPowSquare(base, e / 2);
    if e % 2 == 1 {
      assert e == 2 * (e / 2) + 1;
      NatPowAdd(base, 1, 2 * (e / 2));
    } else {
      assert e == 2 * (e / 2);
    }
  }

  /**
   * `pow`: exponent 0 gives "1" and exponent 1 the base itself; otherwise
   * square-and-multiply with `mul_positive`, which reads '-' as 0, so the
   * result is the magnitude raised to the power, without a sign.
   */
  method Pow(base: TextualInteger, exponent: nat) returns (r: TextualInteger)
    requires Canonical(base)
    ensures exponent == 0 ==> r == TextualInteger("1")
    ensures exponent == 1 ==> r == base
    ensures exponent >= 2 ==> NonNegCanonical(r.value) && Magnitude(r) == NatPow(Magnitude(base), exponent)
    ensures IsPositive(base) ==> Canonical(r) && IntValue(r) == IntPow(IntValue(base), exponent)
  {
    PowsAgree(Magnitude(base), exponent);
    if exponent == 0 {
      return TextualInteger("1");
    }
    if exponent == 1 {
      return base;
    }

    var res := TextualInteger("1");
    var currentBase := base;
    var currentExponent := exponent;

    while currentExponent > 0
      invariant NonNegCanonical(res.value) && |currentBase.value| > 0
      invariant Magnitude(res) * NatPow(Magnitude(currentBase), currentExponent) == NatPow(Magnitude(base), exponent)
    {
      PowRound(Magnitude(res), Magnitude(currentBase), currentExponent);
      if currentExponent % 2 == 1 {
        res := MulPositive(res, currentBase);
      }
      currentBase := MulPositive(currentBase, currentBase);
      currentExponent := currentExponent / 2;
    }
    r := res;
  }

  /** pow(b, 0) is "1" for every base, "0" included. */
  method PowZeroOfZero() returns (r: TextualInteger)
    ensures r == TextualInteger("1")
  {
    r := Pow(TextualInteger("0"), 0);
  }

  lemma {:induction false} PowsAgree(b: nat, n: nat)
    ensures NatPow(b, n) == IntPow(b, n)
  {
    if n > 0 {
      PowsAgree(b, n - 1);
    }
  }

  // ---------------------------------------------------------------------------
  // Signed operators: dispatch on a leading '-'

  /** Splits off a leading '-': `(negative, digits)`. */
  function SplitSign(x: TextualInteger): (r: (bool, TextualInteger))
    requires Canonical(x)
    ensures NonNegCanonical(r.1.value)
    ensures IntValue(x) == if r.0 then -(Value(r.1.value) as int) else Value(r.1.value)
    ensures r.0 ==> Value(r.1.value) > 0
  {
    if StartsWithMinus(x.value) then
      assert Value(x.value[1..]) > 0 by { NatToStringUnique(x.value[1..]); }
      (true, TextualInteger(x.value[1..]))
    else (false, x)
  }

  /** '-' in front of a canonical magnitude above 0 is the canonical form of its negation. */
  lemma {:induction false} Negate(s: string)
    requires NonNegCanonical(s) && Value(s) > 0
    ensures Canonical(TextualInteger("-" + s)) && IntValue(TextualInteger("-" + s)) == -(Value(s) as int)
  {
    assert ("-" + s)[1..] == s;
    assert s != "0" by {
      assert Value("0") == 10 * Value("") + Digit('0');
    }
  }

  /** `Add`: both negative adds magnitudes under '-', mixed signs subtract, both non-negative adds. */
  method Add(a: TextualInteger, b: TextualInteger) returns (r: TextualInteger)
    requires Canonical(a) && Canonical(b)
    ensures Canonical(r) && IntValue(r) == IntValue(a) + IntValue(b)
  {
    var (negative1, value1) := SplitSign(a);
    var (negative2, value2) := SplitSign(b);

    if negative1 && negative2 {
      var sum := AddPositive(value1, value2);
      Negate(sum.value);
      return TextualInteger("-" + sum.value);
    } else if negative1 {
      r := Sub(value2, value1);
      return;
    } else if negative2 {
      r := Sub(value1, value2);
      return;
    }
    r := AddPositive(value1, value2);
  }

  /**
   * `Sub`: two negatives become b' - a', a negative minus a non-negative
   * adds magnitudes under '-', a non-negative minus a negative adds, and two
   * non-negatives subtract the smaller magnitude from the larger.
   */
  method Sub(a: TextualInteger, b: TextualInteger) returns (r: TextualInteger)
    requires Canonical(a) && Canonical(b)
    ensures Canonical(r) && IntValue(r) == IntValue(a) - IntValue(b)
    decreases (if StartsWithMinus(a.value) then 1 else 0) + (if StartsWithMinus(b.value) then 1 else 0)
  {
    var (negative1, value1) := SplitSign(a);
    var (negative2, value2) := SplitSign(b);

    if negative1 && negative2 {
      r := Sub(value2, value1);
      return;
    } else if negative1 {
      var sum := AddPositive(value1, value2);
      Negate(sum.value);
      return TextualInteger("-" + sum.value);
    } else if negative2 {
      r := AddPositive(value1, value2);
      return;
    }

    IsSmallerIsMagnitudeOrder(value1, value2);
    if IsSmaller(value1, value2) {
      var difference := SubPositive(value2, value1);
      Negate(difference.value);
      return TextualInteger("-" + difference.value);
    }
    r := SubPositive(value1, value2);
  }

  /** The digits after an optional leading '-'. */
  function Unsigned(x: TextualInteger): string {
    if StartsWithMinus(x.value) then x.value[1..] else x.value
  }

  /** The product of two canonical values is the product of their magnitudes, negated when the signs differ. */
  lemma {:induction false} ProductOfMagnitudes(a: TextualInteger, b: TextualInteger)
    requires Canonical(a) && Canonical(b)
    ensures IntValue(a) * IntValue(b)
      == if IsPositive(a) == IsPositive(b) then Magnitude(a) * Magnitude(b) else -(Magnitude(a) * Magnitude(b))
  {
    MagnitudeIsAbs(a);
    MagnitudeIsAbs(b);
    SignedProduct(IntValue(a), IntValue(b), Magnitude(a), Magnitude(b));
  }

  lemma {:induction false} SignedProduct(x: int, y: int, mx: nat, my: nat)
    requires mx == (if x < 0 then -x else x) && my == (if y < 0 then -y else y)
    ensures x * y == if (x >= 0) == (y >= 0) then mx * my else -(mx * my)
  {
    if x < 0 && y < 0 {
      assert x * y == (-x) * (-y);
    } else if x < 0 {
      assert x * y == -((-x) * y);
    } else if y < 0 {
      assert x * y == -(x * (-y));
    }
  }

  /**
   * `Mul` as written: the magnitudes are multiplied and '-' is prefixed when
   * exactly one operand is negative, even when the product is "0". Away
   * from that case it is integer multiplication.
   */
  method Mul(a: TextualInteger, b: TextualInteger) returns (r: TextualInteger)
    requires Canonical(a) && Canonical(b)
    ensures IsPositive(r) <==> (IsPositive(a) == IsPositive(b))
    ensures NonNegCanonical(Unsigned(r)) && Value(Unsigned(r)) == Magnitude(a) * Magnitude(b)
  {
    var negative1 := StartsWithMinus(a.value);
    var negative2 := StartsWithMinus(b.value);
    var result := MulPositive(a, b);
    if negative1 != negative2 {
      r := TextualInteger("-" + result.value);
      assert Unsigned(r) == result.value;
    } else {
      r := result;
    }
  }

  /** What `Mul` returns is the canonical product unless the product is 0 and the signs differ. */
  lemma {:induction false} MulIsProduct(a: TextualInteger, b: TextualInteger, r: TextualInteger)
    requires Canonical(a) && Canonical(b)
    requires IsPositive(r) <==> (IsPositive(a) == IsPositive(b))
    requires NonNegCanonical(Unsigned(r)) && Value(Unsigned(r)) == Magnitude(a) * Magnitude(b)
    ensures IsPositive(a) == IsPositive(b) || IntValue(a) * IntValue(b) != 0 <==>
      Canonical(r) && IntValue(r) == IntValue(a) * IntValue(b)
  {
    ProductOfMagnitudes(a, b);
    var m := Value(Unsigned(r));
    if !IsPositive(r) {
      assert r.value == "-" + Unsigned(r);
      if m > 0 {
        Negate(Unsigned(r));
      } else {
        assert Unsigned(r) == "0" by {
          NatToStringUnique(Unsigned(r));
        }
      }
    }
  }

  /** A negative number times "0" gives "-0", which is not canonical. */
  method MulNegativeByZero() returns (r: TextualInteger)
    ensures r == TextualInteger("-0") && !Canonical(r)
  {
    var minusFive, zero := TextualInteger("-5"), TextualInteger("0");
    assert Value("0") == 10 * Value("") + Digit('0');
    assert Canonical(minusFive) && !IsPositive(minusFive) && Canonical(zero) && IsPositive(zero);
    r := Mul(minusFive, zero);
    assert Value(Unsigned(r)) == 0;
    NatToStringUnique(Unsigned(r));
    assert r.value == "-" + Unsigned(r);
  }

  /** `Mul` with the sign dropped on a zero product: integer multiplication on every input. */
  method MulCanonical(a: TextualInteger, b: TextualInteger) returns (r: TextualInteger)
    requires Canonical(a) && Canonical(b)
    ensures Canonical(r) && IntValue(r) == IntValue(a) * IntValue(b)
  {
    var negative1 := StartsWithMinus(a.value);
    var negative2 := StartsWithMinus(b.value);
    var result := MulPositive(a, b);
    ProductOfMagnitudes(a, b);
    assert Value("0") == 10 * Value("") + Digit('0');
    if negative1 != negative2 && result.value != "0" {
      NatToStringUnique(result.value);
      Negate(result.value);
      r := TextualInteger("-" + result.value);
    } else {
      r := result;
    }
  }

  /** "-2".pow(3) is "8": the sign of a negative base is lost for odd exponents above 1. */
  method PowNegativeBase() returns (r: TextualInteger)
    ensures r == TextualInteger("8") && IntValue(r) != IntPow(-2, 3)
  {
    var minusTwo := TextualInteger("-2");
    assert Value(minusTwo.value) == 10 * Value("-") + Digit('2');
    r := Pow(minusTwo, 3);
    MinusTwoCubed(r.value);
  }

  /** The canonical string of 2^3 is "8", while (-2)^3 is -8. */
  lemma {:induction false} MinusTwoCubed(s: string)
    requires NonNegCanonical(s) && Value(s) == NatPow(2, 3)
    ensures s == "8" && IntValue(TextualInteger(s)) != IntPow(-2, 3)
  {
    assert NatPow(2, 3) == 8 by {
      assert NatPow(2, 1) == 2;
      assert NatPow(2, 2) == 4;
    }
    NatToStringUnique(s);
    assert NatToString(8) == [DigitChar(8)];
    assert IntPow(-2, 3) == -8 by {
      assert IntPow(-2, 1) == -2;
      assert IntPow(-2, 2) == 4;
    }
  }

  /** `pow` with the sign restored: integer exponentiation for every canonical base. */
  method PowSigned(base: TextualInteger, exponent: nat) returns (r: TextualInteger)
    requires Canonical(base)
    ensures Canonical(r) && IntValue(r) == IntPow(IntValue(base), exponent)
  {
    r := Pow(base, exponent);
    PowSign(base, exponent);
    if exponent >= 2 && !IsPositive(base) && exponent % 2 == 1 {
      Negate(r.value);
      r := TextualInteger("-" + r.value);
    }
  }

  /** base^e is the magnitude's power, negated exactly when the base is negative and e is odd. */
  lemma {:induction false} PowSign(base: TextualInteger, exponent: nat)
    requires Canonical(base)
    ensures IntPow(IntValue(base), exponent)
      == if !IsPositive(base) && exponent % 2 == 1 then -(NatPow(Magnitude(base), exponent) as int) else NatPow(Magnitude(base), exponent)
    ensures !IsPositive(base) ==> NatPow(Magnitude(base), exponent) > 0
  {
    MagnitudeIsAbs(base);
    var m := Magnitude(base);
    PowsAgree(m, exponent);
    if !IsPositive(base) {
      NegativePow(m, exponent);
      NatPowPositive(m, exponent);
      assert IntValue(base) == -(m as int);
    }
  }

  lemma {:induction false} NegativePow(m: int, n: nat)
    ensures IntPow(-m, n) == if n % 2 == 1 then -IntPow(m, n) else IntPow(m, n)
  {
    if n > 0 {
      NegativePow(m, n - 1);
    }
  }

  lemma {:induction false} NatPowPositive(m: nat, n: nat)
    requires m > 0
    ensures NatPow(m, n) > 0
  {
    if n > 0 {
      NatPowPositive(m, n - 1);
    }
  }
}
