/**
 * Base-10 text of unsigned integers: the representation that the numeric
 * `StrAppend` overload writes into a signal handler's message buffer.
 *
 * `Decimal` is the canonical text (most significant digit first, no leading
 * zeros); `Value` reads a digit string back. `LsdFirst` is the order in which
 * the serialiser's first loop produces the digits, and `Reversed` is what its
 * second loop does to them.
 */
module DecimalText {

  /** 2^64: every `uint64_t` is below it. */
  const Uint64Limit: nat := 0x1_0000_0000_0000_0000

  predicate IsDigit(c: char) {
    '0' <= c <= '9'
  }

  predicate AllDigits(s: seq<char>) {
    forall i :: 0 <= i < |s| ==> IsDigit(s[i])
  }

  /** The character `'0' + d` for a single digit `d`. */
  function DigitChar(d: nat): (c: char)
    requires d < 10
    ensures IsDigit(c)
  {
    ('0' as int + d) as char
  }

  /** The digit a character in `'0'..'9'` stands for. */
  function DigitValue(c: char): (d: nat)
    requires IsDigit(c)
    ensures d < 10 && DigitChar(d) == c
  {
    c as int - '0' as int
  }

  function Pow10(k: nat): (p: nat)
    ensures p >= 1
  {
    if k == 0 then 1 else 10 * Pow10(k - 1)
  }

  /** The number of decimal digits of `n`; zero is written with one digit. */
  function NumDigits(n: nat): (k: nat)
  {
    if n < 10 then 1 else 1 + NumDigits(n / 10)
  }

  /** Canonical decimal text of `n`: most significant digit first, no leading zeros. */
  function Decimal(n: nat): (s: seq<char>)
  {
    if n < 10 then [DigitChar(n)] else Decimal(n / 10) + [DigitChar(n % 10)]
  }

  /** The number a digit string denotes, read most significant digit first. */
  function Value(s: seq<char>): (n: nat)
    requires AllDigits(s)
  {
    if s == [] then 0 else 10 * Value(s[..|s| - 1]) + DigitValue(s[|s| - 1])
  }

  /** A digit string as `Decimal` writes it: non-empty, and no leading zero unless it is "0". */
  predicate IsCanonical(s: seq<char>) {
    |s| > 0 && AllDigits(s) && (s[0] == '0' ==> |s| == 1)
  }

  /** The digits of `m`, least significant first; empty once `m` is zero. */
  function Digits(m: nat): (s: seq<char>)
  {
    if m == 0 then [] else [DigitChar(m % 10)] + Digits(m / 10)
  }

  /**
   * The digits of `n`, least significant first, as a do-while loop emits them:
   * the first digit is written unconditionally, so zero gives "0".
   */
  function LsdFirst(n: nat): (s: seq<char>)
  {
    [DigitChar(n % 10)] + Digits(n / 10)
  }

  function Reversed<T>(s: seq<T>): (r: seq<T>)
  {
    if s == [] then [] else Reversed(s[1..]) + [s[0]]
  }

  // ---------------------------------------------------------------------
  // The canonical text

  lemma {:induction false} DecimalLength(n: nat)
    ensures |Decimal(n)| == NumDigits(n)
  {
    if n >= 10 {
      DecimalLength(n / 10);
    }
  }

  lemma {:induction false} DecimalIsCanonical(n: nat)
    ensures IsCanonical(Decimal(n))
    ensures Decimal(n)[0] == '0' <==> n == 0
  {
    if n >= 10 {
      DecimalIsCanonical(n / 10);
      var d := Decimal(n / 10);
      assert Decimal(n) == d + [DigitChar(n % 10)];
      assert Decimal(n)[0] == d[0];
    }
  }

  /** Reading the text back gives the number: `Decimal` loses nothing. */
  lemma {:induction false} ValueOfDecimal(n: nat)
    ensures AllDigits(Decimal(n)) && Value(Decimal(n)) == n
  {
    DecimalIsCanonical(n);
    if n >= 10 {
      ValueOfDecimal(n / 10);
      var s := Decimal(n);
      assert s[..|s| - 1] == Decimal(n / 10);
    }
  }

  lemma {:induction false} ValueAtLeastLead(s: seq<char>)
    requires |s| > 0 && AllDigits(s)
    ensures Value(s) >= DigitValue(s[0])
  {
    if |s| > 1 {
      var p := s[..|s| - 1];
      assert p[0] == s[0];
      ValueAtLeastLead(p);
    }
  }

  /** Every canonical digit string is the text of its value: `Decimal` is onto them. */
  lemma {:induction false} DecimalOfValue(s: seq<char>)
    requires IsCanonical(s)
    ensures Decimal(Value(s)) == s
  {
    if |s| == 1 {
      assert s == [s[0]];
    } else {
      var p := s[..|s| - 1];
      var d := DigitValue(s[|s| - 1]);
      assert p[0] == s[0];
      assert IsCanonical(p);
      ValueAtLeastLead(p);
      DecimalOfValue(p);
      assert Value(s) == 10 * Value(p) + d;
      assert Value(s) / 10 == Value(p) && Value(s) % 10 == d;
      assert s == p + [s[|s| - 1]];
    }
  }

  /** Distinct numbers have distinct texts. */
  lemma DecimalInjective(m: nat, n: nat)
    requires Decimal(m) == Decimal(n)
    ensures m == n
  {
    ValueOfDecimal(m);
    ValueOfDecimal(n);
  }

  // ---------------------------------------------------------------------
  // The digit count

  /** `NumDigits(n)` is the number of decimal places `n` needs. */
  lemma {:induction false} NumDigitsBounds(n: nat)
    ensures n < Pow10(NumDigits(n))
    ensures n >= 1 ==> Pow10(NumDigits(n) - 1) <= n
  {
    if n >= 10 {
      NumDigitsBounds(n / 10);
    }
  }

  lemma {:induction false} FitsInDigits(n: nat, k: nat)
    requires k >= 1 && n < Pow10(k)
    ensures NumDigits(n) <= k
  {
    if n >= 10 {
      assert k >= 2;
      FitsInDigits(n / 10, k - 1);
    }
  }

  /** A `uint64_t` has at most twenty decimal digits ... */
  lemma Uint64HasAtMost20Digits(n: nat)
    requires n < Uint64Limit
    ensures NumDigits(n) <= 20
  {
    Pow10Twenty();
    FitsInDigits(n, 20);
  }

  /** ... and the largest one has exactly twenty. */
  lemma Uint64MaxHas20Digits()
    ensures NumDigits(Uint64Limit - 1) == 20
  {
    var n := Uint64Limit - 1;
    Pow10Twenty();
    NumDigitsBounds(n);
    FitsInDigits(n, 20);
    if NumDigits(n) < 20 {
      PowMonotone(NumDigits(n), 19);
    }
  }

  lemma {:induction false} Pow10Sum(j: nat, k: nat)
    ensures Pow10(j + k) == Pow10(j) * Pow10(k)
  {
    if k > 0 {
      Pow10Sum(j, k - 1);
    }
  }

  lemma Pow10Twenty()
    ensures Pow10(19) == 10_000_000_000_000_000_000
    ensures Pow10(20) == 100_000_000_000_000_000_000
  {
    assert Pow10(4) == 10_000;
    Pow10Sum(4, 4);
    Pow10Sum(8, 8);
    Pow10Sum(16, 3);
    Pow10Sum(16, 4);
  }

  lemma {:induction false} PowMonotone(j: nat, k: nat)
    requires j <= k
    ensures Pow10(j) <= Pow10(k)
  {
    if j < k {
      PowMonotone(j, k - 1);
    }
  }

  // ---------------------------------------------------------------------
  // Least significant digit first, then reversed

  lemma {:induction false} DigitsLength(m: nat)
    ensures m == 0 ==> |Digits(m)| == 0
    ensures m > 0 ==> |Digits(m)| == NumDigits(m)
  {
    if m >= 10 {
      DigitsLength(m / 10);
    }
  }

  lemma LsdFirstLength(n: nat)
    ensures |LsdFirst(n)| == NumDigits(n)
  {
  }

  /** Reversing the digits as the first loop emits them gives the canonical text. */
  lemma {:induction false} ReversedLsdFirst(n: nat)
    ensures Reversed(LsdFirst(n)) == Decimal(n)
  {
    var s := LsdFirst(n);
    assert s[1..] == Digits(n / 10);
    if n >= 10 {
      assert Digits(n / 10) == LsdFirst(n / 10);
      ReversedLsdFirst(n / 10);
    }
  }

  lemma {:induction false} ReversedLength<T>(s: seq<T>)
    ensures |Reversed(s)| == |s|
  {
    if s != [] {
      ReversedLength(s[1..]);
    }
  }

  /** Element `k` of a reversed sequence is element `|s| - 1 - k` of the original. */
  lemma {:induction false} ReversedIndex<T>(s: seq<T>, k: nat)
    requires k < |s|
    ensures |Reversed(s)| == |s|
    ensures Reversed(s)[k] == s[|s| - 1 - k]
  {
    if k < |s| - 1 {
      ReversedIndex(s[1..], k);
    } else if |s| > 1 {
      ReversedIndex(s[1..], 0);
    }
  }

  /** A sequence whose every element mirrors one of `s` is `s` reversed. */
  lemma ReversedInPlace<T>(s: seq<T>, t: seq<T>)
    requires |s| == |t|
    requires forall i :: 0 <= i < |t| ==> t[i] == s[|s| - 1 - i]
    ensures t == Reversed(s)
  {
    ReversedLength(s);
    forall k | 0 <= k < |t|
      ensures t[k] == Reversed(s)[k]
    {
      ReversedIndex(s, k);
    }
  }
}
