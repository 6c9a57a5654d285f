/** `itoa`: digits generated from the low end, then reversed in place. */
module Itoa {
  import opened Console
  import opened Words

  const ZERO: Char := 48                 // '0'

  predicate GoodBase(base: int) {
    2 <= base <= 36
  }

  function DigitChar(d: nat): Char
    requires d < 36
  {
    if d < 10 then d + ZERO else d - 10 + 97     // 'a'
  }

  function DigitValue(c: Char): int {
    if c < 58 then c - ZERO else c - 97 + 10
  }

  /** The number a row of digits stands for. */
  function Parse(digits: seq<Char>, base: nat): int {
    if digits == [] then 0
    else Parse(digits[..|digits| - 1], base) * base + DigitValue(digits[|digits| - 1])
  }

  lemma Division(value: nat, base: nat)
    requires base >= 2
    ensures value / base * base + value % base == value && value % base < base
    ensures value > 0 ==> value / base < value
  {
  }

  lemma Shrinks(value: nat, base: nat)
    requires base >= 2
    ensures value % base < base && (value > 0 ==> value / base < value)
  {
    Division(value, base);
  }

  /** The numeral, high digit first. */
  function Numeral(value: nat, base: nat): (digits: seq<Char>)
    requires GoodBase(base)
    ensures digits != []
    decreases value
  {
    if value < base then [DigitChar(value)]
    else
      Shrinks(value, base);
      Numeral(value / base, base) + [DigitChar(value % base)]
  }

  /** The digits as the first loop makes them, low digit first. */
  function LowFirst(value: nat, base: nat): seq<Char>
    requires GoodBase(base)
    decreases value
  {
    Shrinks(value, base);
    if value == 0 then [] else [DigitChar(value % base)] + LowFirst(value / base, base)
  }

  function Reversed(s: seq<Char>): (r: seq<Char>)
    ensures |r| == |s| && forall k :: 0 <= k < |s| ==> r[k] == s[|s| - 1 - k]
  {
    seq(|s|, k requires 0 <= k < |s| => s[|s| - 1 - k])
  }

  lemma SmallValue(value: nat, base: nat)
    requires value < base
    ensures value / base == 0 && value % base == value
  {
  }

  lemma ReversedLonger(d: Char, s: seq<Char>)
    ensures Reversed([d] + s) == Reversed(s) + [d]
  {
  }

  lemma NoDigits(base: nat)
    requires GoodBase(base)
    ensures Reversed(LowFirst(0, base)) == []
  {
  }

  lemma Parts(value: nat, base: nat)
    requires GoodBase(base) && value > 0
    ensures value % base < 36 && value / base < value && (value / base > 0 <==> value >= base)
    ensures value < base ==> value % base == value
  {
    Shrinks(value, base);
    if value < base {
      SmallValue(value, base);
    } else {
      QuotientIsPositive(value, base);
    }
  }

  lemma QuotientIsPositive(value: nat, base: nat)
    requires 0 < base <= value
    ensures value / base > 0
  {
  }

  /** One more digit at the low end, in either order. */
  lemma LastDigit(value: nat, base: nat) returns (d: Char, rest: nat)
    requires GoodBase(base) && value > 0
    ensures rest < value && LowFirst(value, base) == [d] + LowFirst(rest, base)
    ensures Numeral(value, base) == if rest > 0 then Numeral(rest, base) + [d] else [d]
  {
    hide Reversed, DigitChar;
    Parts(value, base);
    d, rest := DigitChar(value % base), value / base;
  }

  lemma {:induction false} LowFirstReversed(value: nat, base: nat)
    requires GoodBase(base) && value > 0
    ensures Reversed(LowFirst(value, base)) == Numeral(value, base)
    decreases value
  {
    hide Reversed, LowFirst, Numeral;
    var d, rest := LastDigit(value, base);
    ReversedLonger(d, LowFirst(rest, base));
    if rest > 0 {
      LowFirstReversed(rest, base);
    } else {
      NoDigits(base);
    }
  }

  lemma NextDigit(digits: seq<Char>, ptr: nat, rest: nat, base: nat)
    requires GoodBase(base) && ptr <= |digits| && digits[ptr..] == LowFirst(rest, base) && rest > 0
    ensures ptr < |digits| && rest % base < base && rest / base < rest
    ensures digits[ptr] == if rest % base < 10 then rest % base + ZERO else rest % base - 10 + 97
    ensures digits[ptr + 1..] == LowFirst(rest / base, base)
  {
    Shrinks(rest, base);
    assert digits[ptr + 1..] == digits[ptr..][1..];
  }

  lemma AllDigits(digits: seq<Char>, ptr: nat, base: nat)
    requires GoodBase(base) && ptr <= |digits| && digits[ptr..] == LowFirst(0, base)
    ensures ptr == |digits| && digits[..ptr] == digits
  {
  }

  // ----- itoa -----

  /** The loop that exchanges digits from both ends. */
  method ReverseInPlace(str: array<Char>, n: nat)
    requires 0 < n <= str.Length
    modifies str
    ensures str[..n] == Reversed(old(str[..n])) && forall k :: n <= k < str.Length ==> str[k] == old(str[k])
  {
    var low, ptr := 0, n - 1;
    while low < ptr
      invariant 0 <= low <= ptr + 1 <= n && low + ptr == n - 1
      invariant forall k :: 0 <= k < low || ptr < k < n ==> str[k] == old(str[n - 1 - k])
      invariant forall k :: low <= k <= ptr || n <= k < str.Length ==> str[k] == old(str[k])
    {
      var tmp := str[low];
      str[low] := str[ptr];
      low := low + 1;
      str[ptr] := tmp;
      ptr := ptr - 1;
    }
  }

  lemma ZeroNumeral(base: nat)
    requires GoodBase(base)
    ensures Numeral(0, base) == [ZERO]
  {
  }

  /** The loop that makes the digits. */
  method PutDigits(value: nat, str: array<Char>, base: nat) returns (ptr: nat)
    requires GoodBase(base) && str.Length > |LowFirst(value, base)|
    modifies str
    ensures ptr == |LowFirst(value, base)| && str[..ptr] == LowFirst(value, base)
    ensures forall k :: ptr <= k < str.Length ==> str[k] == old(str[k])
  {
    hide LowFirst, DigitChar;
    ghost var digits := LowFirst(value, base);
    var rest: nat := value;
    ptr := 0;
    while rest > 0
      invariant ptr <= |digits| && digits[ptr..] == LowFirst(rest, base)
      invariant str[..ptr] == digits[..ptr]
      invariant forall k :: ptr <= k < str.Length ==> str[k] == old(str[k])
      decreases rest
    {
      NextDigit(digits, ptr, rest, base);
      var remainder := rest % base;
      str[ptr] := if remainder < 10 then remainder + ZERO else remainder - 10 + 97;
      ptr := ptr + 1;
      rest := rest / base;
    }
    AllDigits(digits, ptr, base);
  }

  /** `itoa` into a buffer with room for the numeral and its NUL. */
  method ToString(value: Word32, str: array<Char>, base: int)
    requires str.Length > if GoodBase(base) then |Numeral(value, base)| else 0
    modifies str
    ensures var text := if GoodBase(base) then Numeral(value, base) else [];
            && str[..|text|] == text && str[|text|] == 0
            && forall k :: |text| < k < str.Length ==> str[k] == old(str[k])
  {
    hide LowFirst, Numeral;
    if base < 2 || base > 36 {
      str[0] := 0;
      return;
    }
    if value == 0 {
      ZeroNumeral(base);
      str[0], str[1] := ZERO, 0;
      return;
    }
    LowFirstReversed(value, base);
    var ptr := PutDigits(value, str, base);
    str[ptr] := 0;
    ReverseInPlace(str, ptr);
  }

  // ----- what the numeral says -----

  lemma DigitRoundTrip(d: nat)
    requires d < 36
    ensures DigitValue(DigitChar(d)) == d
  {
  }

  /** The digits are '0' to '9' and then 'a' to 'z'. */
  lemma DigitsInOrder(d: nat)
    requires d < 36
    ensures d < 10 ==> DigitChar(d) == "0123456789"[d] as int
    ensures d >= 10 ==> DigitChar(d) == "abcdefghijklmnopqrstuvwxyz"[d - 10] as int
  {
    if d < 10 {
      assert "0123456789"[d] == ['0', '1', '2', '3', '4', '5', '6', '7', '8', '9'][d];
    }
  }

  lemma ParseAppend(digits: seq<Char>, d: nat, base: nat)
    requires d < 36
    ensures Parse(digits + [DigitChar(d)], base) == Parse(digits, base) * base + d
  {
    DigitRoundTrip(d);
    assert (digits + [DigitChar(d)])[..|digits|] == digits;
  }

  /** Parsing the result gives the value back. */
  lemma {:induction false} ParseNumeral(value: nat, base: nat)
    requires GoodBase(base)
    ensures Parse(Numeral(value, base), base) == value
    decreases value
  {
    if value >= base {
      Division(value, base);
      ParseNumeral(value / base, base);
      ParseAppend(Numeral(value / base, base), value % base, base);
    } else {
      ParseAppend([], value, base);
    }
  }

  /** No leading zero, but for zero itself. */
  lemma {:induction false} NoLeadingZero(value: nat, base: nat)
    requires GoodBase(base)
    ensures Numeral(value, base)[0] == ZERO <==> value == 0
    decreases value
  {
    if value >= base {
      Shrinks(value, base);
      NoLeadingZero(value / base, base);
    }
  }

  function Power(base: nat, n: nat): nat {
    if n == 0 then 1 else base * Power(base, n - 1)
  }

  lemma Times(base: nat, x: nat, y: nat)
    requires x <= y
    ensures base * x <= base * y
  {
  }

  lemma QuotientIsLess(value: nat, base: nat, bound: nat)
    requires base > 0 && value < base * bound
    ensures value / base < bound
  {
    if value / base >= bound {
      Times(base, bound, value / base);
      assert false;
    }
  }

  lemma {:induction false} NumeralLength(value: nat, base: nat, n: nat)
    requires GoodBase(base) && n > 0 && value < Power(base, n)
    ensures |Numeral(value, base)| <= n
    decreases n
  {
    if value >= base {
      assert n > 1;
      QuotientIsLess(value, base, Power(base, n - 1));
      NumeralLength(value / base, base, n - 1);
    }
  }

  lemma Product(base: nat, x: nat, y: nat)
    requires base >= 2 && x <= y
    ensures 2 * x <= base * y
  {
    Times(y, 2, base);
    assert y * base == base * y;
  }

  lemma {:induction false} PowerGrows(base: nat, n: nat)
    requires base >= 2
    ensures Power(2, n) <= Power(base, n)
  {
    if n > 0 {
      PowerGrows(base, n - 1);
      Product(base, Power(2, n - 1), Power(base, n - 1));
    }
  }

  lemma PowersOfTwoAndTen()
    ensures Power(2, 32) == WORD && Power(10, 10) == 10_000_000_000
  {
    assert Power(2, 8) == 0x100;
    assert Power(2, 16) == 0x1_0000;
    assert Power(2, 24) == 0x100_0000;
    assert Power(10, 5) == 100_000;
  }

  /** A 32-bit value takes at most 32 digits in any base, at most 10 in base 10. */
  lemma AtMost32Digits(value: Word32, base: nat)
    requires GoodBase(base)
    ensures |Numeral(value, base)| <= 32 && (base == 10 ==> |Numeral(value, base)| <= 10)
  {
    PowersOfTwoAndTen();
    PowerGrows(base, 32);
    NumeralLength(value, base, 32);
    if base == 10 {
      NumeralLength(value, base, 10);
    }
  }
}
