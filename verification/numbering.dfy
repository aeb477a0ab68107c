/**
 * List numbering (`Utils`): bijective base-N letter sequences and Roman numerals.
 */
module Numbering {

  // ---------------------------------------------------------------- C# integer division

  /** C# `a / b` on `int`: the quotient truncated toward zero. */
  function TruncDiv(a: int, b: int): int
    requires b >= 1
  {
    if a >= 0 then a / b else -((-a) / b)
  }

  /** C# `a % b` on `int`: the remainder takes the sign of `a`. */
  function TruncRem(a: int, b: int): int
    requires b >= 1
  {
    if a >= 0 then a % b else -((-a) % b)
  }

  lemma MulAwayFromZero(d: int, b: int)
    requires b > 0
    ensures d == 0 || d * b >= b || d * b <= -b
  {
    if d >= 1 { MulAtLeast(d, b); } else if d <= -1 { MulAtLeast(-d, b); }
  }

  lemma MulAtLeast(d: int, b: int)
    requires d >= 1 && b > 0
    ensures d * b >= b
  {
  }

  /** Euclidean division of `q*b + m` with `0 <= m < b` gives back `q` and `m`. */
  lemma DivMod(q: int, m: int, b: int)
    requires 0 <= m < b
    ensures (q * b + m) / b == q && (q * b + m) % b == m
  {
    var x := q * b + m;
    assert x == (x / b) * b + x % b;
    assert (x / b - q) * b == m - x % b;
    MulAwayFromZero(x / b - q, b);
  }

  lemma MulSign(q: int, b: int)
    requires b >= 1
    ensures q < 0 ==> q * b <= q
    ensures q >= 0 ==> q * b >= q
  {
    assert q * b == q + q * (b - 1);
    if q < 0 { assert (-q) * (b - 1) >= 0; } else { assert q * (b - 1) >= 0; }
  }

  lemma DivFacts(x: int, b: int)
    requires x >= 0 && b >= 1
    ensures 0 <= x / b <= x && 0 <= x % b < b && x == (x / b) * b + x % b
  {
    MulSign(x / b, b);
  }

  /** The truncated quotient and remainder recompose `a`; the remainder is smaller than `b` in size. */
  lemma TruncBounds(a: int, b: int)
    requires b >= 1
    ensures -b < TruncRem(a, b) < b
    ensures a >= 0 ==> 0 <= TruncRem(a, b) && 0 <= TruncDiv(a, b) <= a
    ensures a < 0 ==> TruncDiv(a, b) <= 0
    ensures a == TruncDiv(a, b) * b + TruncRem(a, b)
  {
    var x := if a >= 0 then a else -a;
    DivFacts(x, b);
  }

  // ---------------------------------------------------------------- Letter sequences

  /**
   * The digits `NumberToLetterSequence` produces for `num`, most significant
   * first: repeatedly take `num - 1`, keep its remainder and continue with the
   * quotient while it is positive (C# truncating arithmetic).
   */
  function LetterDigits(num: int, base: int): (ds: seq<int>)
    requires base >= 1
    ensures |ds| >= 1
    ensures forall k :: 0 <= k < |ds| ==> -base < ds[k] < base
    decreases if num > 0 then num else 0
  {
    var m := num - 1;
    TruncBounds(m, base);
    if TruncDiv(m, base) > 0 then LetterDigits(TruncDiv(m, base), base) + [TruncRem(m, base)]
    else [TruncRem(m, base)]
  }

  /** The number a bijective base-`base` digit string denotes (digit `d` stands for d+1). */
  function LetterValue(ds: seq<int>, base: int): int {
    if ds == [] then 0 else LetterValue(ds[..|ds| - 1], base) * base + ds[|ds| - 1] + 1
  }

  /** For positive numbers every digit is a proper digit of the base. */
  lemma {:induction false} LetterDigitsRange(num: int, base: int)
    requires num >= 1 && base >= 1
    ensures forall k :: 0 <= k < |LetterDigits(num, base)| ==> 0 <= LetterDigits(num, base)[k] < base
    decreases num
  {
    var m := num - 1;
    TruncBounds(m, base);
    if TruncDiv(m, base) > 0 {
      LetterDigitsRange(TruncDiv(m, base), base);
    }
  }

  /** Encoding a positive number and reading it back gives the number. */
  lemma {:induction false} LetterRoundTrip(num: int, base: int)
    requires num >= 1 && base >= 1
    ensures LetterValue(LetterDigits(num, base), base) == num
    decreases num
  {
    var m := num - 1;
    var ds := LetterDigits(num, base);
    var q, r := TruncDiv(m, base), TruncRem(m, base);
    TruncBounds(m, base);
    assert LetterValue(ds, base) == LetterValue(ds[..|ds| - 1], base) * base + r + 1;
    if q > 0 {
      LetterRoundTrip(TruncDiv(m, base), base);
      assert ds[..|ds| - 1] == LetterDigits(TruncDiv(m, base), base);
    } else {
      assert ds[..|ds| - 1] == [];
    }
  }

  /** Every non-empty string of proper digits is the encoding of exactly its value. */
  lemma {:induction false} LetterSurjective(ds: seq<int>, base: int)
    requires |ds| >= 1 && base >= 1
    requires forall k :: 0 <= k < |ds| ==> 0 <= ds[k] < base
    ensures LetterValue(ds, base) >= 1 && LetterDigits(LetterValue(ds, base), base) == ds
    decreases |ds|
  {
    var front, d := ds[..|ds| - 1], ds[|ds| - 1];
    var v := LetterValue(front, base);
    if front != [] {
      LetterSurjective(front, base);
    }
    assert v >= 0 by { LetterValueNonNegative(front, base); }
    DivMod(v, d, base);
    assert v * base + d >= 0 by { MulNonNegative(v, base); }
    assert ds == front + [d];
  }

  lemma MulNonNegative(a: int, b: int)
    requires a >= 0 && b >= 0
    ensures a * b >= 0
  {
  }

  lemma {:induction false} LetterValueNonNegative(ds: seq<int>, base: int)
    requires base >= 1
    requires forall k :: 0 <= k < |ds| ==> 0 <= ds[k] < base
    ensures LetterValue(ds, base) >= 0
    decreases |ds|
  {
    if ds != [] {
      LetterValueNonNegative(ds[..|ds| - 1], base);
      MulNonNegative(LetterValue(ds[..|ds| - 1], base), base);
    }
  }

  /** The letter for digit `d`: C# `(char)(baseChar + d)`. */
  function DigitChar(baseChar: char, d: int): char
    requires -0xD7FF <= d < 0xD800 - baseChar as int && 0 <= baseChar as int + d
  {
    (baseChar as int + d) as char
  }

  /** The preconditions under which every digit of `num` is a character, for any num. */
  predicate LetterPreconditions(baseChar: char, base: int) {
    base >= 1 && base - 1 <= baseChar as int && baseChar as int + base <= 0xD800
  }

  /** The letters for a digit string. */
  function Letters(baseChar: char, ds: seq<int>, base: int): (r: string)
    requires LetterPreconditions(baseChar, base)
    requires forall k :: 0 <= k < |ds| ==> -base < ds[k] < base
    ensures |r| == |ds|
  {
    if ds == [] then [] else Letters(baseChar, ds[..|ds| - 1], base) + [DigitChar(baseChar, ds[|ds| - 1])]
  }

  /** What `NumberToLetterSequence` returns. */
  function LetterSequence(num: int, baseChar: char, baseNum: int): string
    requires LetterPreconditions(baseChar, baseNum)
  {
    Letters(baseChar, LetterDigits(num, baseNum), baseNum)
  }

  /** The digit each letter stands for. */
  function LetterCodes(s: string, baseChar: char): (ds: seq<int>)
    ensures |ds| == |s|
  {
    if s == [] then [] else LetterCodes(s[..|s| - 1], baseChar) + [s[|s| - 1] as int - baseChar as int]
  }

  lemma {:induction false} LetterCodesOfLetters(baseChar: char, ds: seq<int>, base: int)
    requires LetterPreconditions(baseChar, base)
    requires forall k :: 0 <= k < |ds| ==> -base < ds[k] < base
    ensures LetterCodes(Letters(baseChar, ds, base), baseChar) == ds
    decreases |ds|
  {
    if ds != [] {
      var r := Letters(baseChar, ds, base);
      LetterCodesOfLetters(baseChar, ds[..|ds| - 1], base);
      assert r[..|r| - 1] == Letters(baseChar, ds[..|ds| - 1], base);
    }
  }

  /**
   * For a positive number the sequence is non-empty, uses only the `baseNum`
   * letters from `baseChar` on, and reads back (bijective base `baseNum`) as the number.
   */
  lemma LetterSequenceRoundTrip(num: int, baseChar: char, baseNum: int)
    requires LetterPreconditions(baseChar, baseNum) && num >= 1
    ensures var r := LetterSequence(num, baseChar, baseNum);
      |r| >= 1
      && (forall k :: 0 <= k < |r| ==> baseChar <= r[k] && r[k] as int < baseChar as int + baseNum)
      && LetterValue(LetterCodes(r, baseChar), baseNum) == num
  {
    var ds := LetterDigits(num, baseNum);
    LetterDigitsRange(num, baseNum);
    LetterRoundTrip(num, baseNum);
    LetterCodesOfLetters(baseChar, ds, baseNum);
    var r := LetterSequence(num, baseChar, baseNum);
    forall k | 0 <= k < |r|
      ensures baseChar <= r[k] && r[k] as int < baseChar as int + baseNum
    {
      assert LetterCodes(r, baseChar)[k] == r[k] as int - baseChar as int by {
        LetterCodesAt(r, baseChar, k);
      }
    }
  }

  lemma {:induction false} LetterCodesAt(s: string, baseChar: char, k: nat)
    requires k < |s|
    ensures LetterCodes(s, baseChar)[k] == s[k] as int - baseChar as int
    decreases |s|
  {
    if k < |s| - 1 {
      LetterCodesAt(s[..|s| - 1], baseChar, k);
    }
  }

  /** The numbering of ordered lists of type "a": 26 is "z", 27 "aa", 702 "zz", 703 "aaa". */
  lemma LetterSequenceExamples()
    ensures LetterSequence(1, 'a', 26) == "a"
    ensures LetterSequence(26, 'a', 26) == "z"
    ensures LetterSequence(27, 'a', 26) == "aa"
    ensures LetterSequence(702, 'a', 26) == "zz"
    ensures LetterSequence(703, 'a', 26) == "aaa"
  {
  }

  /**
   * The do-while loop of `Utils.NumberToLetterSequence`: collects the digits of
   * `num`, least significant first.
   */
  method CollectLetterDigits(num: int, baseNum: int) returns (digits: seq<int>)
    requires baseNum >= 1
    ensures Reversed(digits) == LetterDigits(num, baseNum)
  {
    var n := num;
    digits := [];
    while digits == [] || n > 0
      invariant digits == [] ==> n == num
      invariant LetterDigits(num, baseNum) == Pending(n, digits, baseNum) + Reversed(digits)
      decreases (if n > 0 then n else 0) + (if digits == [] then 1 else 0)
    {
      ghost var before, earlier := n, digits;
      n := n - 1;
      var d := TruncRem(n, baseNum);
      digits := digits + [d];
      n := TruncDiv(n, baseNum);
      CollectStep(LetterDigits(num, baseNum), before, earlier, baseNum);
    }
  }

  /** The digits of `n` the loop of `CollectLetterDigits` has still to collect. */
  ghost function Pending(n: int, digits: seq<int>, base: int): seq<int>
    requires base >= 1
  {
    if digits == [] || n > 0 then LetterDigits(n, base) else []
  }

  /** One round of `CollectLetterDigits` keeps its invariant. */
  lemma CollectStep(whole: seq<int>, n: int, digits: seq<int>, base: int)
    requires base >= 1 && (digits == [] || n > 0)
    requires whole == LetterDigits(n, base) + Reversed(digits)
    ensures if n > 0 then TruncDiv(n - 1, base) < n else TruncDiv(n - 1, base) <= 0
    ensures whole == Pending(TruncDiv(n - 1, base), digits + [TruncRem(n - 1, base)], base)
      + Reversed(digits + [TruncRem(n - 1, base)])
  {
    TruncBounds(n - 1, base);
    LetterDigitsStep(n, base);
    ReversedSnoc(digits, TruncRem(n - 1, base));
  }

  /**
   * `Utils.NumberToLetterSequence`: the digits are reversed to most significant
   * first and each becomes the character `baseChar + digit`.
   */
  method NumberToLetterSequence(num: int, baseChar: char, baseNum: int) returns (r: string)
    requires LetterPreconditions(baseChar, baseNum)
    ensures r == LetterSequence(num, baseChar, baseNum)
  {
    var digits := CollectLetterDigits(num, baseNum);
    var ordered := Reversed(digits);
    assert ordered == LetterDigits(num, baseNum);
    r := [];
    var i := 0;
    while i < |ordered|
      invariant 0 <= i <= |ordered|
      invariant ordered == LetterDigits(num, baseNum)
      invariant r == Letters(baseChar, ordered[..i], baseNum)
    {
      ghost var next := ordered[..i + 1];
      assert next[..i] == ordered[..i] && next[i] == ordered[i];
      assert Letters(baseChar, next, baseNum) == Letters(baseChar, ordered[..i], baseNum) + [DigitChar(baseChar, ordered[i])];
      r := r + [DigitChar(baseChar, ordered[i])];
      i := i + 1;
    }
    assert ordered[..i] == ordered;
  }

  /** One round of the digit loop: the last digit and the number still to encode. */
  lemma LetterDigitsStep(num: int, base: int)
    requires base >= 1
    ensures LetterDigits(num, base) ==
      (if TruncDiv(num - 1, base) > 0 then LetterDigits(TruncDiv(num - 1, base), base) else [])
      + [TruncRem(num - 1, base)]
  {
  }

  lemma ReversedSnoc(s: seq<int>, x: int)
    ensures Reversed(s + [x]) == [x] + Reversed(s)
  {
    assert (s + [x])[..|s|] == s;
  }

  /** The elements of a sequence in reverse order. */
  function Reversed(s: seq<int>): (r: seq<int>)
    ensures |r| == |s|
  {
    if s == [] then [] else [s[|s| - 1]] + Reversed(s[..|s| - 1])
  }

  // ---------------------------------------------------------------- Roman numerals

  /** Powers of ten, for the four decimal places a numeral can have and one beyond. */
  function Pow10(i: nat): (r: nat)
    requires i <= 4
    ensures r >= 1
  {
    [1, 10, 100, 1000, 10000][i]
  }

  /** The numbers whose numeral at place `i` stays inside the tables: below 4 * 10^(3-i). */
  function PlaceLimit(i: nat): nat
    requires i <= 3
  {
    [4000, 400, 40, 4][i]
  }

  /** The tables `I = {"I","X","C","M"}` and `V = {"V","L","D"}`. */
  function OneSymbol(i: nat): char
    requires i < 4
  {
    ['I', 'X', 'C', 'M'][i]
  }

  function FiveSymbol(i: nat): char
    requires i < 3
  {
    ['V', 'L', 'D'][i]
  }

  /** `new string(c, k)`. */
  function Copies(c: char, k: nat): (r: string)
    ensures |r| == k && forall j :: 0 <= j < k ==> r[j] == c
  {
    if k == 0 then [] else [c] + Copies(c, k - 1)
  }

  /**
   * The numeral for decimal digit `v` at position `i` (0 = units): 0-3 repeat
   * I[i], 4 is I[i]V[i], 5-8 are V[i] and repeats, 9 is I[i]I[i+1].
   */
  function RomanDigit(v: nat, i: nat): string
    requires v < 10 && i < 4 && (i == 3 ==> v < 4)
  {
    if v % 5 < 4 then (if v < 5 then [] else [FiveSymbol(i)]) + Copies(OneSymbol(i), v % 5)
    else [OneSymbol(i)] + (if v < 5 then [FiveSymbol(i)] else [OneSymbol(i + 1)])
  }

  /** The digits of `n`, most significant first, each rendered for its position. */
  function RomanFrom(n: nat, i: nat): string
    requires (i <= 3 && n < PlaceLimit(i)) || n == 0
    decreases n
  {
    if n == 0 then [] else RomanFrom(n / 10, i + 1) + RomanDigit(n % 10, i)
  }

  /** `Utils.NumberToRoman`: defined for 0..3999 (0 gives ""). */
  function NumberToRoman(num: int): string
    requires 0 <= num <= 3999
  {
    RomanFrom(num, 0)
  }

  /** The value of one Roman letter. */
  function SymbolValue(c: char): nat {
    match c
    case 'I' => 1 case 'V' => 5 case 'X' => 10 case 'L' => 50
    case 'C' => 100 case 'D' => 500 case 'M' => 1000
    case _ => 0
  }

  /** The usual reading of a Roman numeral: a letter before a larger one is subtracted. */
  function RomanValue(s: string): int {
    if s == [] then 0
    else if |s| >= 2 && SymbolValue(s[0]) < SymbolValue(s[1]) then RomanValue(s[1..]) - SymbolValue(s[0])
    else SymbolValue(s[0]) + RomanValue(s[1..])
  }

  /** The reading splits where no letter is smaller than the one after it. */
  lemma {:induction false} RomanValueAppend(a: string, b: string)
    requires a != [] && (b == [] || SymbolValue(a[|a| - 1]) >= SymbolValue(b[0]))
    ensures RomanValue(a + b) == RomanValue(a) + RomanValue(b)
  {
    assert (a + b)[1..] == a[1..] + b;
    if |a| > 1 {
      RomanValueAppend(a[1..], b);
    } else {
      assert a + b == [a[0]] + b;
    }
  }

  lemma {:induction false} CopiesValue(c: char, k: nat)
    ensures RomanValue(Copies(c, k)) == k * SymbolValue(c)
  {
    if k > 0 {
      CopiesValue(c, k - 1);
      assert Copies(c, k)[1..] == Copies(c, k - 1);
    }
  }

  lemma SymbolValues(i: nat)
    requires i < 4
    ensures SymbolValue(OneSymbol(i)) == Pow10(i)
    ensures i < 3 ==> SymbolValue(FiveSymbol(i)) == 5 * Pow10(i)
  {
    assert Pow10(0) == 1 && Pow10(1) == 10 && Pow10(2) == 100 && Pow10(3) == 1000;
  }

  /** `[five] + k ones` reads as five plus k ones. */
  lemma FiveThenOnes(five: char, one: char, k: nat)
    requires SymbolValue(five) >= SymbolValue(one)
    ensures RomanValue([five] + Copies(one, k)) == SymbolValue(five) + k * SymbolValue(one)
  {
    CopiesValue(one, k);
    assert ([five] + Copies(one, k))[1..] == Copies(one, k);
  }

  /** The value, the first letter and the last letter of a numeral piece, as the position demands. */
  predicate PlaceValued(piece: string, v: nat, p: nat) {
    RomanValue(piece) == v * p
    && (piece != [] ==> SymbolValue(piece[0]) <= 5 * p)
    && (piece != [] ==> SymbolValue(piece[|piece| - 1]) >= p)
  }

  lemma RomanOnes(v: nat, i: nat)
    requires v < 4 && i < 4
    ensures RomanValue(RomanDigit(v, i)) == v * SymbolValue(OneSymbol(i))
  {
    CopiesValue(OneSymbol(i), v);
    assert RomanDigit(v, i) == Copies(OneSymbol(i), v);
  }

  lemma RomanLowDigit(v: nat, i: nat)
    requires v < 4 && i < 4
    ensures PlaceValued(RomanDigit(v, i), v, Pow10(i))
  {
    RomanOnes(v, i);
    SymbolValues(i);
    assert RomanDigit(v, i) == Copies(OneSymbol(i), v);
  }

  lemma RomanFiveAndOnes(v: nat, i: nat)
    requires 5 <= v < 9 && i < 3
    ensures RomanValue(RomanDigit(v, i)) == SymbolValue(FiveSymbol(i)) + (v - 5) * SymbolValue(OneSymbol(i))
    ensures RomanDigit(v, i)[0] == FiveSymbol(i)
    ensures RomanDigit(v, i)[|RomanDigit(v, i)| - 1] in {FiveSymbol(i), OneSymbol(i)}
  {
    SymbolValues(i);
    FiveThenOnes(FiveSymbol(i), OneSymbol(i), v - 5);
    assert RomanDigit(v, i) == [FiveSymbol(i)] + Copies(OneSymbol(i), v - 5);
  }

  lemma RomanHighDigit(v: nat, i: nat)
    requires 5 <= v < 9 && i < 3
    ensures PlaceValued(RomanDigit(v, i), v, Pow10(i))
  {
    RomanFiveAndOnes(v, i);
    SymbolValues(i);
    var p := Pow10(i);
    assert v * p == 5 * p + (v - 5) * p;
  }

  lemma RomanSubtractiveDigit(v: nat, i: nat)
    requires (v == 4 || v == 9) && i < 3
    ensures PlaceValued(RomanDigit(v, i), v, Pow10(i))
  {
    var p := Pow10(i);
    SymbolValues(i);
    SymbolValues(i + 1);
    assert Pow10(i + 1) == 10 * p;
    var one, big := OneSymbol(i), if v == 4 then FiveSymbol(i) else OneSymbol(i + 1);
    assert RomanDigit(v, i) == [one, big];
    assert [one, big][1..] == [big] && [big][1..] == [];
    assert SymbolValue(big) == if v == 4 then 5 * p else 10 * p;
    assert RomanValue([big]) == SymbolValue(big);
    assert RomanValue([one, big]) == SymbolValue(big) - SymbolValue(one);
  }

  /** Each digit's numeral reads back as the digit times its place value. */
  lemma RomanDigitValue(v: nat, i: nat)
    requires v < 10 && i < 4 && (i == 3 ==> v < 4)
    ensures PlaceValued(RomanDigit(v, i), v, Pow10(i))
  {
    if v < 4 { RomanLowDigit(v, i); }
    else if v == 4 || v == 9 { RomanSubtractiveDigit(v, i); }
    else { RomanHighDigit(v, i); }
  }

  /** Reading back the numeral of `n` at place `i` gives `n * 10^i`. */
  lemma {:induction false} RomanFromValue(n: nat, i: nat)
    requires i <= 3 && n < PlaceLimit(i)
    ensures RomanValue(RomanFrom(n, i)) == n * Pow10(i)
    ensures RomanFrom(n, i) != [] ==> SymbolValue(RomanFrom(n, i)[|RomanFrom(n, i)| - 1]) >= Pow10(i)
    decreases n
  {
    if n != 0 {
      if n / 10 != 0 {
        RomanFromValue(n / 10, i + 1);
        RomanFromJoin(n, i);
      } else {
        RomanFromSingle(n, i);
      }
    }
  }

  /** A number below ten: its numeral is its one digit's. */
  lemma RomanFromSingle(n: nat, i: nat)
    requires i <= 3 && n < PlaceLimit(i) && n != 0 && n / 10 == 0
    ensures RomanValue(RomanFrom(n, i)) == n * Pow10(i)
    ensures SymbolValue(RomanFrom(n, i)[|RomanFrom(n, i)| - 1]) >= Pow10(i)
  {
    var low := RomanDigit(n % 10, i);
    assert RomanFrom(n, i) == RomanFrom(0, i + 1) + low == low;
    RomanDigitValue(n % 10, i);
  }

  /** The numeral of the higher digits followed by the numeral of the units digit. */
  lemma RomanFromJoin(n: nat, i: nat)
    requires i <= 3 && n < PlaceLimit(i) && n / 10 != 0
    requires i < 3 && RomanValue(RomanFrom(n / 10, i + 1)) == n / 10 * Pow10(i + 1)
    requires RomanFrom(n / 10, i + 1) != [] ==> SymbolValue(RomanFrom(n / 10, i + 1)[|RomanFrom(n / 10, i + 1)| - 1]) >= Pow10(i + 1)
    ensures RomanValue(RomanFrom(n, i)) == n * Pow10(i)
    ensures RomanFrom(n, i) != [] ==> SymbolValue(RomanFrom(n, i)[|RomanFrom(n, i)| - 1]) >= Pow10(i)
  {
    var high, low := RomanFrom(n / 10, i + 1), RomanDigit(n % 10, i);
    assert RomanFrom(n, i) == high + low;
    assert Pow10(i + 1) == 10 * Pow10(i);
    RomanDigitValue(n % 10, i);
    PiecesJoin(high, low, n, Pow10(i));
  }

  /**
   * A numeral worth `n / 10` tens of `p` followed by a piece worth `n % 10`
   * of `p` is worth `n` of `p`, and still ends in a letter worth at least `p`.
   */
  lemma PiecesJoin(high: string, low: string, n: nat, p: nat)
    requires p >= 1 && n / 10 >= 1
    requires RomanValue(high) == n / 10 * (10 * p)
    requires high != [] ==> SymbolValue(high[|high| - 1]) >= 10 * p
    requires PlaceValued(low, n % 10, p)
    ensures RomanValue(high + low) == n * p
    ensures high + low != [] && SymbolValue((high + low)[|high + low| - 1]) >= p
  {
    MultiplyAtLeastOnce(n / 10, 10 * p);
    assert high != [];
    RomanValueAppend(high, low);
    DecimalShift(n, p);
  }

  lemma MultiplyAtLeastOnce(k: nat, p: nat)
    requires k >= 1
    ensures k * p >= p
  {
  }

  lemma DecimalShift(n: nat, p: nat)
    ensures n * p == (n / 10) * (10 * p) + (n % 10) * p
  {
    assert n == 10 * (n / 10) + n % 10;
    assert n * p == (10 * (n / 10)) * p + (n % 10) * p;
  }

  /** `NumberToRoman` is the Roman numeral of its input: reading it back gives the number. */
  lemma NumberToRomanRoundTrip(num: int)
    requires 0 <= num <= 3999
    ensures RomanValue(NumberToRoman(num)) == num
  {
    var r := RomanFrom(num, 0);
    assert NumberToRoman(num) == r;
    RomanFromValue(num, 0);
    assert Pow10(0) == 1;
    assert RomanValue(r) == num * 1;
  }

  /** Numerals of ordered lists of type "I" and, lower-cased, of type "i". */
  lemma RomanExamples()
    ensures NumberToRoman(8) == "VIII" && ToLowerAscii(NumberToRoman(8)) == "viii"
    ensures NumberToRoman(9) == "IX" && ToLowerAscii(NumberToRoman(9)) == "ix"
  {
    RomanUnits(8);
    RomanUnits(9);
    RomanEight();
    RomanNine();
  }

  /** A number below ten is its units digit alone. */
  lemma RomanUnits(v: nat)
    requires v < 10
    ensures NumberToRoman(v) == RomanDigit(v, 0)
  {
    if v > 0 {
      assert RomanFrom(v, 0) == RomanFrom(0, 1) + RomanDigit(v, 0);
    }
  }

  /** Eight is V and three I's. */
  lemma RomanEight()
    ensures RomanDigit(8, 0) == "VIII" && ToLowerAscii("VIII") == "viii"
  {
    assert Copies('I', 3) == "III";
    assert ToLowerAscii("I") == "i";
    assert ToLowerAscii("II") == "ii";
    assert ToLowerAscii("III") == "iii";
  }

  /** Nine is I before X. */
  lemma RomanNine()
    ensures RomanDigit(9, 0) == "IX" && ToLowerAscii("IX") == "ix"
  {
    assert ToLowerAscii("X") == "x";
  }

  /** `ToLower` on the Latin capitals (the only letters a numeral holds). */
  function ToLowerAscii(s: string): (r: string)
    ensures |r| == |s|
    ensures forall k :: 0 <= k < |s| ==> r[k] == if 'A' <= s[k] <= 'Z' then (s[k] as int + 32) as char else s[k]
  {
    if s == [] then []
    else [if 'A' <= s[0] <= 'Z' then (s[0] as int + 32) as char else s[0]] + ToLowerAscii(s[1..])
  }

  // ---------------------------------------------------------------- Decimal numbers

  /** The decimal digits of a natural number, as `int.ToString()` writes them. */
  function DecimalDigits(n: nat): (r: string)
    ensures |r| >= 1 && forall k :: 0 <= k < |r| ==> '0' <= r[k] <= '9'
    ensures |r| > 1 ==> r[0] != '0'
  {
    if n < 10 then [('0' as int + n) as char]
    else DecimalDigits(n / 10) + [('0' as int + n % 10) as char]
  }

  /** `int.ToString()`. */
  function DecimalString(n: int): string {
    if n < 0 then "-" + DecimalDigits(-n) else DecimalDigits(n)
  }

  /** The number a string of decimal digits denotes. */
  function DecimalValue(s: string): int {
    if s == [] then 0 else DecimalValue(s[..|s| - 1]) * 10 + (s[|s| - 1] as int - '0' as int)
  }

  /** Reading the decimal digits of `n` back gives `n`. */
  lemma {:induction false} DecimalRoundTrip(n: nat)
    ensures DecimalValue(DecimalDigits(n)) == n
  {
    if n >= 10 {
      DecimalRoundTrip(n / 10);
      var r := DecimalDigits(n);
      assert r[..|r| - 1] == DecimalDigits(n / 10);
    }
  }
}
