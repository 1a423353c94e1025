/**
 * Positional numerals over the 62-symbol alphabet 0-9a-zA-Z, as used by the
 * `convert_base` helper of `unpack_packed` and by `usize::to_string` (base 10).
 */
module Numerals {
  import opened Chars

  /** True for the symbols of the alphabet 0-9a-zA-Z. */
  predicate IsAlnum(ch: char) {
    IsDigit(ch) || ('a' <= ch <= 'z') || ('A' <= ch <= 'Z')
  }

  /** The value of a symbol: '0'..'9' are 0..9, 'a'..'z' are 10..35, 'A'..'Z' are 36..61. */
  function DigitValue(ch: char): (d: nat)
    requires IsAlnum(ch)
    ensures d < 62
  {
    if ch <= '9' then ch as int - '0' as int
    else if ch >= 'a' then ch as int - 'a' as int + 10
    else ch as int - 'A' as int + 36
  }

  /**
   * Entry `d` of the digit table "0123456789abcdefghijklmnopqrstuvwxyzABCDEFGHIJKLMNOPQRSTUVWXYZ",
   * written in closed form.
   */
  function DigitChar(d: nat): (ch: char)
    requires d < 62
    ensures IsAlnum(ch) && DigitValue(ch) == d
  {
    if d < 10 then ('0' as int + d) as char
    else if d < 36 then ('a' as int + d - 10) as char
    else ('A' as int + d - 36) as char
  }

  /** Every symbol of `s` is a digit of the given base. */
  predicate IsNumeral(s: string, base: nat) {
    forall k :: 0 <= k < |s| ==> IsAlnum(s[k]) && DigitValue(s[k]) < base
  }

  /** The number that the symbols of `s` denote in the given base, most significant first. */
  function ValueOf(s: string, base: nat): nat
    requires forall k :: 0 <= k < |s| ==> IsAlnum(s[k])
  {
    if s == [] then 0 else ValueOf(s[..|s| - 1], base) * base + DigitValue(s[|s| - 1])
  }

  /** Euclidean division by a base of at least two. */
  lemma DivMod(v: nat, base: nat)
    requires 2 <= base
    ensures v == (v / base) * base + v % base && 0 <= v % base < base
    ensures v >= base ==> 1 <= v / base < v
    ensures v < base ==> v / base == 0 && v % base == v
  {
  }

  /** The least significant digit of `v` in the given base. */
  function LowDigit(v: nat, base: nat): (d: nat)
    requires 2 <= base
    ensures d < base && d == v % base
  {
    DivMod(v, base);
    v % base
  }

  /**
   * The base-`base` numeral of `v`: "0" for zero, otherwise the digits of `v`
   * without leading zeros.
   */
  function Numeral(v: nat, base: nat): (s: string)
    requires 2 <= base <= 62
    ensures |s| >= 1 && IsNumeral(s, base)
    ensures v > 0 ==> s[0] != '0'
    decreases v
  {
    DivMod(v, base);
    if v < base then [DigitChar(v)] else Numeral(v / base, base) + [DigitChar(LowDigit(v, base))]
  }

  /** Reading a numeral back in its base gives the number it was made from. */
  lemma {:induction false} NumeralValue(v: nat, base: nat)
    requires 2 <= base <= 62
    ensures ValueOf(Numeral(v, base), base) == v
    decreases v
  {
    var s := Numeral(v, base);
    DivMod(v, base);
    if v < base {
      assert s[..0] == [];
    } else {
      NumeralValue(v / base, base);
      assert s[..|s| - 1] == Numeral(v / base, base);
    }
  }

  /** A numeral is a single symbol exactly when the number is below the base. */
  lemma NumeralSingleSymbol(v: nat, base: nat)
    requires 2 <= base <= 62
    ensures |Numeral(v, base)| == 1 <==> v < base
  {
    DivMod(v, base);
  }

  /** Distinct numbers have distinct numerals. */
  lemma NumeralInjective(v: nat, w: nat, base: nat)
    requires 2 <= base <= 62
    ensures Numeral(v, base) == Numeral(w, base) ==> v == w
  {
    NumeralValue(v, base);
    NumeralValue(w, base);
  }

  /** The last symbol of a numeral is the remainder's; the rest is the quotient's numeral. */
  lemma NumeralSplit(v: nat, q: nat, base: nat)
    requires 2 <= base <= 62 && v > 0 && q == v / base
    ensures Numeral(v, base) == (if q == 0 then [] else Numeral(q, base)) + [DigitChar(LowDigit(v, base))]
  {
    DivMod(v, base);
  }

  /** One round of `convert_base` keeps the numeral of `value` split between `v` and `res`. */
  lemma ConvertStep(value: nat, v: nat, q: nat, res: string, base: nat)
    requires 2 <= base <= 62 && v > 0 && q == v / base
    requires Numeral(value, base) == Numeral(v, base) + res
    ensures Numeral(value, base) == (if q == 0 then [] else Numeral(q, base)) + ([DigitChar(LowDigit(v, base))] + res)
  {
    NumeralSplit(v, q, base);
    var high: string := if q == 0 then [] else Numeral(q, base);
    var last := [DigitChar(LowDigit(v, base))];
    assert (high + last) + res == high + (last + res);
  }

  /**
   * `convert_base`: collects the remainders of repeated division, prepending
   * each one's symbol, and answers "0" for zero.
   */
  method ConvertBase(value: nat, base: nat) returns (res: string)
    requires 2 <= base <= 62
    ensures res == Numeral(value, base)
    ensures value == 0 ==> res == "0"
    ensures value > 0 ==> res[0] != '0'
    ensures IsNumeral(res, base) && ValueOf(res, base) == value
  {
    if value == 0 {
      return "0";
    }
    res := "";
    var v: nat := value;
    while v > 0
      invariant Numeral(value, base) == (if v == 0 then [] else Numeral(v, base)) + res
      decreases v
    {
      DivMod(v, base);
      ConvertStep(value, v, v / base, res, base);
      var rem := LowDigit(v, base);
      res := [DigitChar(rem)] + res;
      v := v / base;
    }
    NumeralValue(value, base);
  }
}
