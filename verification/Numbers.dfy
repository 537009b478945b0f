/** `printnum`, the recursive digit printer, and what its output denotes. */
module Numbers {
  import opened Machine

  const MINUS: u8 := 45
  const ZERO: u8 := 48

  /** The character of a digit: "0123456789abcdef". */
  function DigitChar(d: nat): u8
    requires d < 16
  {
    if d < 10 then ZERO + d else 87 + d
  }

  /** The digit that a character stands for in any base up to 36, or 36 for none. */
  function DigitValue(c: u8): (d: nat)
    ensures d <= 36
  {
    if 48 <= c <= 57 then c - 48
    else if 97 <= c <= 122 then c - 97 + 10
    else if 65 <= c <= 90 then c - 65 + 10
    else 36
  }

  /** A value with one more digit behind it. */
  function Append(v: nat, base: nat, d: nat): nat {
    v * base + d
  }

  /** Positional value, most significant digit first. */
  function Eval(s: seq<u8>, base: nat): nat {
    if s == [] then 0 else Append(Eval(s[..|s| - 1], base), base, DigitValue(s[|s| - 1]))
  }

  /** The digits of a number, without leading zeros. */
  function Digits(num: nat, base: nat): (s: seq<u8>)
    requires 2 <= base <= 16
    ensures |s| > 0
    ensures forall i :: 0 <= i < |s| ==> DigitValue(s[i]) < base
    decreases num
  {
    AppendLast(num, base);
    if num < base then [DigitChar(num)] else Digits(num / base, base) + [DigitChar(num % base)]
  }

  /** A number right-aligned in a field. */
  function Padded(num: nat, base: nat, width: int, padc: u8): (out: seq<u8>)
    requires 2 <= base <= 16
  {
    Repeat(padc, width - |Digits(num, base)|) + Digits(num, base)
  }

  /** Splitting off the last digit, and putting it back. */
  lemma AppendLast(num: nat, base: nat)
    requires base >= 2
    ensures Append(num / base, base, num % base) == num && num % base < base
    ensures num >= base ==> 0 < num / base < num
  {
    var q, r := num / base, num % base;
    assert q * base + r == num;
    AppendZero(base, num % base);
    if num >= base {
      if q == 0 {
        assert false;
      }
      MulAtLeast2(q, base);
    }
  }

  lemma AppendZero(base: nat, d: nat)
    ensures Append(0, base, d) == d
  {
  }

  lemma MulAtLeast2(a: nat, b: nat)
    requires b >= 2
    ensures a * b >= a + a
  {
    assert a * b == a * (b - 2) + a * 2;
  }

  lemma LastOfAppend(v: nat, base: nat, d: nat)
    requires d < base
    ensures Append(v, base, d) / base == v
  {
    var q, r := Append(v, base, d) / base, Append(v, base, d) % base;
    assert q * base + r == v * base + d;
    assert (q - v) * base == d - r;
    if q < v {
      MulAtLeast(v - q, base);
      assert false;
    } else if q > v {
      MulAtLeast(q - v, base);
      assert false;
    }
  }

  lemma MulAtLeast(a: nat, b: nat)
    requires a >= 1
    ensures a * b >= b
  {
    assert a * b == (a - 1) * b + b;
  }

  lemma {:induction false} DigitsDenote(num: nat, base: nat)
    requires 2 <= base <= 16
    ensures Eval(Digits(num, base), base) == num
    ensures Digits(num, base)[0] == ZERO ==> num == 0 && |Digits(num, base)| == 1
    decreases num
  {
    hide Append;
    AppendLast(num, base);
    if num >= base {
      DigitsDenote(num / base, base);
      var init := Digits(num / base, base);
      assert Digits(num, base)[..|init|] == init;
    } else {
      SmallNumber(num, base);
    }
  }

  lemma SmallNumber(num: nat, base: nat)
    requires num < base && 2 <= base <= 16
    ensures Eval([DigitChar(num)], base) == num
  {
    AppendZero(base, num);
  }

  /** No shorter numeral denotes the same number. */
  lemma {:induction false} DigitsAreShortest(s: seq<u8>, base: nat)
    requires 2 <= base <= 16 && s != []
    requires forall i :: 0 <= i < |s| ==> DigitValue(s[i]) < base
    ensures |Digits(Eval(s, base), base)| <= |s|
    decreases |s|
  {
    var n := |s| - 1;
    if n == 0 {
      AppendZero(base, DigitValue(s[0]));
    } else if Eval(s, base) >= base {
      LastOfAppend(Eval(s[..n], base), base, DigitValue(s[n]));
      DigitsAreShortest(s[..n], base);
    }
  }

  lemma EvalExtends(s: seq<u8>, from: nat, i: nat, base: nat)
    requires from <= i < |s|
    ensures Eval(s[from..i + 1], base) == Append(Eval(s[from..i], base), base, DigitValue(s[i]))
  {
    assert s[from..i + 1][..i - from] == s[from..i];
  }

  /** The value that a digit loop holds on the way never exceeds the final one. */
  lemma {:induction false} PartialValues(s: seq<u8>, base: nat, k: nat)
    requires base >= 1 && k <= |s|
    ensures Eval(s[..k], base) <= Eval(s, base)
    decreases |s|
  {
    if k < |s| {
      var n := |s| - 1;
      PartialValues(s[..n], base, k);
      assert s[..n][..k] == s[..k];
      AppendGrows(Eval(s[..n], base), base, DigitValue(s[n]));
    } else {
      assert s[..k] == s;
    }
  }

  lemma AppendGrows(v: nat, base: nat, d: nat)
    requires base >= 1
    ensures v <= Append(v, base, d)
  {
    MulAtLeast(base, v);
  }

  /** A signed number: the sign comes first, and does not count for the width. */
  function Signed(n: int, base: nat, width: int, padc: u8): seq<u8>
    requires 2 <= base <= 16
  {
    if n < 0 then [MINUS] + Padded(-n, base, width, padc) else Padded(n, base, width, padc)
  }

  /** The digits of every base up to 36, in lower and in upper case; no other character is one. */
  lemma DigitCharacters(c: u8)
    ensures 48 <= c <= 57 ==> DigitValue(c) == c - 48
    ensures 'a' as int <= c <= 'z' as int ==> DigitValue(c) == 10 + (c - 'a' as int)
    ensures 'A' as int <= c <= 'Z' as int ==> DigitValue(c) == 10 + (c - 'A' as int)
    ensures DigitValue(c) < 36 ==>
      48 <= c <= 57 || 'a' as int <= c <= 'z' as int || 'A' as int <= c <= 'Z' as int
  {
  }

  /** Numbers are written in lower case. */
  lemma {:induction false} DigitsAreLower(num: nat, base: nat)
    requires 2 <= base <= 16
    ensures forall i :: 0 <= i < |Digits(num, base)| ==>
      var c := Digits(num, base)[i]; 48 <= c <= 57 || 'a' as int <= c <= 'f' as int
    decreases num
  {
    AppendLast(num, base);
    if num >= base {
      DigitsAreLower(num / base, base);
    }
  }

  /** "15254" is 6828 in octal. */
  lemma OctalExample()
    ensures Digits(6828, 8) == [49, 53, 50, 53, 52]
  {
    assert Digits(1, 8) == [49];
    assert Digits(13, 8) == Digits(1, 8) + [53];
    assert Digits(106, 8) == Digits(13, 8) + [50];
    assert Digits(853, 8) == Digits(106, 8) + [53];
    assert Digits(6828, 8) == Digits(853, 8) + [52];
  }

  /** A number in a field: pad characters as far as they are needed, and then its digits; for a negative
      one, the sign in front of all that. */
  lemma FieldMeaning(n: int, base: nat, width: int, padc: u8)
    requires 2 <= base <= 16
    ensures var out, digits := Signed(n, base, width, padc), Digits(if n < 0 then -n else n, base);
      var sign := if n < 0 then 1 else 0;
      && |out| == sign + Max(width, |digits|)
      && (n < 0 ==> out[0] == '-' as int)
      && (forall j :: sign <= j < |out| - |digits| ==> out[j] == padc)
      && out[|out| - |digits|..] == digits
  {
    hide Digits;
  }

  lemma PaddedStep(num: nat, base: nat, width: int, padc: u8)
    requires 2 <= base <= 16
    ensures num % base < base <= 16
    ensures Padded(num, base, width, padc) ==
      (if num >= base then Padded(num / base, base, width - 1, padc) else Repeat(padc, width - 1))
      + [DigitChar(num % base)]
  {
    hide Repeat, DigitValue, Eval;
    if num >= base {
      var init := Digits(num / base, base);
      assert Repeat(padc, width - 1 - |init|) + (init + [DigitChar(num % base)])
          == Repeat(padc, width - 1 - |init|) + init + [DigitChar(num % base)];
    }
  }

  /** `width` is handed down decremented, and the padding is done in the deepest call. */
  method PrintNum(num: u64, base: nat, width: int, padc: u8) returns (out: seq<u8>)
    requires 2 <= base <= 16
    ensures out == Padded(num, base, width, padc)
    decreases num
  {
    hide Append, Repeat, Padded, Digits;
    AppendLast(num, base);
    PaddedStep(num, base, width, padc);
    if num >= base {
      out := PrintNum(num / base, base, width - 1, padc);
    } else {
      out := PutPadding(width - 1, padc);
    }
    out := out + [DigitChar(num % base)];
  }

  method PutPadding(width0: int, padc: u8) returns (out: seq<u8>)
    ensures out == Repeat(padc, width0)
  {
    out := [];
    var width := width0;
    while width > 0
      invariant out == Repeat(padc, width0 - Max(width, 0)) && width <= Max(width0, 0)
      invariant width0 <= 0 ==> width == width0
    {
      out := out + [padc];
      width := width - 1;
    }
  }
}
