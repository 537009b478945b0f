/** `strtol`, and the theorem that it undoes the number printer. */
module Strtol {
  import opened Machine
  import opened Strings
  import opened Numbers

  const BLANK: u8 := 32
  const TAB: u8 := 9
  const PLUS: u8 := 43
  const LETTER_X: u8 := 120

  const LONG_MAX: int := INT_MAX

  /** What `strtol` returns: a value of the 32-bit `long` and the end pointer. On `Overflow` a step
      of the accumulation has left `long`, and C defines no result. */
  datatype Long = Value(val: int, end: nat) | Overflow

  /** The first position at or after `i` that is neither a blank nor a tab. */
  function SkipBlanks(s: CString, i: nat): (k: nat)
    requires i < |s|
    ensures i <= k < |s| && s[k] != BLANK && s[k] != TAB
    ensures forall j :: i <= j < k ==> s[j] == BLANK || s[j] == TAB
    decreases |s| - i
  {
    if s[i] == BLANK || s[i] == TAB then SkipBlanks(s, i + 1) else i
  }

  /** The first position at or after `i` that does not hold a digit of the base. */
  function SkipDigits(s: CString, i: nat, base: nat): (k: nat)
    requires i < |s|
    ensures i <= k < |s| && !(DigitValue(s[k]) < Min(base, 36))
    ensures forall j :: i <= j < k ==> DigitValue(s[j]) < Min(base, 36)
    decreases |s| - i
  {
    if DigitValue(s[i]) < Min(base, 36) then SkipDigits(s, i + 1, base) else i
  }

  /** The base and the start of the digits, after an optional prefix. A given base never changes,
      and only base 16 allows a prefix then; base 0 is replaced by 16, 8 or 10. */
  function Prefix(s: CString, i: nat, base: nat): (r: (nat, nat))
    requires i < |s|
    ensures i <= r.1 < |s|
    ensures base != 0 ==> r.0 == base && (r.1 != i ==> base == 16)
    ensures r.1 == i + 2 <==> base in {0, 16} && s[i..r.1] == [ZERO, LETTER_X]
    ensures base == 0 ==> (r.0 == 16 <==> r.1 == i + 2) && (r.0 == 8 <==> r.1 == i + 1) && (r.0 == 10 <==> r.1 == i)
    ensures base == 0 && r.0 == 10 ==> s[i] != ZERO
  {
    if (base == 0 || base == 16) && s[i] == ZERO && s[i + 1] == LETTER_X then (16, i + 2)
    else if base == 0 && s[i] == ZERO then (8, i + 1)
    else if base == 0 then (10, i)
    else (base, i)
  }

  /** The longest numeral after blanks and sign, and where it stops. */
  function ParseLong(s: CString, base: nat): (r: Long) {
    var i := SkipBlanks(s, 0);
    var neg := s[i] == MINUS;
    var (b, start) := Prefix(s, if neg || s[i] == PLUS then i + 1 else i, base);
    var end := SkipDigits(s, start, b);
    var val: int := Eval(s[start..end], b);
    if val > LONG_MAX then Overflow else Value(if neg then -val else val, end)
  }

  /** No step of the accumulation leaves `long` exactly when the final value fits. */
  lemma StepsFitIff(s: seq<u8>, base: nat)
    requires base >= 1
    ensures (forall k :: 0 <= k <= |s| ==> Eval(s[..k], base) <= LONG_MAX) <==> Eval(s, base) <= LONG_MAX
  {
    forall k | 0 <= k <= |s| ensures Eval(s[..k], base) <= Eval(s, base) {
      PartialValues(s, base, k);
    }
    assert s[..|s|] == s;
  }

  method Strtol(s: CString, base0: nat) returns (r: Long)
    ensures r == ParseLong(s, base0)
  {
    hide Prefix, Eval, SkipDigits;
    var base: nat := base0;
    var i, neg := 0, false;
    while s[i] == BLANK || s[i] == TAB
      invariant i < |s| && SkipBlanks(s, 0) == SkipBlanks(s, i)
      decreases |s| - i
    {
      i := i + 1;
    }
    if s[i] == PLUS {
      i := i + 1;
    } else if s[i] == MINUS {
      i, neg := i + 1, true;
    }
    base, i := DetectPrefix(s, i, base0);
    var fits, val, endptr := ReadDigits(s, i, base);
    if !fits {
      return Overflow;
    }
    return Value(if neg then -val else val, endptr);
  }

  method DetectPrefix(s: CString, start: nat, base0: nat) returns (base: nat, i: nat)
    requires start < |s|
    ensures (base, i) == Prefix(s, start, base0)
  {
    base, i := base0, start;
    if (base == 0 || base == 16) && s[i] == ZERO && s[i + 1] == LETTER_X {
      i, base := i + 2, 16;
    } else if base == 0 && s[i] == ZERO {
      i, base := i + 1, 8;
    } else if base == 0 {
      base := 10;
    }
  }

  /** The last loop of the function, up to the first step that leaves `long`. */
  method ReadDigits(s: CString, start: nat, base: nat) returns (fits: bool, val: int, i: nat)
    requires start < |s|
    ensures fits <==> Eval(s[start..SkipDigits(s, start, base)], base) <= LONG_MAX
    ensures fits ==> i == SkipDigits(s, start, base) && val == Eval(s[start..i], base)
  {
    hide Append;
    i, val := start, 0;
    while true
      invariant start <= i < |s| && val == Eval(s[start..i], base) <= LONG_MAX
      invariant SkipDigits(s, start, base) == SkipDigits(s, i, base)
      decreases |s| - i
    {
      var dig: nat;
      if 48 <= s[i] <= 57 {
        dig := s[i] - 48;
      } else if 97 <= s[i] <= 122 {
        dig := s[i] - 97 + 10;
      } else if 65 <= s[i] <= 90 {
        dig := s[i] - 65 + 10;
      } else {
        break;
      }
      if dig >= base {
        break;
      }
      EvalExtends(s, start, i, base);
      i, val := i + 1, Append(val, base, dig);
      if val > LONG_MAX {
        LeavesLong(s, start, i, base);
        return false, val, i;
      }
    }
    return true, val, i;
  }

  lemma LeavesLong(s: CString, start: nat, i: nat, base: nat)
    requires base >= 1 && start <= i < |s| && SkipDigits(s, start, base) == SkipDigits(s, i, base)
    ensures Eval(s[start..i], base) <= Eval(s[start..SkipDigits(s, start, base)], base)
  {
    hide Eval, SkipDigits;
    var t := s[start..SkipDigits(s, start, base)];
    assert t[..i - start] == s[start..i];
    PartialValues(t, base, i - start);
  }

  // ----- Printing and parsing -----

  predicate IsNumeral(t: seq<u8>, base: nat) {
    t != [] && forall j :: 0 <= j < |t| ==> DigitValue(t[j]) < base
  }

  /** A numeral after blanks or tabs and an optional sign, '+' or '-', is read up to the first character
      that is no digit of the base, unless it is the zero of a prefix. */
  lemma ParseNumeral(s: CString, lead: nat, start: nat, end: nat, base: nat)
    requires 2 <= base <= 36 && start < end < |s| && IsNumeral(s[start..end], base) && DigitValue(s[end]) >= base
    requires start == lead || (start == lead + 1 && s[lead] in {'+' as int, '-' as int})
    requires forall j :: 0 <= j < lead ==> s[j] == 32 || s[j] == 9
    requires !(base == 16 && end == start + 1 && s[start] == '0' as int && s[end] == 'x' as int)
    ensures var val: int := Eval(s[start..end], base);
      var neg := start != lead && s[lead] == '-' as int;
      ParseLong(s, base) == if val > LONG_MAX then Overflow else Value(if neg then -val else val, end)
  {
    hide Eval;
    DigitsUpTo(s, start, end, base);
    BlanksUpTo(s, 0, lead);
    NoPrefix(s, start, end, base);
  }

  lemma {:induction false} BlanksUpTo(s: CString, i: nat, lead: nat)
    requires i <= lead < |s| && s[lead] != BLANK && s[lead] != TAB
    requires forall j :: i <= j < lead ==> s[j] == BLANK || s[j] == TAB
    ensures SkipBlanks(s, i) == lead
    decreases lead - i
  {
    if i < lead {
      BlanksUpTo(s, i + 1, lead);
    }
  }

  lemma NoPrefix(s: CString, start: nat, end: nat, base: nat)
    requires 2 <= base <= 36 && start < end < |s| && IsNumeral(s[start..end], base)
    requires !(base == 16 && end == start + 1 && s[start] == ZERO && s[end] == LETTER_X)
    ensures Prefix(s, start, base) == (base, start)
  {
    assert DigitValue(LETTER_X) == 33;
    assert s[start] == s[start..end][0];
    assert end > start + 1 ==> s[start + 1] == s[start..end][1];
  }

  lemma {:induction false} DigitsUpTo(s: CString, start: nat, end: nat, base: nat)
    requires 2 <= base <= 36 && start < end < |s| && IsNumeral(s[start..end], base) && DigitValue(s[end]) >= base
    ensures SkipDigits(s, start, base) == end && DigitValue(s[start]) < base
  {
    var t := s[start..end];
    assert forall j :: start <= j < end ==> s[j] == t[j - start];
  }

  lemma DigitsToEnd(s: CString, start: nat, base: nat)
    requires 2 <= base <= 16 && start < |s| - 1 && IsNumeral(s[start..|s| - 1], base)
    ensures SkipDigits(s, start, base) == |s| - 1
    ensures forall j :: start <= j < |s| - 1 ==> DigitValue(s[j]) < base
  {
    var t := s[start..|s| - 1];
    assert forall j :: start <= j < |s| - 1 ==> s[j] == t[j - start];
    assert DigitValue(s[|s| - 1]) == 36;
  }

  /** A minus sign without a digit right behind it is read as 0, up to the sign. */
  lemma ParseStops(s: CString, base: nat)
    requires 2 <= base <= 16 && |s| >= 2 && s[0] == MINUS && DigitValue(s[1]) == 36
    ensures ParseLong(s, base) == Value(0, 1)
  {
    assert SkipBlanks(s, 0) == 0;
    assert SkipDigits(s, 1, base) == 1;
    assert s[1..1] == [];
  }

  lemma {:induction false} EvalZeros(n: nat, s: seq<u8>, base: nat)
    requires base >= 1
    ensures Eval(Repeat(ZERO, n) + s, base) == Eval(s, base)
    decreases n + |s|
  {
    hide Append;
    var t := Repeat(ZERO, n) + s;
    if s != [] {
      assert t[..|t| - 1] == Repeat(ZERO, n) + s[..|s| - 1];
      EvalZeros(n, s[..|s| - 1], base);
    } else if n > 0 {
      assert t[..|t| - 1] == Repeat(ZERO, n - 1) + [];
      EvalZeros(n - 1, [], base);
      AppendZero(base, 0);
    }
  }

  function Magnitude(n: int): nat {
    if n < 0 then -n else n
  }

  function Sign(neg: bool): seq<u8> {
    if neg then [MINUS] else []
  }

  /** The string that `%d`, `%o` or, for `n >= 0`, `%x` leaves in memory. */
  function Printed(n: int, base: nat, width: int, padc: u8): (s: CString)
    requires 2 <= base <= 16 && padc != NUL
  {
    DigitsAreText(Magnitude(n), base);
    Signed(n, base, width, padc) + [NUL]
  }

  lemma DigitsAreText(num: nat, base: nat)
    requires 2 <= base <= 16
    ensures NUL !in Digits(num, base) && MINUS !in Digits(num, base)
  {
    var d := Digits(num, base);
    assert forall i :: 0 <= i < |d| ==> DigitValue(d[i]) < base;
  }

  /** When the printer's pad characters do not disturb the parser. */
  predicate Readable(n: int, digits: nat, width: int, padc: u8) {
    width <= digits || padc == ZERO || (padc == BLANK && n >= 0) || (padc == MINUS && width == digits + 1 && n == 0)
  }

  /** Where the parts of a string are. */
  lemma Layout(s: seq<u8>, x: seq<u8>, y: seq<u8>, z: seq<u8>)
    requires s == x + y + z + [NUL]
    ensures |s| == |x| + |y| + |z| + 1
    ensures s[..|x|] == x && s[|x|..|x| + |y|] == y && s[|x| + |y|..|s| - 1] == z && s[|x|..|s| - 1] == y + z
  {
  }

  lemma PrintedParts(n: int, base: nat, width: int, padc: u8)
    requires 2 <= base <= 16 && padc != NUL
    ensures var digits := Digits(Magnitude(n), base);
      Printed(n, base, width, padc) == Sign(n < 0) + Repeat(padc, width - |digits|) + digits + [NUL]
  {
    hide Digits, Repeat;
    var digits := Digits(Magnitude(n), base);
    var pad := Repeat(padc, width - |digits|);
    if n < 0 {
      assert [MINUS] + (pad + digits) == [MINUS] + pad + digits;
    } else {
      assert [] + pad == pad;
    }
  }

  /** `strtol` reads a printed number back, and stops at the terminator, exactly when it is readable
      and its magnitude fits in `long`; this covers every number, every width and the three pad
      characters of the formatter. */
  lemma RoundTrip(n: int, base: nat, width: int, padc: u8)
    requires 2 <= base <= 16 && padc in {BLANK, ZERO, MINUS}
    ensures var s := Printed(n, base, width, padc);
      ParseLong(s, base) == Value(n, |s| - 1)
      <==> Readable(n, |Digits(Magnitude(n), base)|, width, padc) && -LONG_MAX <= n <= LONG_MAX
  {
    hide ParseLong, Digits, Eval, Printed, IsNumeral, Repeat, DigitValue;
    var s, digits := Printed(n, base, width, padc), Digits(Magnitude(n), base);
    PrintedParts(n, base, width, padc);
    if width <= |digits| || padc == ZERO {
      ParseZeroPadded(s, n, base, width - |digits|, padc);
    } else if padc == BLANK && n >= 0 {
      ParseBlankPadded(s, n, base, width - |digits|);
    } else if padc == MINUS && n >= 0 && width == |digits| + 1 {
      ParseDash(s, n, base);
    } else {
      ParseUnreadable(s, n, base, width - |digits|, padc);
    }
  }

  lemma ParseZeroPadded(s: CString, n: int, base: nat, pad: int, padc: u8)
    requires 2 <= base <= 16 && (pad <= 0 || padc == ZERO)
    requires s == Sign(n < 0) + Repeat(padc, pad) + Digits(Magnitude(n), base) + [NUL]
    ensures ParseLong(s, base) == if Magnitude(n) > LONG_MAX then Overflow else Value(n, |s| - 1)
  {
    hide ParseLong, Eval, Digits, DigitValue, IsNumeral, Repeat;
    var digits, sign := Digits(Magnitude(n), base), Sign(n < 0);
    Layout(s, sign, Repeat(padc, pad), digits);
    DigitsDenote(Magnitude(n), base);
    ZeroPaddedNumeral(Magnitude(n), base, pad, padc);
    assert n < 0 ==> s[0] == s[..1][0];
    NoDigit(NUL);
    ParseNumeral(s, 0, |sign|, |s| - 1, base);
  }

  lemma ZeroPaddedNumeral(n: nat, base: nat, pad: int, padc: u8)
    requires 2 <= base <= 16 && (pad <= 0 || padc == ZERO)
    ensures var t := Repeat(padc, pad) + Digits(n, base);
      IsNumeral(t, base) && Eval(t, base) == Eval(Digits(n, base), base)
  {
    hide Eval, Digits, DigitValue;
    var digits := Digits(n, base);
    assert Repeat(padc, pad) == Repeat(ZERO, Max(pad, 0));
    EvalZeros(Max(pad, 0), digits, base);
    ZeroIsDigit();
  }

  lemma ParseBlankPadded(s: CString, n: nat, base: nat, pad: nat)
    requires 2 <= base <= 16
    requires s == [] + Repeat(BLANK, pad) + Digits(n, base) + [NUL]
    ensures ParseLong(s, base) == if n > LONG_MAX then Overflow else Value(n, |s| - 1)
  {
    hide ParseLong, Eval, Digits, DigitValue;
    var blanks := Repeat(BLANK, pad);
    Layout(s, [], blanks, Digits(n, base));
    DigitsDenote(n, base);
    assert forall j :: 0 <= j < pad ==> s[j] == blanks[j];
    NoDigit(NUL);
    ParseNumeral(s, pad, pad, |s| - 1, base);
  }

  /** A single '-' from the padding passes for a sign. */
  lemma ParseDash(s: CString, n: nat, base: nat)
    requires 2 <= base <= 16
    requires s == [] + Repeat(MINUS, 1) + Digits(n, base) + [NUL]
    ensures var val: int := n; ParseLong(s, base) == if val > LONG_MAX then Overflow else Value(-val, |s| - 1)
  {
    hide ParseLong, Eval, Digits, DigitValue;
    Layout(s, [], Repeat(MINUS, 1), Digits(n, base));
    DigitsDenote(n, base);
    assert s[0] == s[0..1][0] == MINUS;
    NoDigit(NUL);
    ParseNumeral(s, 0, 1, |s| - 1, base);
  }

  /** Behind a minus sign, which may come from the padding, more padding ends the numeral. */
  lemma ParseUnreadable(s: CString, n: int, base: nat, pad: nat, padc: u8)
    requires 2 <= base <= 16 && padc in {BLANK, MINUS} && pad >= 1
    requires n < 0 || (padc == MINUS && pad >= 2)
    requires s == Sign(n < 0) + Repeat(padc, pad) + Digits(Magnitude(n), base) + [NUL]
    ensures ParseLong(s, base) == Value(0, 1) && |s| >= 3
  {
    hide ParseLong, Digits, DigitValue;
    var x, y := Sign(n < 0), Repeat(padc, pad);
    Layout(s, x, y, Digits(Magnitude(n), base));
    NoDigit(BLANK);
    NoDigit(MINUS);
    assert forall j :: |x| <= j < |x| + |y| ==> s[j] == y[j - |x|];
    assert n < 0 ==> s[0] == x[0];
    ParseStops(s, base);
  }

  lemma ZeroIsDigit()
    ensures DigitValue(ZERO) == 0
  {
  }

  lemma NoDigit(padc: u8)
    requires padc in {NUL, BLANK, MINUS}
    ensures DigitValue(padc) == 36
  {
  }

  // ----- Literals of the C language -----

  /** The prefix by which a C literal shows its base. */
  function LiteralPrefix(base: nat): seq<u8> {
    if base == 16 then [ZERO, LETTER_X] else if base == 8 then [ZERO] else []
  }

  function Literal(n: nat, base: nat, neg: bool): (s: CString)
    requires base in {8, 10, 16}
  {
    DigitsAreText(n, base);
    Sign(neg) + LiteralPrefix(base) + Digits(n, base) + [NUL]
  }

  /** With base 0, `strtol` finds the base of a hexadecimal, octal or decimal literal out by itself,
      and reads it to its end; with base 16 it accepts the prefix as well. */
  lemma LiteralsAreRead(n: nat, base: nat, neg: bool)
    requires base in {8, 10, 16}
    ensures var s := Literal(n, base, neg);
      var val: int := n;
      var r := if val > LONG_MAX then Overflow else Value(if neg then -val else val, |s| - 1);
      ParseLong(s, 0) == r && (base == 16 ==> ParseLong(s, 16) == r)
  {
    if base == 10 && n == 0 {
      ZeroIsOctal(Literal(n, base, neg), neg);
    } else {
      hide ParseLong;
      ParseLiteral(n, 0, base, neg);
      if base == 16 {
        ParseLiteral(n, 16, base, neg);
      }
    }
  }

  lemma ParseLiteral(n: nat, base0: nat, base: nat, neg: bool)
    requires base in {8, 10, 16} && (base0 == 0 || base0 == base == 16) && (base == 10 ==> n > 0)
    ensures var s := Literal(n, base, neg);
      var val: int := n;
      ParseLong(s, base0) == if val > LONG_MAX then Overflow else Value(if neg then -val else val, |s| - 1)
  {
    hide Eval, Digits, Literal, LiteralPrefix, Prefix, SkipDigits;
    var s, i, start := Literal(n, base, neg), |Sign(neg)|, |Sign(neg) + LiteralPrefix(base)|;
    LiteralLayout(s, n, base, neg);
    LiteralFirst(s, n, base, neg);
    assert SkipBlanks(s, 0) == 0;
    DigitsDenote(n, base);
    assert s[start] == s[start..|s| - 1][0];
    LiteralPrefixIsFound(s, i, start, base0, base);
    DigitsToEnd(s, start, base);
  }

  lemma LiteralLayout(s: CString, n: nat, base: nat, neg: bool)
    requires base in {8, 10, 16} && s == Literal(n, base, neg)
    ensures var i, start := |Sign(neg)|, |Sign(neg) + LiteralPrefix(base)|;
      && i <= start < |s| - 1 && s[i..start] == LiteralPrefix(base)
      && s[start..|s| - 1] == Digits(n, base) && IsNumeral(Digits(n, base), base)
  {
    hide Digits, DigitValue, LiteralPrefix, Sign;
    Layout(s, Sign(neg), LiteralPrefix(base), Digits(n, base));
  }

  /** A literal starts with its sign, or else with a digit. */
  lemma LiteralFirst(s: CString, n: nat, base: nat, neg: bool)
    requires base in {8, 10, 16} && s == Literal(n, base, neg)
    ensures |s| > 1 && (s[0] == MINUS <==> neg) && s[0] !in {BLANK, TAB, PLUS}
  {
    hide Digits;
    var digits := Digits(n, base);
    if !neg && base == 10 {
      assert s[0] == digits[0];
    }
  }

  lemma LiteralPrefixIsFound(s: CString, i: nat, start: nat, base0: nat, base: nat)
    requires base in {8, 10, 16} && (base0 == 0 || base0 == base == 16)
    requires i <= start < |s| - 1 && s[i..start] == LiteralPrefix(base)
    requires IsNumeral(s[start..|s| - 1], base) && (base == 10 ==> s[start] != ZERO)
    ensures Prefix(s, i, base0) == (base, start)
  {
    DigitsToEnd(s, start, base);
    if base != 10 {
      assert s[i] == s[i..start][0] == ZERO;
      if base == 16 {
        assert s[i + 1] == s[i..start][1] == LETTER_X;
      }
    }
    assert DigitValue(LETTER_X) == 33;
  }

  /** The literal 0 is taken for an octal prefix without digits, which has the same value. */
  lemma ZeroIsOctal(s: CString, neg: bool)
    requires s == Literal(0, 10, neg)
    ensures ParseLong(s, 0) == Value(0, |s| - 1)
  {
    assert s == Sign(neg) + [ZERO, NUL];
    var sign := if neg then 1 else 0;
    assert s[sign] == ZERO && s[sign + 1] == NUL && (neg ==> s[0] == MINUS);
    assert SkipBlanks(s, 0) == 0;
    assert SkipDigits(s, sign + 1, 8) == sign + 1;
    assert s[sign + 1..sign + 1] == [];
  }
}
