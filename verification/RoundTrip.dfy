/** The grammar of escapes, and the formatter and the number parser together. */
module RoundTrip {
  import opened Machine
  import opened Strings
  import opened Numbers
  import opened Printfmt
  import Strtol

  const LONG_MAX := Strtol.LONG_MAX

  // ----- The standard form of an escape: %[flag]width[.precision][l...]c -----

  function Escape(padc: u8, width: nat, precision: Option<nat>, ells: nat, c: u8): (fmt: CString)
    requires padc in {SPACE, ZERO, MINUS} && c != NUL
    ensures |fmt| >= 3 && fmt[0] == PERCENT && fmt[|fmt| - 2] == c
  {
    HeadIsText(padc, width);
    TailIsText(precision, ells, c);
    Head(padc, width) + Tail(precision, ells, c)
  }

  function Head(padc: u8, width: nat): (h: seq<u8>)
    ensures |h| >= 1 && h[0] == PERCENT
  {
    (if padc == SPACE then [PERCENT] else [PERCENT, padc]) + Digits(width, 10)
  }

  function Tail(precision: Option<nat>, ells: nat, c: u8): (t: seq<u8>)
    ensures |t| >= 2 && t[|t| - 2] == c && t[|t| - 1] == NUL
  {
    (match precision case None => [] case Some(p) => [DOT] + Digits(p, 10)) + Repeat(LETTER_L, ells) + [c, NUL]
  }

  lemma HeadIsText(padc: u8, width: nat)
    requires padc != NUL
    ensures NUL !in Head(padc, width)
  {
    Strtol.DigitsAreText(width, 10);
  }

  lemma TailIsText(precision: Option<nat>, ells: nat, c: u8)
    requires c != NUL
    ensures var t := Tail(precision, ells, c); NUL !in t[..|t| - 1]
  {
    var t := Tail(precision, ells, c);
    var front := match precision case None => [] case Some(p) => [DOT] + Digits(p, 10);
    if precision.Some? {
      Strtol.DigitsAreText(precision.value, 10);
    }
    assert t[..|t| - 1] == front + Repeat(LETTER_L, ells) + [c];
  }

  lemma DecimalDigits(n: nat)
    ensures var d := Digits(n, 10);
      (n > 0 ==> d[0] != ZERO) && (forall j :: 0 <= j < |d| ==> IsDigit(d[j])) && Eval(d, 10) == n
  {
    hide Digits, Eval;
    DigitsDenote(n, 10);
    AllDecimal(n);
  }

  lemma {:induction false} AllDecimal(n: nat)
    ensures forall j :: 0 <= j < |Digits(n, 10)| ==> IsDigit(Digits(n, 10)[j])
  {
    if n >= 10 {
      AllDecimal(n / 10);
    }
  }

  /** A positive number is read back from its decimal digits, and stored as width or precision. */
  lemma ScanNumber(fmt: CString, i: nat, args: seq<Arg>, sp: Spec, n: nat)
    requires n >= 1
    requires var d := Digits(n, 10); i + |d| < |fmt| && fmt[i..i + |d|] == d && !IsDigit(fmt[i + |d|])
    ensures ScanFlags(fmt, i, args, 0, sp)
         == if n > MAX_NUMBER then Broken else ScanFlags(fmt, i + |Digits(n, 10)|, args, 0, SetNumber(sp, n))
  {
    hide Digits, Eval;
    var d := Digits(n, 10);
    DecimalDigits(n);
    assert fmt[i] == d[0];
    assert forall j :: i <= j < i + |d| ==> fmt[j] == d[j - i];
    assert NumberEnd(fmt, i) == i + |d|;
  }

  lemma {:induction false} ScanElls(fmt: CString, i: nat, args: seq<Arg>, sp: Spec, ells: nat)
    requires i + ells < |fmt| && (forall j :: i <= j < i + ells ==> fmt[j] == LETTER_L) && !IsFlag(fmt[i + ells])
    ensures ScanFlags(fmt, i, args, 0, sp) == Scan(sp.(lflag := sp.lflag + ells), i + ells, 0)
    decreases ells
  {
    if ells > 0 {
      ScanElls(fmt, i + 1, args, sp.(lflag := sp.lflag + 1), ells - 1);
    }
  }

  /** The pad flag and the width. */
  lemma ScanHead(fmt: CString, padc: u8, width: nat, args: seq<Arg>)
    requires padc in {SPACE, ZERO, MINUS} && width >= 1
    requires var h := Head(padc, width); |h| < |fmt| && fmt[..|h|] == h && !IsDigit(fmt[|h|])
    ensures ScanFlags(fmt, 1, args, 0, DEFAULT)
         == if width > MAX_NUMBER then Broken
            else ScanFlags(fmt, |Head(padc, width)|, args, 0, DEFAULT.(padc := padc, width := width))
  {
    hide Digits;
    var h, d := Head(padc, width), Digits(width, 10);
    var start := |h| - |d|;
    assert fmt[start..|h|] == h[start..] == d;
    if padc != SPACE {
      assert fmt[1] == h[1] == padc;
    }
    ScanNumber(fmt, start, args, DEFAULT.(padc := padc), width);
  }

  /** The length flags and the conversion character. */
  lemma ScanEnd(fmt: CString, i: nat, ells: nat, c: u8, args: seq<Arg>, sp: Spec)
    requires c != NUL && !IsFlag(c) && i <= |fmt| && fmt[i..] == Repeat(LETTER_L, ells) + [c, NUL]
    ensures i < |fmt| && !IsDigit(fmt[i])
    ensures ScanFlags(fmt, i, args, 0, sp) == Scan(sp.(lflag := sp.lflag + ells), |fmt| - 2, 0)
  {
    hide ScanFlags, Repeat;
    AfterNumber(fmt, i, ells, c);
    ScanElls(fmt, i, args, sp, ells);
  }

  lemma Split(s: seq<u8>, i: nat, x: seq<u8>, y: seq<u8>, z: seq<u8>)
    requires i <= |s| && s[i..] == x + y + z
    ensures i + |x| + |y| <= |s|
    ensures s[i..i + |x|] == x && s[i + |x|..i + |x| + |y|] == y && s[i + |x| + |y|..] == z
  {
    var t := s[i..];
    assert t[..|x|] == x && t[|x|..|x| + |y|] == y && t[|x| + |y|..] == z;
  }

  /** The precision as well. */
  lemma ScanPrecision(fmt: CString, i: nat, p: nat, ells: nat, c: u8, args: seq<Arg>, sp: Spec)
    requires c != NUL && !IsFlag(c) && sp.width >= 0 && p >= 1
    requires i <= |fmt| && fmt[i..] == [DOT] + Digits(p, 10) + (Repeat(LETTER_L, ells) + [c, NUL])
    ensures i < |fmt| && !IsDigit(fmt[i])
    ensures ScanFlags(fmt, i, args, 0, sp)
         == if p > MAX_NUMBER then Broken else Scan(sp.(precision := p, lflag := sp.lflag + ells), |fmt| - 2, 0)
  {
    hide Digits, ScanFlags, Repeat;
    var q := Digits(p, 10);
    Split(fmt, i, [DOT], q, Repeat(LETTER_L, ells) + [c, NUL]);
    assert fmt[i] == fmt[i..i + 1][0];
    ScanDot(fmt, i, args, sp);
    ScanEnd(fmt, i + 1 + |q|, ells, c, args, sp.(precision := p));
    ScanNumber(fmt, i + 1, args, sp, p);
  }

  predicate Fits(precision: Option<nat>) {
    precision.Some? ==> precision.value <= MAX_NUMBER
  }

  /** The flags of a standard escape mean what they say, if and only if its numbers fit. */
  lemma EscapeMeaning(padc: u8, width: nat, precision: Option<nat>, ells: nat, c: u8, args: seq<Arg>)
    requires padc in {SPACE, ZERO, MINUS} && width >= 1 && c != NUL && !IsFlag(c)
    requires precision.Some? ==> precision.value >= 1
    ensures var fmt := Escape(padc, width, precision, ells, c);
      ScanFlags(fmt, 1, args, 0, DEFAULT)
      == if width > MAX_NUMBER || !Fits(precision) then Broken
         else Scan(Spec(padc, width, if precision.Some? then precision.value else -1, ells, false), |fmt| - 2, 0)
  {
    hide Head, ScanFlags, Digits, Repeat;
    var fmt, h := Escape(padc, width, precision, ells, c), Head(padc, width);
    var sp := DEFAULT.(padc := padc, width := width);
    assert fmt[..|h|] == h && fmt[|h|..] == Tail(precision, ells, c);
    if precision.Some? {
      var q := Digits(precision.value, 10);
      assert [DOT] + q + Repeat(LETTER_L, ells) + [c, NUL] == [DOT] + q + (Repeat(LETTER_L, ells) + [c, NUL]);
      ScanPrecision(fmt, |h|, precision.value, ells, c, args, sp);
    } else {
      assert [] + Repeat(LETTER_L, ells) == Repeat(LETTER_L, ells);
      ScanEnd(fmt, |h|, ells, c, args, sp);
    }
    ScanHead(fmt, padc, width, args);
  }

  lemma ScanDot(fmt: CString, i: nat, args: seq<Arg>, sp: Spec)
    requires i < |fmt| && fmt[i] == DOT && sp.width >= 0
    ensures i + 1 < |fmt| && ScanFlags(fmt, i, args, 0, sp) == ScanFlags(fmt, i + 1, args, 0, sp)
  {
  }

  lemma AfterNumber(fmt: CString, i: nat, ells: nat, c: u8)
    requires i <= |fmt| && fmt[i..] == Repeat(LETTER_L, ells) + [c, NUL] && !IsFlag(c)
    ensures i + ells + 2 == |fmt| && fmt[i + ells] == c && !IsDigit(fmt[i])
    ensures forall j :: i <= j < i + ells ==> fmt[j] == LETTER_L
  {
    var tail := fmt[i..];
    assert forall j :: i <= j < |fmt| ==> fmt[j] == tail[j - i];
  }

  /** A precision of 0 cannot be written in digits: the '0' is taken for the pad flag, and the
      precision stays unset. */
  lemma ZeroPrecisionIsLost(padc: u8, width: nat, c: u8, args: seq<Arg>)
    requires padc in {SPACE, ZERO, MINUS} && 1 <= width <= MAX_NUMBER && c != NUL && !IsFlag(c)
    ensures var fmt := Escape(padc, width, Some(0), 0, c);
      ScanFlags(fmt, 1, args, 0, DEFAULT) == Scan(Spec(ZERO, width, -1, 0, false), |fmt| - 2, 0)
  {
    assert Tail(Some(0), 0, c) == [DOT, ZERO, c, NUL];
    hide Head, Tail;
    var fmt, h := Escape(padc, width, Some(0), 0, c), Head(padc, width);
    assert fmt[..|h|] == h && fmt[|h|..] == [DOT, ZERO, c, NUL];
    assert fmt[|h|] == DOT && fmt[|h| + 1] == ZERO && fmt[|h| + 2] == c;
    ZeroAfterDot(fmt, |h|, args, DEFAULT.(padc := padc, width := width));
    hide ScanFlags;
    ScanHead(fmt, padc, width, args);
  }

  lemma ZeroAfterDot(fmt: CString, i: nat, args: seq<Arg>, sp: Spec)
    requires i + 2 < |fmt| && fmt[i] == DOT && fmt[i + 1] == ZERO && !IsFlag(fmt[i + 2]) && sp.width >= 0
    ensures ScanFlags(fmt, i, args, 0, sp) == Scan(sp.(padc := ZERO), i + 2, 0)
  {
    ScanDot(fmt, i, args, sp);
    assert ScanFlags(fmt, i + 2, args, 0, sp.(padc := ZERO)) == Scan(sp.(padc := ZERO), i + 2, 0);
  }

  /** A format that is one standard escape writes what its conversion says, if its numbers fit. */
  lemma OneEscape(padc: u8, width: nat, precision: Option<nat>, ells: nat, c: u8, args: seq<Arg>)
    requires padc in {SPACE, ZERO, MINUS} && width >= 1 && c != NUL && !IsFlag(c)
    requires precision.Some? ==> precision.value >= 1
    requires var sp := Spec(padc, width, if precision.Some? then precision.value else -1, ells, false);
      Convert(c, sp, args, 0).Written?
    ensures var sp := Spec(padc, width, if precision.Some? then precision.value else -1, ells, false);
      Format(Escape(padc, width, precision, ells, c), 0, args, 0)
      == if width > MAX_NUMBER || !Fits(precision) then Stuck([]) else Done(Convert(c, sp, args, 0).out)
  {
    hide Convert, ScanFlags, Escape, Fits;
    var sp := Spec(padc, width, if precision.Some? then precision.value else -1, ells, false);
    var fmt := Escape(padc, width, precision, ells, c);
    EscapeMeaning(padc, width, precision, ells, c, args);
    assert Format(fmt, |fmt| - 1, args, Convert(c, sp, args, 0).a) == Done([]);
  }

  /** `*` takes the width from the arguments: `%*c` with a positive width is `%<width>c`. */
  lemma StarIsWidth(width: u32, c: u8, arg: Arg)
    requires 1 <= width <= MAX_NUMBER && c != NUL && !IsFlag(c)
    requires Convert(c, DEFAULT.(width := width), [arg], 0).Written?
    ensures Format([PERCENT, STAR, c, NUL], 0, [W32(width), arg], 0)
         == Format(Escape(SPACE, width, None, 0, c), 0, [arg], 0)
  {
    var fmt: CString := [PERCENT, STAR, c, NUL];
    var args, sp := [W32(width), arg], DEFAULT.(width := width);
    ScanStar(fmt, args, width);
    OneArgument(c, sp, W32(width), arg);
    hide ScanFlags, Escape, Convert;
    OneEscape(SPACE, width, None, 0, c, [arg]);
    assert Format(fmt, 3, args, Convert(c, sp, args, 1).a) == Done([]);
  }

  lemma ScanStar(fmt: CString, args: seq<Arg>, width: u32)
    requires |fmt| >= 3 && fmt[1] == STAR && !IsFlag(fmt[2]) && 1 <= width < 0x8000_0000
    requires args != [] && args[0] == W32(width)
    ensures ScanFlags(fmt, 1, args, 0, DEFAULT) == Scan(DEFAULT.(width := width), 2, 1)
  {
    assert ScanFlags(fmt, 2, args, 1, DEFAULT.(width := width)) == Scan(DEFAULT.(width := width), 2, 1);
  }

  /** A conversion looks at one argument only. */
  lemma OneArgument(c: u8, sp: Spec, first: Arg, arg: Arg)
    requires Convert(c, sp, [arg], 0).Written?
    ensures var r := Convert(c, sp, [first, arg], 1);
      r.Written? && r.out == Convert(c, sp, [arg], 0).out
  {
    hide Signed, Padded, StringField, ErrorField;
    assert [first, arg][1] == [arg][0];
  }

  /** The argument that a C program passes for an `int`, or, with two or more `l`, a `long long`. */
  function IntArg(n: int, ells: nat): Arg {
    if ells >= 2 then W64(n % TWO_64) else W32(n % TWO_32)
  }

  lemma SignedArg(n: i32)
    ensures Signed32(n % TWO_32) == n
  {
  }

  // ----- Strings -----

  /** `%W.Ps` and its flags, from the format string to the characters. */
  lemma StringEscape(padc: u8, width: nat, precision: nat, address: u32, s: CString)
    requires padc in {SPACE, ZERO, MINUS} && 1 <= width <= MAX_NUMBER && 1 <= precision <= MAX_NUMBER
    requires address != 0 && |s| < 0x8000_0000
    ensures var r := Format(Escape(padc, width, Some(precision), 0, 's' as int), 0, [Str(address, s)], 0);
      var k := Min(|s| - 1, precision);
      var first := if padc == '-' as int then 0 else |r.out| - k;
      && r.Done? && |r.out| == Max(width, k)
      && (forall j :: 0 <= j < k ==> Represents(r.out[first + j], s[j], false))
      && (forall j :: 0 <= j < |r.out| && !(first <= j < first + k) ==>
            r.out[j] == if padc == '-' as int then 32 else padc as int)
  {
    hide Format, Escape, StringField;
    var sp := Spec(padc, width, precision, 0, false);
    OneEscape(padc, width, Some(precision), 0, LETTER_S, [Str(address, s)]);
    StringFieldMeaning(Text(s), sp);
    assert forall j :: 0 <= j < |s| - 1 ==> Text(s)[j] == s[j];
  }

  /** `%s` writes an ASCII string as it is, and "(null)" for a null pointer. */
  lemma PlainString(address: u32, s: CString)
    requires forall k :: 0 <= k < |s| ==> s[k] < 128
    ensures Format(CText("%s"), 0, [Str(address, s)], 0) == Done(if address == 0 then Ascii("(null)") else Text(s))
  {
    hide Format, StringField, CText, Ascii;
    Directive('s');
    OneDirective(LETTER_S, [Str(address, s)]);
    AsciiField(if address == 0 then NULL_TEXT else s);
  }

  /** The null pointer may also be passed as the word 0. */
  lemma NullString()
    ensures Format(CText("%s"), 0, [IntArg(0, 0)], 0) == Done(Ascii("(null)"))
  {
    hide Format, StringField, CText, Ascii;
    Directive('s');
    OneDirective(LETTER_S, [IntArg(0, 0)]);
    AsciiField(NULL_TEXT);
  }

  /** The format that is one conversion without flags. */
  lemma Directive(c: char)
    requires 0 < c as int < 128
    ensures CText(['%', c]) == [PERCENT, c as int, NUL]
  {
  }

  lemma {:induction false} AsciiBody(t: seq<u8>)
    requires forall k :: 0 <= k < |t| ==> t[k] < 128
    ensures Body(t, false) == t
  {
    if t != [] {
      AsciiBody(t[..|t| - 1]);
      assert t == t[..|t| - 1] + [t[|t| - 1]];
    }
  }

  /** `%#s` writes '?' for every character that is not printable. */
  lemma AlternateString(address: u32, s: CString)
    requires address != 0 && |s| < 0x8000_0000
    ensures var r := Format(CText("%#s"), 0, [Str(address, s)], 0);
      && r.Done? && |r.out| == |s| - 1
      && forall j :: 0 <= j < |s| - 1 ==> r.out[j] == if 32 <= s[j] <= 126 then s[j] else '?' as int
  {
    var sp := DEFAULT.(alt := true);
    hide StringField;
    HashFlag('s', [Str(address, s)]);
    assert Convert(LETTER_S, sp, [Str(address, s)], 0) == Written(StringField(Text(s), sp), 1);
    hide Format, CText;
    StringFieldMeaning(Text(s), sp);
  }

  lemma HashFlag(c: char, args: seq<Arg>)
    requires 0 < c as int < 128 && !IsFlag(c as int) && Convert(c as int, DEFAULT.(alt := true), args, 0).Written?
    ensures Format(CText(['%', '#', c]), 0, args, 0) == Done(Convert(c as int, DEFAULT.(alt := true), args, 0).out)
  {
    hide Convert;
    var fmt, sp := CText(['%', '#', c]), DEFAULT.(alt := true);
    assert fmt == [PERCENT, HASH, c as int, NUL];
    assert ScanFlags(fmt, 2, args, 0, sp) == Scan(sp, 2, 0);
    assert Format(fmt, 3, args, Convert(c as int, sp, args, 0).a) == Done([]);
  }

  /** `%.Ps` without a width cuts the string off. */
  lemma PrecisionOnly(precision: nat, address: u32, s: CString)
    requires 1 <= precision <= MAX_NUMBER && address != 0 && |s| < 0x8000_0000
    ensures var r := Format(DotEscape(precision, 's' as int), 0, [Str(address, s)], 0);
      && r.Done? && |r.out| == Min(|s| - 1, precision)
      && forall j :: 0 <= j < |r.out| ==> Represents(r.out[j], s[j], false)
  {
    hide Digits, StringField, ScanFlags, DotEscape;
    var fmt, args := DotEscape(precision, LETTER_S), [Str(address, s)];
    var sp := DEFAULT.(width := 0, precision := precision);
    DotMeaning(precision, LETTER_S, args);
    assert Format(fmt, |fmt| - 1, args, 1) == Done([]);
    StringFieldMeaning(Text(s), sp);
    var out := StringField(Text(s), sp);
    assert Format(fmt, 0, args, 0) == Done(out);
    assert forall j :: 0 <= j < |out| ==> Represents(out[0 + j], Text(s)[j], false) && Text(s)[j] == s[j];
  }

  function DotEscape(precision: nat, c: u8): (fmt: CString)
    requires c != NUL
    ensures |fmt| >= 4 && fmt[0] == PERCENT && fmt[1] == DOT && fmt[|fmt| - 2] == c
  {
    Strtol.DigitsAreText(precision, 10);
    [PERCENT, DOT] + Digits(precision, 10) + [c, NUL]
  }

  /** A dot without a width makes the width 0, so that the number behind it is the precision. */
  lemma DotMeaning(precision: nat, c: u8, args: seq<Arg>)
    requires 1 <= precision <= MAX_NUMBER && c != NUL && !IsFlag(c)
    ensures var fmt := DotEscape(precision, c);
      ScanFlags(fmt, 1, args, 0, DEFAULT)
      == Scan(DEFAULT.(width := 0, precision := precision), |fmt| - 2, 0)
  {
    hide Digits;
    var fmt, d := DotEscape(precision, c), Digits(precision, 10);
    assert fmt[2..2 + |d|] == d && fmt[2 + |d|] == c;
    assert ScanFlags(fmt, 1, args, 0, DEFAULT) == ScanFlags(fmt, 2, args, 0, DEFAULT.(width := 0));
    ScanNumber(fmt, 2, args, DEFAULT.(width := 0), precision);
    assert ScanFlags(fmt, 2 + |d|, args, 0, DEFAULT.(width := 0, precision := precision))
        == Scan(DEFAULT.(width := 0, precision := precision), 2 + |d|, 0);
  }

  /** `%.*s` takes the precision from the arguments; a negative one is none. */
  lemma StarPrecision(n: i32, address: u32, s: CString)
    requires address != 0 && |s| < 0x8000_0000
    ensures var r := Format(CText("%.*s"), 0, [IntArg(n, 0), Str(address, s)], 0);
      && r.Done? && |r.out| == (if n < 0 then |s| - 1 else Min(|s| - 1, n))
      && forall j :: 0 <= j < |r.out| ==> Represents(r.out[j], s[j], false)
  {
    hide StringField;
    var args, sp := [IntArg(n, 0), Str(address, s)], DEFAULT.(width := 0, precision := n);
    StarScan(n, args);
    hide CText, ScanFlags;
    assert Convert(LETTER_S, sp, args, 1) == Written(StringField(Text(s), sp), 2);
    assert Format(CText("%.*s"), 4, args, 2) == Done([]);
    StringFieldMeaning(Text(s), sp);
    var out := StringField(Text(s), sp);
    assert forall j :: 0 <= j < |out| ==> Represents(out[0 + j], Text(s)[j], false) && Text(s)[j] == s[j];
  }

  lemma StarScan(n: i32, args: seq<Arg>)
    requires args != [] && args[0] == IntArg(n, 0)
    ensures var fmt, sp := CText("%.*s"), DEFAULT.(width := 0, precision := n);
      && fmt == [PERCENT, DOT, STAR, LETTER_S, NUL]
      && ScanFlags(fmt, 1, args, 0, DEFAULT) == Scan(sp, 3, 1)
  {
    var fmt, sp := CText("%.*s"), DEFAULT.(width := 0, precision := n);
    SignedArg(n);
    assert ScanFlags(fmt, 3, args, 1, sp) == Scan(sp, 3, 1);
    assert ScanFlags(fmt, 2, args, 0, DEFAULT.(width := 0)) == Scan(sp, 3, 1);
  }

  // ----- Characters and error codes -----

  lemma CharEscape(n: i32)
    ensures Format(CText("%c"), 0, [IntArg(n, 0)], 0) == Done([n])
  {
    Directive('c');
    SignedArg(n);
    OneDirective(LETTER_C, [IntArg(n, 0)]);
  }

  lemma PercentEscape(args: seq<Arg>)
    ensures Format(CText("%%"), 0, args, 0) == Done(Ascii("%"))
  {
    Directive('%');
    OneDirective(PERCENT, args);
  }

  /** The error codes 1 to 6 have texts; any other code is written as a number. */
  function ErrorMessage(e: nat): seq<u8> {
    if e == 1 then Ascii("unspecified error")
    else if e == 2 then Ascii("bad environment")
    else if e == 3 then Ascii("invalid parameter")
    else if e == 4 then Ascii("out of memory")
    else if e == 5 then Ascii("out of environments")
    else if e == 6 then Ascii("segmentation fault")
    else Ascii("error ") + Digits(e, 10)
  }

  lemma ErrorConversion(e: int, neg: bool)
    requires 0 <= e <= INT_MAX
    ensures Convert('e' as int, DEFAULT, [IntArg(if neg then -e else e, 0)], 0) == Written(ErrorMessage(e), 1)
  {
    hide StringField, ErrorString, Ascii, ErrorMessage, Digits;
    SignedArg(if neg then -e else e);
    if 1 <= e < MAXERROR {
      KnownError(e);
    } else {
      UnknownError(e);
    }
  }

  /** `%e` writes that message, for a code and for its negation. */
  lemma ErrorEscape(e: int, neg: bool)
    requires 0 <= e <= INT_MAX
    ensures Format(CText("%e"), 0, [IntArg(if neg then -e else e, 0)], 0) == Done(ErrorMessage(e))
  {
    hide Format, Convert, CText, ErrorMessage;
    Directive('e');
    ErrorConversion(e, neg);
    OneDirective(LETTER_E, [IntArg(if neg then -e else e, 0)]);
  }

  lemma KnownError(e: nat)
    requires 1 <= e < MAXERROR
    ensures StringField(Text(ErrorString(e)), DEFAULT) == ErrorMessage(e)
  {
    hide StringField, Ascii;
    AsciiField(ErrorString(e));
  }

  lemma UnknownError(e: nat)
    requires !(1 <= e < MAXERROR)
    ensures ERROR_TEXT + Signed(e, 10, -1, SPACE) == ErrorMessage(e)
  {
    hide Ascii, Digits;
    UnpaddedNumber(e, 10);
  }

  lemma AsciiField(s: CString)
    requires forall k :: 0 <= k < |s| ==> s[k] < 128
    ensures StringField(Text(s), DEFAULT) == Text(s)
  {
    AsciiBody(Text(s));
    assert Text(s) + [] == Text(s);
  }

  lemma UnpaddedNumber(n: nat, base: nat)
    requires 2 <= base <= 16
    ensures Signed(n, base, -1, SPACE) == Digits(n, base)
  {
    hide Digits;
    assert [] + Digits(n, base) == Digits(n, base);
  }

  // ----- Numbers -----

  /** The conversions of numbers with their bases. `%o` is signed, unlike in C. */
  predicate IsNumeric(c: u8, base: nat) {
    (c, base) in {('d' as int, 10), ('o' as int, 8), ('u' as int, 10), ('x' as int, 16)}
  }

  /** The numbers that a conversion takes. The smallest one of 64 bits cannot be negated. */
  predicate InRange(c: u8, n: int, ells: nat) {
    var half := if ells >= 2 then 0x8000_0000_0000_0000 else 0x8000_0000;
    if c == 'u' as int || c == 'x' as int then 0 <= n < 2 * half
    else -half <= n < half && n != -0x8000_0000_0000_0000
  }

  /** A numeric conversion writes the number that was passed. */
  lemma NumberEscape(c: u8, base: nat, n: int, ells: nat, sp: Spec)
    requires IsNumeric(c, base) && InRange(c, n, ells) && sp.lflag == ells
    ensures Convert(c, sp, [IntArg(n, ells)], 0) == Written(Signed(n, base, sp.width, sp.padc), 1)
  {
    hide Signed, Padded;
    if ells < 2 {
      assert Signed32(n % TWO_32) == n || (n >= 0 && n % TWO_32 == n);
    } else {
      assert Signed64(n % TWO_64) == n || (n >= 0 && n % TWO_64 == n);
    }
    SignedIsPadded(n, base, sp.width, sp.padc);
  }

  lemma SignedIsPadded(n: int, base: nat, width: int, padc: u8)
    requires 2 <= base <= 16
    ensures n >= 0 ==> Signed(n, base, width, padc) == Padded(n, base, width, padc)
  {
  }

  /** For every number, width and pad character, and each of `%d`, `%o`, `%u`, `%x` and their `l`
      and `ll` forms: the formatter writes a string that `strtol`, in the same base, reads back to
      the same number, stopping at the terminator, exactly when the padding does not come between a
      minus sign and the digits, or pass for a sign, and the magnitude fits in the 32-bit `long`. */
  lemma PrintThenParse(c: u8, base: nat, padc: u8, width: nat, ells: nat, n: int)
    requires IsNumeric(c, base) && InRange(c, n, ells) && padc in {SPACE, ZERO, MINUS} && width >= 1
    ensures var s := Strtol.Printed(n, base, width, padc);
      && Format(Escape(padc, width, None, ells, c), 0, [IntArg(n, ells)], 0)
         == (if width > MAX_NUMBER then Stuck([]) else Done(Text(s)))
      && (Strtol.ParseLong(s, base) == Strtol.Value(n, |s| - 1)
          <==> Strtol.Readable(n, |Digits(Strtol.Magnitude(n), base)|, width, padc) && -LONG_MAX <= n <= LONG_MAX)
  {
    hide Digits, Strtol.ParseLong, Format, Escape, Convert, InRange;
    NumberEscape(c, base, n, ells, Spec(padc, width, -1, ells, false));
    OneEscape(padc, width, None, ells, c, [IntArg(n, ells)]);
    assert Text(Strtol.Printed(n, base, width, padc)) == Signed(n, base, width, padc);
    Strtol.RoundTrip(n, base, width, padc);
  }

  /** Without flags and width, the number comes back if its magnitude fits in `long`, and `strtol`
      overflows on the way if not. */
  lemma PlainPrintThenParse(c: u8, base: nat, n: int)
    requires IsNumeric(c, base) && InRange(c, n, 0)
    ensures var s := Strtol.Printed(n, base, -1, SPACE);
      && Format([PERCENT, c, NUL], 0, [IntArg(n, 0)], 0) == Done(Text(s))
      && Strtol.ParseLong(s, base)
         == if -LONG_MAX <= n <= LONG_MAX then Strtol.Value(n, |s| - 1) else Strtol.Overflow
  {
    hide Strtol.ParseLong, Format, Digits, Convert, InRange;
    NumberEscape(c, base, n, 0, DEFAULT);
    OneDirective(c, [IntArg(n, 0)]);
    var s := Strtol.Printed(n, base, -1, SPACE);
    assert Text(s) == Signed(n, base, -1, SPACE);
    Strtol.PrintedParts(n, base, -1, SPACE);
    Strtol.ParseZeroPadded(s, n, base, -1 - |Digits(Strtol.Magnitude(n), base)|, SPACE);
  }

  /** The line that the kernel prints at start-up, and that its tests look for. */
  lemma StartupLine()
    ensures Format(CText("\n6828 decimal is %o octal!\n"), 0, [IntArg(6828, 0)], 0)
         == Done(Ascii("\n6828 decimal is 15254 octal!\n"))
  {
    hide Format, Convert, Digits, Ascii, CText;
    var pre, post := Ascii("\n6828 decimal is "), Ascii(" octal!\n");
    StartupFormat();
    StartupOutput();
    NumberEscape(LETTER_O, 8, 6828, 0, DEFAULT);
    UnpaddedNumber(6828, 8);
    TextAround(pre, LETTER_O, post, [IntArg(6828, 0)]);
  }

  lemma StartupFormat()
    ensures var pre, post := Ascii("\n6828 decimal is "), Ascii(" octal!\n");
      && PERCENT !in pre && NUL !in pre && PERCENT !in post && NUL !in post
      && CText("\n6828 decimal is %o octal!\n") == pre + [PERCENT, LETTER_O] + post + [NUL]
  {
    hide CText, Ascii;
    StartupConcat();
    AsciiConcat("\n6828 decimal is ", "%o", " octal!\n");
    assert Ascii("%o") == [PERCENT, LETTER_O];
    assert CText("\n6828 decimal is %o octal!\n") == Ascii("\n6828 decimal is %o octal!\n") + [NUL];
  }

  lemma StartupConcat()
    ensures "\n6828 decimal is %o octal!\n" == "\n6828 decimal is " + "%o" + " octal!\n"
  {
  }

  lemma StartupOutput()
    ensures Ascii("\n6828 decimal is 15254 octal!\n")
         == Ascii("\n6828 decimal is ") + Digits(6828, 8) + Ascii(" octal!\n")
  {
    hide Digits;
    OctalExample();
    assert "\n6828 decimal is 15254 octal!\n" == "\n6828 decimal is " + "15254" + " octal!\n";
    AsciiConcat("\n6828 decimal is ", "15254", " octal!\n");
    assert Ascii("15254") == Digits(6828, 8);
  }

  lemma AsciiConcat(x: string, y: string, z: string)
    requires forall k :: 0 <= k < |x| ==> x[k] as int < 128
    requires forall k :: 0 <= k < |y| ==> y[k] as int < 128
    requires forall k :: 0 <= k < |z| ==> z[k] as int < 128
    ensures Ascii(x + y + z) == Ascii(x) + Ascii(y) + Ascii(z)
  {
  }

  /** The argument of `%p`: a word, or the address of a string. */
  function AddressOf(arg: Arg): u32
    requires !arg.W64?
  {
    if arg.W32? then arg.word else arg.address
  }

  /** A pointer is written as a C literal, by whose prefix `strtol` finds out the base itself; it is
      read back if it lies in the lower half of the address space, and overflows if not. */
  lemma PointerRoundTrip(arg: Arg)
    requires !arg.W64?
    ensures var w: int := AddressOf(arg);
      var s := Strtol.Literal(w, 16, false);
      var r := if w <= LONG_MAX then Strtol.Value(w, |s| - 1) else Strtol.Overflow;
      && Format(CText("%p"), 0, [arg], 0) == Done(Text(s)) && Text(s) == Ascii("0x") + Digits(w, 16)
      && Strtol.ParseLong(s, 0) == r && Strtol.ParseLong(s, 16) == r
  {
    hide Digits, Strtol.ParseLong, Format;
    var w := AddressOf(arg);
    Directive('p');
    OneDirective(LETTER_P, [arg]);
    assert Ascii("0x") == [ZERO, LETTER_X];
    assert Text(Strtol.Literal(w, 16, false)) == [ZERO, LETTER_X] + Digits(w, 16);
    Strtol.LiteralsAreRead(w, 16, false);
  }

  /** `-E` and `E` are equivalent error codes. */
  lemma ErrorSignIgnored(e: u32, sp: Spec)
    requires 0 < e < 0x8000_0000
    ensures Convert(LETTER_E, sp, [W32(e)], 0) == Convert(LETTER_E, sp, [W32(TWO_32 - e)], 0)
  {
    hide ErrorField;
    assert Signed32(TWO_32 - e) + e == 0;
  }
}
