/** `vprintfmt`, a small interpreter for format strings. The calls of `putch` are collected in a
    sequence. */
module Printfmt {
  import opened Machine
  import opened Strings
  import opened Numbers

  const PERCENT: u8 := 37
  const SPACE: u8 := 32
  const NINE: u8 := 57
  const STAR: u8 := 42
  const DOT: u8 := 46
  const HASH: u8 := 35
  const QUESTION: u8 := 63
  const LETTER_C: u8 := 99
  const LETTER_D: u8 := 100
  const LETTER_E: u8 := 101
  const LETTER_L: u8 := 108
  const LETTER_O: u8 := 111
  const LETTER_P: u8 := 112
  const LETTER_S: u8 := 115
  const LETTER_U: u8 := 117
  const LETTER_X: u8 := 120
  const MAXERROR: int := 7
  const E_INVAL: int := 3
  const LLONG_MIN: int := -0x8000_0000_0000_0000

  /** The largest number that can be read without overflow of `int`: the code adds a digit's
      character before it subtracts '0'. */
  const MAX_NUMBER: int := INT_MAX - ZERO

  /** The variable arguments: 32-bit words, 64-bit words, and pointers to strings. */
  datatype Arg = W32(word: u32) | W64(quad: u64) | Str(address: u32, text: CString)

  /** The state that the flags of an escape build up. */
  datatype Spec = Spec(padc: u8, width: int, precision: int, lflag: nat, alt: bool)

  const DEFAULT: Spec := Spec(SPACE, -1, -1, 0, false)

  /** `Stuck`: the C program has no defined behaviour from here on (an argument is missing or has
      another type, a width or precision overflows, or the smallest integer is negated). */
  datatype Result = Done(out: seq<int>) | Stuck(out: seq<int>) {
    function After(before: seq<int>): Result {
      this.(out := before + out)
    }
  }

  // ----- Arguments -----

  function Signed32(w: u32): int {
    if w < 0x8000_0000 then w else w - TWO_32
  }

  function Signed64(w: u64): int {
    if w < 0x8000_0000_0000_0000 then w else w - TWO_64
  }

  const NULL_TEXT: CString := CText("(null)")

  /** A word, which may be the address of a string. */
  function GetWord(args: seq<Arg>, a: nat): Option<u32> {
    if a >= |args| then None
    else
      match args[a]
      case W32(word) => Some(word)
      case W64(_) => None
      case Str(address, _) => Some(address)
  }

  /** The string behind a pointer; NULL stands for "(null)". */
  function GetString(args: seq<Arg>, a: nat): (r: Option<CString>) {
    if GetWord(args, a) == Some(0) then Some(NULL_TEXT)
    else if a < |args| && args[a].Str? then Some(args[a].text)
    else None
  }

  function GetUint(args: seq<Arg>, a: nat, lflag: nat): Option<u64> {
    if lflag >= 2 then if a < |args| && args[a].W64? then Some(args[a].quad) else None
    else match GetWord(args, a) case None => None case Some(w) => Some(w)
  }

  function GetInt(args: seq<Arg>, a: nat, lflag: nat): (r: Option<int>)
    ensures r.Some? ==> LLONG_MIN <= r.value < -LLONG_MIN
  {
    if lflag >= 2 then if a < |args| && args[a].W64? then Some(Signed64(args[a].quad)) else None
    else match GetWord(args, a) case None => None case Some(w) => Some(Signed32(w))
  }

  // ----- The flags between '%' and the conversion character -----

  predicate IsDigit(c: u8) {
    ZERO <= c <= NINE
  }

  predicate IsFlag(c: u8) {
    c == MINUS || IsDigit(c) || c == STAR || c == DOT || c == HASH || c == LETTER_L
  }

  /** The end of the digits at or after `i`. */
  function NumberEnd(fmt: CString, i: nat): (j: nat)
    requires i < |fmt|
    ensures i <= j < |fmt| && !IsDigit(fmt[j])
    ensures forall k :: i <= k < j ==> IsDigit(fmt[k])
    decreases |fmt| - i
  {
    if IsDigit(fmt[i]) then NumberEnd(fmt, i + 1) else i
  }

  /** A number is the width if there is none yet, and the precision otherwise. */
  function SetNumber(sp: Spec, n: int): Spec {
    if sp.width < 0 then sp.(width := n, precision := -1) else sp.(precision := n)
  }

  function SetDot(sp: Spec): Spec {
    if sp.width < 0 then sp.(width := 0) else sp
  }

  /** The state at the conversion character, which is at `conv`, with `a` arguments used. `Broken`:
      a '*' without an argument, or a number that overflows. */
  datatype Scan = Scan(spec: Spec, conv: nat, a: nat) | Broken

  function ScanFlags(fmt: CString, i: nat, args: seq<Arg>, a: nat, sp: Spec): (r: Scan)
    requires i < |fmt|
    ensures r.Scan? ==> i <= r.conv < |fmt| && !IsFlag(fmt[r.conv])
    ensures r.Scan? ==> forall k :: i <= k < r.conv ==> IsFlag(fmt[k])
    decreases |fmt| - i
  {
    var c := fmt[i];
    if c == MINUS || c == ZERO then ScanFlags(fmt, i + 1, args, a, sp.(padc := c))
    else if IsDigit(c) then
      var j := NumberEnd(fmt, i);
      var n: int := Eval(fmt[i..j], 10);
      if n > MAX_NUMBER then Broken else ScanFlags(fmt, j, args, a, SetNumber(sp, n))
    else if c == STAR then
      match GetWord(args, a)
      case None => Broken
      case Some(w) => ScanFlags(fmt, i + 1, args, a + 1, SetNumber(sp, Signed32(w)))
    else if c == DOT then ScanFlags(fmt, i + 1, args, a, SetDot(sp))
    else if c == HASH then ScanFlags(fmt, i + 1, args, a, sp.(alt := true))
    else if c == LETTER_L then ScanFlags(fmt, i + 1, args, a, sp.(lflag := sp.lflag + 1))
    else Scan(sp, i, a)
  }

  // ----- Conversions -----

  /** A byte of a string as the signed `char` that is passed on. */
  function SignedChar(b: u8): int {
    if b < 0x80 then b else b - TWO_8
  }

  function Shown(b: u8, alt: bool): int {
    var ch := SignedChar(b);
    if alt && (ch < 32 || ch > 126) then QUESTION else ch
  }

  function Body(t: seq<u8>, alt: bool): (s: seq<int>)
    ensures |s| == |t|
  {
    if t == [] then [] else Body(t[..|t| - 1], alt) + [Shown(t[|t| - 1], alt)]
  }

  /** The part of a string that a precision lets through. */
  function Cut(t: seq<u8>, precision: int): (r: seq<u8>) {
    if precision < 0 || precision >= |t| then t else t[..precision]
  }

  /** A string in a field: left-padded, or right-padded with spaces under the '-' flag. The length
      for the padding comes from `strnlen`, whose bound is unsigned. */
  function StringField(t: seq<u8>, sp: Spec): seq<int> {
    var body := Body(Cut(t, sp.precision), sp.alt);
    if sp.width > 0 && sp.padc != MINUS then
      Repeat(sp.padc as int, sp.width - Min(|t|, sp.precision % TWO_32)) + body
    else body + Repeat(SPACE as int, sp.width - |body|)
  }

  const ERROR_TEXT: seq<u8> := Ascii("error ")

  /** `error_string`, for the codes that have an entry. */
  function ErrorString(e: int): CString
    requires 1 <= e < MAXERROR
  {
    match e
    case 1 => CText("unspecified error")
    case 2 => CText("bad environment")
    case 3 => CText("invalid parameter")
    case 4 => CText("out of memory")
    case 5 => CText("out of environments")
    case _ => CText("segmentation fault")
  }

  function ErrorField(e: nat): seq<int> {
    if 1 <= e < MAXERROR then StringField(Text(ErrorString(e)), DEFAULT)
    else ERROR_TEXT + Signed(e, 10, -1, SPACE)
  }

  datatype Conversion = Written(out: seq<int>, a: nat) | Unrecognised | Undefined

  /** What one conversion writes, and how many arguments it has used up to there. */
  function Convert(c: u8, sp: Spec, args: seq<Arg>, a: nat): Conversion {
    if c == LETTER_C then
      match GetWord(args, a) case None => Undefined case Some(w) => Written([Signed32(w)], a + 1)
    else if c == LETTER_E then
      match GetWord(args, a)
      case None => Undefined
      case Some(w) =>
        var err := Signed32(w);
        if err == INT_MIN then Undefined else Written(ErrorField(if err < 0 then -err else err), a + 1)
    else if c == LETTER_S then
      match GetString(args, a)
      case None => Undefined
      case Some(s) => Written(StringField(Text(s), sp), a + 1)
    else if c == LETTER_D || c == LETTER_O then
      match GetInt(args, a, sp.lflag)
      case None => Undefined
      case Some(n) =>
        if n == LLONG_MIN then Undefined
        else Written(Signed(n, if c == LETTER_D then 10 else 8, sp.width, sp.padc), a + 1)
    else if c == LETTER_U || c == LETTER_X then
      match GetUint(args, a, sp.lflag)
      case None => Undefined
      case Some(n) => Written(Padded(n, if c == LETTER_U then 10 else 16, sp.width, sp.padc), a + 1)
    else if c == LETTER_P then
      match GetWord(args, a)
      case None => Undefined
      case Some(w) => Written([ZERO, LETTER_X] + Padded(w, 16, sp.width, sp.padc), a + 1)
    else if c == PERCENT then Written([PERCENT], a)
    else Unrecognised
  }

  // ----- The whole format -----

  /** The output for the format from position `i` on, with `a` arguments already used. An escape
      that is not recognised puts out its '%'; its other characters are then plain text. */
  function Format(fmt: CString, i: nat, args: seq<Arg>, a: nat): (r: Result)
    requires i < |fmt|
    decreases |fmt| - i
  {
    if fmt[i] == NUL then Done([])
    else if fmt[i] != PERCENT then Format(fmt, i + 1, args, a).After([fmt[i]])
    else
      match ScanFlags(fmt, i + 1, args, a, DEFAULT)
      case Broken => Stuck([])
      case Scan(sp, conv, a') =>
        match Convert(fmt[conv], sp, args, a')
        case Undefined => Stuck([])
        case Written(out, a'') =>
          assert fmt[conv] != NUL;
          Format(fmt, conv + 1, args, a'').After(out)
        case Unrecognised => Format(fmt, i + 1, args, a').After([PERCENT])
  }

  // ----- The code -----

  method StringPut(p: CString, sp: Spec) returns (out: seq<int>)
    ensures out == StringField(Text(p), sp)
  {
    var width, precision := sp.width, sp.precision;
    out := [];
    if width > 0 && sp.padc != MINUS {
      var n := Strnlen(p, precision % TWO_32);
      width := width - n;
      var pad := PutPadding(width, sp.padc);
      out, width := pad, Min(width, 0);
    }
    var body := PutBody(p, precision, sp.alt);
    width := width - |body|;
    var pad := PutPadding(width, SPACE);
    assert out == [] || pad == [];
    out := out + body + pad;
  }

  /** The loop over the characters of a string, up to the precision. */
  method PutBody(p: CString, precision0: int, alt: bool) returns (out: seq<int>)
    ensures out == Body(Cut(Text(p), precision0), alt)
  {
    var precision := precision0;
    var i := 0;
    out := [];
    while p[i] != NUL
      invariant i <= |p| - 1 && out == Body(Text(p)[..i], alt)
      invariant if precision0 < 0 then precision == precision0 else i <= precision0 && precision == precision0 - i
      decreases |p| - i
    {
      if precision >= 0 {
        precision := precision - 1;
        if precision < 0 {
          assert Cut(Text(p), precision0) == Text(p)[..i];
          return;
        }
      }
      assert Text(p)[..i + 1][..i] == Text(p)[..i];
      out := out + [Shown(p[i], alt)];
      i := i + 1;
    }
    assert Text(p)[..i] == Text(p);
  }

  method NumberPut(n: int, base: nat, sp: Spec) returns (out: seq<int>)
    requires 2 <= base <= 16 && LLONG_MIN < n < TWO_64
    ensures out == Signed(n, base, sp.width, sp.padc)
  {
    var num: int := n;
    out := [];
    if num < 0 {
      out := [MINUS];
      num := -num;
    }
    var text := PrintNum(num, base, sp.width, sp.padc);
    out := out + text;
  }

  /** The second half of the switch: the conversion characters. */
  method ConvertPut(c: u8, sp: Spec, args: seq<Arg>, a: nat) returns (r: Conversion)
    ensures r == Convert(c, sp, args, a)
  {
    hide Signed, Padded, StringField, Digits;
    if c == LETTER_C {
      var w := GetWord(args, a);
      return if w.None? then Undefined else Written([Signed32(w.value)], a + 1);
    } else if c == LETTER_E {
      var w := GetWord(args, a);
      if w.None? || Signed32(w.value) == INT_MIN {
        return Undefined;
      }
      var err := Signed32(w.value);
      if err < 0 {
        err := -err;
      }
      var text: seq<int>;
      if err >= MAXERROR || err == 0 {
        text := NumberPut(err, 10, DEFAULT);
        text := ERROR_TEXT + text;
      } else {
        text := StringPut(ErrorString(err), DEFAULT);
      }
      return Written(text, a + 1);
    } else if c == LETTER_S {
      var s := GetString(args, a);
      if s.None? {
        return Undefined;
      }
      var text := StringPut(s.value, sp);
      return Written(text, a + 1);
    } else if c == LETTER_D || c == LETTER_O {
      var n := GetInt(args, a, sp.lflag);
      if n.None? || n.value == LLONG_MIN {
        return Undefined;
      }
      var text := NumberPut(n.value, if c == LETTER_D then 10 else 8, sp);
      return Written(text, a + 1);
    } else if c == LETTER_U || c == LETTER_X {
      var n := GetUint(args, a, sp.lflag);
      if n.None? {
        return Undefined;
      }
      var text := PrintNum(n.value, if c == LETTER_U then 10 else 16, sp.width, sp.padc);
      return Written(text, a + 1);
    } else if c == LETTER_P {
      var w := GetWord(args, a);
      if w.None? {
        return Undefined;
      }
      var text := PrintNum(w.value, 16, sp.width, sp.padc);
      return Written([ZERO, LETTER_X] + text, a + 1);
    } else if c == PERCENT {
      return Written([PERCENT], a);
    }
    return Unrecognised;
  }

  /** The first half of the switch: the flags, which jump back to `reswitch`. */
  method ScanPut(fmt: CString, start: nat, args: seq<Arg>, a0: nat) returns (r: Scan)
    requires start < |fmt|
    ensures r == ScanFlags(fmt, start, args, a0, DEFAULT)
  {
    var p, a, sp := start, a0, DEFAULT;
    while IsFlag(fmt[p])
      invariant start <= p < |fmt|
      invariant ScanFlags(fmt, start, args, a0, DEFAULT) == ScanFlags(fmt, p, args, a, sp)
      decreases |fmt| - p
    {
      var ch := fmt[p];
      if ch == MINUS || ch == ZERO {
        p, sp := p + 1, sp.(padc := ch);
      } else if IsDigit(ch) {
        var fits, n, end := ReadNumber(fmt, p);
        if !fits {
          return Broken;
        }
        p, sp := end, SetNumber(sp, n);
      } else if ch == STAR {
        var w := GetWord(args, a);
        if w.None? {
          return Broken;
        }
        p, a, sp := p + 1, a + 1, SetNumber(sp, Signed32(w.value));
      } else if ch == DOT {
        p, sp := p + 1, SetDot(sp);
      } else if ch == HASH {
        p, sp := p + 1, sp.(alt := true);
      } else {
        p, sp := p + 1, sp.(lflag := sp.lflag + 1);
      }
    }
    return Scan(sp, p, a);
  }

  /** The digits of a width or precision, up to the first step that overflows. */
  method ReadNumber(fmt: CString, start: nat) returns (fits: bool, n: int, p: nat)
    requires start < |fmt| && IsDigit(fmt[start])
    ensures fits <==> Eval(fmt[start..NumberEnd(fmt, start)], 10) <= MAX_NUMBER
    ensures fits ==> p == NumberEnd(fmt, start) && n == Eval(fmt[start..p], 10)
  {
    n, p := 0, start;
    while IsDigit(fmt[p])
      invariant start <= p < |fmt| && n == Eval(fmt[start..p], 10) <= MAX_NUMBER
      invariant NumberEnd(fmt, start) == NumberEnd(fmt, p)
      decreases |fmt| - p
    {
      EvalExtends(fmt, start, p, 10);
      var sum := n * 10 + fmt[p];
      p := p + 1;
      if sum > INT_MAX {
        Overflows(fmt, start, p);
        return false, n, p;
      }
      n := sum - ZERO;
    }
    return true, n, p;
  }

  lemma Overflows(fmt: CString, start: nat, p: nat)
    requires start <= p < |fmt| && NumberEnd(fmt, start) == NumberEnd(fmt, p)
    ensures Eval(fmt[start..p], 10) <= Eval(fmt[start..NumberEnd(fmt, start)], 10)
  {
    hide Eval, NumberEnd;
    var t := fmt[start..NumberEnd(fmt, start)];
    assert t[..p - start] == fmt[start..p];
    PartialValues(t, 10, p - start);
  }

  /** Never reads past the NUL of the format, and ends for every format and argument list. */
  method VPrintFmt(fmt: CString, args: seq<Arg>) returns (r: Result)
    ensures r == Format(fmt, 0, args, 0)
  {
    hide Format, ScanFlags, Convert, Result.After;
    var out: seq<int> := [];
    var p: nat, a: nat := 0, 0;
    AfterNothing(Format(fmt, 0, args, 0));
    while true
      invariant p < |fmt| && Format(fmt, 0, args, 0) == Format(fmt, p, args, a).After(out)
      decreases |fmt| - p
    {
      ghost var p0 := p;
      while fmt[p] != PERCENT
        invariant p0 <= p < |fmt| && Format(fmt, 0, args, 0) == Format(fmt, p, args, a).After(out)
        decreases |fmt| - p
      {
        if fmt[p] == NUL {
          AtEnd(fmt, p, args, a, out);
          return Done(out);
        }
        Literal(fmt, p, args, a, out);
        out, p := out + [fmt[p]], p + 1;
      }
      p := p + 1;
      var scan := ScanPut(fmt, p, args, a);
      Escape(fmt, p - 1, args, a, out);
      if scan.Broken? {
        return Stuck(out);
      }
      var conversion := ConvertPut(fmt[scan.conv], scan.spec, args, scan.a);
      match conversion
      case Undefined => return Stuck(out);
      case Written(text, a') =>
        out, p, a := out + text, scan.conv + 1, a';
      case Unrecognised =>
        var start := Rewind(fmt, p, scan.conv);
        out, p, a := out + [PERCENT], start, scan.a;
    }
  }

  /** Walk back from an unrecognised conversion to just behind the '%' of its escape. */
  method Rewind(fmt: CString, start: nat, conv: nat) returns (p: nat)
    requires 0 < start <= conv < |fmt| && fmt[start - 1] == PERCENT
    requires forall k :: start <= k < conv ==> IsFlag(fmt[k])
    ensures p == start
  {
    p := conv;
    while fmt[p - 1] != PERCENT
      invariant start <= p <= conv
      decreases p
    {
      p := p - 1;
    }
  }

  lemma AfterNothing(r: Result)
    ensures r.After([]) == r
  {
  }

  lemma AtEnd(fmt: CString, p: nat, args: seq<Arg>, a: nat, out: seq<int>)
    requires p < |fmt| && fmt[p] == NUL
    ensures Format(fmt, p, args, a).After(out) == Done(out)
  {
  }

  lemma Literal(fmt: CString, p: nat, args: seq<Arg>, a: nat, out: seq<int>)
    requires p < |fmt| && fmt[p] != NUL && fmt[p] != PERCENT
    ensures p + 1 < |fmt|
    ensures Format(fmt, p, args, a).After(out) == Format(fmt, p + 1, args, a).After(out + [fmt[p]])
  {
    Associative(out, [fmt[p]], Format(fmt, p + 1, args, a).out);
  }

  lemma NulIsNoConversion(sp: Spec, args: seq<Arg>, a: nat)
    ensures Convert(NUL, sp, args, a).Unrecognised?
  {
  }

  lemma Escape(fmt: CString, p: nat, args: seq<Arg>, a: nat, out: seq<int>)
    requires p < |fmt| && fmt[p] == PERCENT
    ensures p + 1 < |fmt|
    ensures match ScanFlags(fmt, p + 1, args, a, DEFAULT)
      case Broken => Format(fmt, p, args, a).After(out) == Stuck(out)
      case Scan(sp, conv, a') =>
        match Convert(fmt[conv], sp, args, a')
        case Undefined => Format(fmt, p, args, a).After(out) == Stuck(out)
        case Written(text, a'') => fmt[conv] != NUL
          && Format(fmt, p, args, a).After(out) == Format(fmt, conv + 1, args, a'').After(out + text)
        case Unrecognised => Format(fmt, p, args, a).After(out) == Format(fmt, p + 1, args, a').After(out + [PERCENT])
  {
    hide ScanFlags, Convert;
    match ScanFlags(fmt, p + 1, args, a, DEFAULT)
    case Broken =>
    case Scan(sp, conv, a') =>
      NulIsNoConversion(sp, args, a');
      match Convert(fmt[conv], sp, args, a')
      case Undefined =>
      case Written(text, a'') => Associative(out, text, Format(fmt, conv + 1, args, a'').out);
      case Unrecognised => Associative(out, [PERCENT], Format(fmt, p + 1, args, a').out);
  }

  lemma Associative(x: seq<int>, y: seq<int>, z: seq<int>)
    ensures x + (y + z) == x + y + z
  {
  }

  // ----- What formats mean -----

  /** Text without a '%' is copied. */
  lemma {:induction false} PlainRun(fmt: CString, i: nat, j: nat, args: seq<Arg>, a: nat)
    requires i <= j < |fmt| && forall k :: i <= k < j ==> fmt[k] != PERCENT
    ensures Format(fmt, i, args, a) == Format(fmt, j, args, a).After(fmt[i..j])
    decreases j - i
  {
    if i < j {
      PlainRun(fmt, i + 1, j, args, a);
      assert fmt[i..j] == [fmt[i]] + fmt[i + 1..j];
      var rest := Format(fmt, j, args, a).out;
      Associative([fmt[i]], fmt[i + 1..j], rest);
    } else {
      assert fmt[i..j] == [];
    }
  }

  /** An unrecognised escape is put out verbatim, flags and all, and so is what it ends with; only
      the arguments that its '*' flags took are gone. */
  lemma UnrecognisedIsVerbatim(fmt: CString, i: nat, args: seq<Arg>, a: nat)
    requires i + 1 < |fmt| && fmt[i] == PERCENT
    requires var scan := ScanFlags(fmt, i + 1, args, a, DEFAULT);
      scan.Scan? && Convert(fmt[scan.conv], scan.spec, args, scan.a).Unrecognised?
    ensures var scan := ScanFlags(fmt, i + 1, args, a, DEFAULT);
      Format(fmt, i, args, a) == Format(fmt, scan.conv, args, scan.a).After(fmt[i..scan.conv])
  {
    var scan := ScanFlags(fmt, i + 1, args, a, DEFAULT);
    PlainRun(fmt, i + 1, scan.conv, args, scan.a);
    var rest := Format(fmt, scan.conv, args, scan.a).out;
    assert fmt[i..scan.conv] == [PERCENT] + fmt[i + 1..scan.conv];
    Associative([PERCENT], fmt[i + 1..scan.conv], rest);
  }

  /** What `putch` gets for a byte of a string: a signed `char` with these bits, or, under the '#' flag,
      the character itself if it is printable, and '?' if not. */
  predicate Represents(v: int, b: u8, alt: bool) {
    if alt then v == if 32 <= b <= 126 then b else '?' as int else -128 <= v < 128 && v % 256 == b
  }

  lemma ShownRepresents(b: u8, alt: bool)
    ensures Represents(Shown(b, alt), b, alt)
  {
  }

  /** `%s` writes max(width, k) characters for the k characters that the precision lets through,
      on the left with pad characters in front, or, under the '-' flag, with spaces behind. */
  lemma StringFieldMeaning(t: seq<u8>, sp: Spec)
    requires |t| < 0x8000_0000 && sp.precision >= INT_MIN && sp.precision < -INT_MIN
    ensures var k := if sp.precision < 0 then |t| else Min(|t|, sp.precision);
      var out := StringField(t, sp);
      var first := if sp.padc == MINUS then 0 else |out| - k;
      && |out| == Max(sp.width, k)
      && (forall j :: 0 <= j < k ==> Represents(out[first + j], t[j], sp.alt))
      && (forall j :: 0 <= j < first ==> out[j] == sp.padc as int)
      && (forall j :: first + k <= j < |out| ==> out[j] == SPACE as int)
  {
    hide Body, Cut, Shown, Represents;
    var cut := Cut(t, sp.precision);
    CutMeaning(t, sp.precision);
    BodyAt(cut, sp.alt);
    UnsignedBound(|t|, sp.precision);
  }

  lemma CutMeaning(t: seq<u8>, precision: int)
    ensures var cut := Cut(t, precision);
      && |cut| == (if precision < 0 then |t| else Min(|t|, precision))
      && forall j :: 0 <= j < |cut| ==> cut[j] == t[j]
  {
  }

  /** A negative precision is a bound that no string reaches. */
  lemma UnsignedBound(length: nat, precision: int)
    requires length < 0x8000_0000 && INT_MIN <= precision < -INT_MIN
    ensures Min(length, precision % TWO_32) == if precision < 0 then length else Min(length, precision)
  {
    if precision < 0 {
      assert precision % TWO_32 == precision + TWO_32;
    }
  }

  lemma {:induction false} BodyAt(t: seq<u8>, alt: bool)
    ensures forall j :: 0 <= j < |t| ==> Represents(Body(t, alt)[j], t[j], alt)
  {
    hide Represents, Shown;
    if t != [] {
      BodyAt(t[..|t| - 1], alt);
      ShownRepresents(t[|t| - 1], alt);
    }
  }

  /** `%e` behaves like the nested call of `printfmt` that the source makes. */
  lemma ErrorIsNested(e: nat, address: u32)
    requires e < 0x8000_0000 && address != 0
    ensures Done(ErrorField(e)) ==
      if 1 <= e < MAXERROR then Format([PERCENT, LETTER_S, NUL], 0, [Str(address, ErrorString(e))], 0)
      else Format(ERROR_TEXT + [PERCENT, LETTER_D, NUL], 0, [W32(e)], 0)
  {
    hide Signed, StringField, ErrorString;
    if 1 <= e < MAXERROR {
      OneDirective(LETTER_S, [Str(address, ErrorString(e))]);
    } else {
      var fmt: CString := ERROR_TEXT + [PERCENT, LETTER_D, NUL];
      PlainRun(fmt, 0, 6, [W32(e)], 0);
      assert fmt[0..6] == ERROR_TEXT;
      assert ScanFlags(fmt, 7, [W32(e)], 0, DEFAULT) == Scan(DEFAULT, 7, 0);
      assert Format(fmt, 8, [W32(e)], 1) == Done([]);
    }
  }

  /** One conversion without flags in running text. */
  lemma TextAround(pre: seq<u8>, c: u8, post: seq<u8>, args: seq<Arg>)
    requires NUL !in pre && PERCENT !in pre && NUL !in post && PERCENT !in post
    requires c != NUL && !IsFlag(c) && Convert(c, DEFAULT, args, 0).Written?
    ensures Format(pre + [PERCENT, c] + post + [NUL], 0, args, 0)
         == Done(pre + Convert(c, DEFAULT, args, 0).out + post)
  {
    hide Convert;
    var fmt: CString := pre + [PERCENT, c] + post + [NUL];
    var r := Convert(c, DEFAULT, args, 0);
    var i := |pre|;
    assert fmt[0..i] == pre && fmt[i] == PERCENT && fmt[i + 1] == c;
    PlainRun(fmt, 0, i, args, 0);
    assert ScanFlags(fmt, i + 1, args, 0, DEFAULT) == Scan(DEFAULT, i + 1, 0);
    PlainTail(fmt, i + 2, post, args, r.a);
    hide ScanFlags;
    Associative(pre, r.out, post);
  }

  lemma PlainTail(fmt: CString, i: nat, post: seq<u8>, args: seq<Arg>, a: nat)
    requires i < |fmt| && fmt[i..] == post + [NUL] && PERCENT !in post
    ensures Format(fmt, i, args, a) == Done(post)
  {
    var j := |fmt| - 1;
    assert forall k :: i <= k < j ==> fmt[k] == fmt[i..][k - i];
    PlainRun(fmt, i, j, args, a);
    assert fmt[i..j] == fmt[i..][..j - i] == post;
    assert Format(fmt, j, args, a) == Done([]);
  }

  lemma OneDirective(c: u8, args: seq<Arg>)
    requires c != NUL && !IsFlag(c) && Convert(c, DEFAULT, args, 0).Written?
    ensures Format([PERCENT, c, NUL], 0, args, 0) == Done(Convert(c, DEFAULT, args, 0).out)
  {
    var fmt: CString := [PERCENT, c, NUL];
    assert ScanFlags(fmt, 1, args, 0, DEFAULT) == Scan(DEFAULT, 1, 0);
    assert Format(fmt, 2, args, Convert(c, DEFAULT, args, 0).a) == Done([]);
  }
}
