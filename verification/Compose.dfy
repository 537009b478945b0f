/** Formats compose: what a format writes that is two formats in a row. */
module Compose {
  import opened Machine
  import opened Strings
  import opened Numbers
  import opened Printfmt

  /** The arguments that a format uses up to its end. `None`: its behaviour is not defined, or its
      last escape is incomplete, so that whatever is put behind the format would complete it. */
  function Used(fmt: CString, i: nat, args: seq<Arg>, a: nat): (r: Option<nat>)
    requires i < |fmt|
    decreases |fmt| - i
  {
    if fmt[i] == NUL then Some(a)
    else if fmt[i] != PERCENT then Used(fmt, i + 1, args, a)
    else
      match ScanFlags(fmt, i + 1, args, a, DEFAULT)
      case Broken => None
      case Scan(sp, conv, a') =>
        if fmt[conv] == NUL then None
        else
          match Convert(fmt[conv], sp, args, a')
          case Undefined => None
          case Written(_, a'') => Used(fmt, conv + 1, args, a'')
          case Unrecognised => Used(fmt, i + 1, args, a')
  }

  /** The flags one by one: the state behind the flag at `i`. */
  function NextFlag(fmt: CString, i: nat, args: seq<Arg>, a: nat, sp: Spec): (r: Scan)
    requires i < |fmt| && IsFlag(fmt[i])
    ensures r.Scan? ==> i < r.conv < |fmt| && (a <= |args| ==> a <= r.a <= |args|)
    ensures r.Scan? && IsDigit(fmt[i]) && fmt[i] != ZERO ==> !IsDigit(fmt[r.conv])
    ensures ScanFlags(fmt, i, args, a, sp) == if r.Broken? then Broken else ScanFlags(fmt, r.conv, args, r.a, r.spec)
  {
    var c := fmt[i];
    if c == MINUS || c == ZERO then Scan(sp.(padc := c), i + 1, a)
    else if IsDigit(c) then
      var j := NumberEnd(fmt, i);
      var n: int := Eval(fmt[i..j], 10);
      if n > MAX_NUMBER then Broken else Scan(SetNumber(sp, n), j, a)
    else if c == STAR then
      match GetWord(args, a) case None => Broken case Some(w) => Scan(SetNumber(sp, Signed32(w)), i + 1, a + 1)
    else if c == DOT then Scan(SetDot(sp), i + 1, a)
    else if c == HASH then Scan(sp.(alt := true), i + 1, a)
    else Scan(sp.(lflag := sp.lflag + 1), i + 1, a)
  }

  // ----- The first format does not see what is behind it -----

  ghost predicate Extends(f: CString, h: CString) {
    |f| <= |h| && forall k :: 0 <= k < |f| - 1 ==> h[k] == f[k]
  }

  lemma {:induction false} SameNumber(f: CString, h: CString, i: nat)
    requires Extends(f, h) && i < |f| && !IsDigit(h[NumberEnd(f, i)])
    ensures NumberEnd(h, i) == NumberEnd(f, i)
    decreases |f| - i
  {
    if IsDigit(f[i]) {
      SameNumber(f, h, i + 1);
    }
  }

  lemma SameFlag(f: CString, h: CString, i: nat, args: seq<Arg>, a: nat, sp: Spec)
    requires Extends(f, h) && i < |f| && IsFlag(f[i])
    requires var r := NextFlag(f, i, args, a, sp); r.Scan? && (IsDigit(f[i]) && f[i] != ZERO ==> !IsDigit(h[r.conv]))
    ensures IsFlag(h[i]) && NextFlag(h, i, args, a, sp) == NextFlag(f, i, args, a, sp)
  {
    hide Eval, SetNumber, SetDot, ScanFlags;
    if IsDigit(f[i]) && f[i] != ZERO {
      SameNumber(f, h, i);
      assert h[i..NumberEnd(f, i)] == f[i..NumberEnd(f, i)];
    }
  }

  lemma {:induction false} SameFlags(f: CString, h: CString, i: nat, args: seq<Arg>, a: nat, sp: Spec)
    requires Extends(f, h) && i < |f|
    requires var r := ScanFlags(f, i, args, a, sp); r.Scan? && !IsFlag(h[r.conv])
    ensures ScanFlags(h, i, args, a, sp) == ScanFlags(f, i, args, a, sp)
    decreases |f| - i
  {
    hide NextFlag;
    if IsFlag(f[i]) {
      var r := NextFlag(f, i, args, a, sp);
      SameFlag(f, h, i, args, a, sp);
      SameFlags(f, h, r.conv, args, r.a, r.spec);
    }
  }

  lemma {:induction false} FirstPart(f: CString, h: CString, i: nat, args: seq<Arg>, a: nat)
    requires Extends(f, h) && i < |f| && Used(f, i, args, a).Some?
    ensures Format(f, i, args, a).Done?
    ensures Format(h, i, args, a)
         == Format(h, |f| - 1, args, Used(f, i, args, a).value).After(Format(f, i, args, a).out)
    decreases |f| - i
  {
    hide ScanFlags, Convert;
    if f[i] == NUL {
    } else if f[i] != PERCENT {
      FirstPart(f, h, i + 1, args, a);
      AfterBoth([f[i]], Format(f, i + 1, args, a).out, Format(h, |f| - 1, args, Used(f, i, args, a).value));
    } else {
      FirstEscape(f, h, i, args, a);
    }
  }

  lemma AfterBoth(x: seq<int>, y: seq<int>, r: Result)
    ensures r.After(y).After(x) == r.After(x + y)
  {
    Associative(x, y, r.out);
  }

  lemma {:induction false} FirstEscape(f: CString, h: CString, i: nat, args: seq<Arg>, a: nat)
    requires Extends(f, h) && i < |f| && Used(f, i, args, a).Some? && f[i] == PERCENT
    ensures Format(f, i, args, a).Done?
    ensures Format(h, i, args, a)
         == Format(h, |f| - 1, args, Used(f, i, args, a).value).After(Format(f, i, args, a).out)
    decreases |f| - i, 0
  {
    hide ScanFlags, Convert, Result.After;
    SameFlags(f, h, i + 1, args, a, DEFAULT);
    var scan := ScanFlags(f, i + 1, args, a, DEFAULT);
    var rest := Format(h, |f| - 1, args, Used(f, i, args, a).value);
    match Convert(f[scan.conv], scan.spec, args, scan.a)
    case Written(out, a'') =>
      FirstPart(f, h, scan.conv + 1, args, a'');
      AfterBoth(out, Format(f, scan.conv + 1, args, a'').out, rest);
      AfterIsDone(out, Format(f, scan.conv + 1, args, a''));
    case Unrecognised =>
      FirstPart(f, h, i + 1, args, scan.a);
      AfterBoth([PERCENT], Format(f, i + 1, args, scan.a).out, rest);
      AfterIsDone([PERCENT], Format(f, i + 1, args, scan.a));
  }

  lemma AfterIsDone(x: seq<int>, r: Result)
    requires r.Done?
    ensures r.After(x) == Done(x + r.out)
  {
  }

  // ----- The second format does not see what is in front of it -----

  ghost predicate Ends(h: CString, d: nat, g: CString) {
    |h| == d + |g| && forall k :: 0 <= k < |g| ==> h[d + k] == g[k]
  }

  lemma {:induction false} ShiftedNumber(h: CString, d: nat, g: CString, i: nat)
    requires Ends(h, d, g) && i < |g|
    ensures NumberEnd(h, d + i) == d + NumberEnd(g, i)
    decreases |g| - i
  {
    if IsDigit(g[i]) {
      ShiftedNumber(h, d, g, i + 1);
    }
  }

  function Shifted(r: Scan, d: nat, b: nat): Scan {
    match r
    case Broken => Broken
    case Scan(sp, conv, a) => Scan(sp, d + conv, b + a)
  }

  lemma ShiftedFlag(h: CString, d: nat, g: CString, i: nat, args: seq<Arg>, b: nat, a: nat, sp: Spec)
    requires Ends(h, d, g) && i < |g| && IsFlag(g[i]) && b <= |args|
    ensures IsFlag(h[d + i])
    ensures NextFlag(h, d + i, args, b + a, sp) == Shifted(NextFlag(g, i, args[b..], a, sp), d, b)
  {
    hide Eval, SetNumber, SetDot, ScanFlags;
    if IsDigit(g[i]) && g[i] != ZERO {
      var j := NumberEnd(g, i);
      ShiftedNumber(h, d, g, i);
      assert h[d + i..d + j] == g[i..j];
    }
  }

  lemma {:induction false} ShiftedFlags(h: CString, d: nat, g: CString, i: nat, args: seq<Arg>, b: nat, a: nat,
                                        sp: Spec)
    requires Ends(h, d, g) && i < |g| && b <= |args|
    ensures ScanFlags(h, d + i, args, b + a, sp) == Shifted(ScanFlags(g, i, args[b..], a, sp), d, b)
    decreases |g| - i
  {
    hide NextFlag;
    if IsFlag(g[i]) {
      var r := NextFlag(g, i, args[b..], a, sp);
      ShiftedFlag(h, d, g, i, args, b, a, sp);
      if r.Scan? {
        ShiftedFlags(h, d, g, r.conv, args, b, r.a, r.spec);
      }
    }
  }

  lemma ShiftedConversion(c: u8, sp: Spec, args: seq<Arg>, b: nat, a: nat)
    requires b <= |args|
    ensures match Convert(c, sp, args[b..], a)
      case Written(out, a') => Convert(c, sp, args, b + a) == Written(out, b + a')
      case Unrecognised => Convert(c, sp, args, b + a) == Unrecognised
      case Undefined => Convert(c, sp, args, b + a) == Undefined
  {
    hide Signed, Padded, StringField, ErrorField;
    assert GetWord(args[b..], a) == GetWord(args, b + a);
  }

  lemma {:induction false} SecondPart(h: CString, d: nat, g: CString, i: nat, args: seq<Arg>, b: nat, a: nat)
    requires Ends(h, d, g) && i < |g| && b <= |args|
    ensures Format(h, d + i, args, b + a) == Format(g, i, args[b..], a)
    decreases |g| - i
  {
    hide ScanFlags, Convert, Result.After;
    if g[i] == NUL {
    } else if g[i] != PERCENT {
      SecondPart(h, d, g, i + 1, args, b, a);
    } else {
      ShiftedFlags(h, d, g, i + 1, args, b, a, DEFAULT);
      var scan := ScanFlags(g, i + 1, args[b..], a, DEFAULT);
      if scan.Scan? {
        ShiftedConversion(g[scan.conv], scan.spec, args, b, scan.a);
        NulIsNoConversion(scan.spec, args[b..], scan.a);
        match Convert(g[scan.conv], scan.spec, args[b..], scan.a)
        case Undefined =>
        case Written(out, a'') => SecondPart(h, d, g, scan.conv + 1, args, b, a'');
        case Unrecognised => SecondPart(h, d, g, i + 1, args, b, scan.a);
      }
    }
  }

  // ----- Both -----

  lemma {:induction false} FlagsUseArguments(fmt: CString, i: nat, args: seq<Arg>, a: nat, sp: Spec)
    requires i < |fmt| && a <= |args|
    ensures var r := ScanFlags(fmt, i, args, a, sp); r.Scan? ==> a <= r.a <= |args|
    decreases |fmt| - i
  {
    hide NextFlag;
    if IsFlag(fmt[i]) {
      var r := NextFlag(fmt, i, args, a, sp);
      if r.Scan? {
        FlagsUseArguments(fmt, r.conv, args, r.a, r.spec);
      }
    }
  }

  lemma {:induction false} UsesArguments(fmt: CString, i: nat, args: seq<Arg>, a: nat)
    requires i < |fmt| && a <= |args| && Used(fmt, i, args, a).Some?
    ensures a <= Used(fmt, i, args, a).value <= |args|
    decreases |fmt| - i
  {
    hide ScanFlags;
    if fmt[i] == NUL {
    } else if fmt[i] != PERCENT {
      UsesArguments(fmt, i + 1, args, a);
    } else {
      FlagsUseArguments(fmt, i + 1, args, a, DEFAULT);
      var scan := ScanFlags(fmt, i + 1, args, a, DEFAULT);
      match Convert(fmt[scan.conv], scan.spec, args, scan.a)
      case Written(_, a'') => UsesArguments(fmt, scan.conv + 1, args, a'');
      case Unrecognised => UsesArguments(fmt, i + 1, args, scan.a);
    }
  }

  /** Two formats in a row write one output after the other, and the arguments are split between
      them where the first format stops using them. */
  lemma FormatsCompose(f: CString, g: CString, args: seq<Arg>)
    requires Used(f, 0, args, 0).Some?
    ensures var k := Used(f, 0, args, 0).value;
      && k <= |args| && Format(f, 0, args, 0).Done?
      && Format(Text(f) + g, 0, args, 0) == Format(g, 0, args[k..], 0).After(Format(f, 0, args, 0).out)
  {
    hide Format, Used;
    var h: CString, k := Text(f) + g, Used(f, 0, args, 0).value;
    UsesArguments(f, 0, args, 0);
    FirstPart(f, h, 0, args, 0);
    SecondPart(h, |f| - 1, g, 0, args, k, 0);
  }

  // ----- Formats that do not compose -----

  /** An incomplete escape, which `f` writes out character by character, is completed by a '%' to
      the escape for one percent sign. */
  lemma IncompleteHere(f: CString, h: CString, i: nat, args: seq<Arg>, a: nat)
    requires Extends(f, h) && |h| == |f| + 1 && h[|f| - 1] == PERCENT && i < |f| && f[i] == PERCENT
    requires var scan := ScanFlags(f, i + 1, args, a, DEFAULT); scan.Scan? && f[scan.conv] == NUL
    ensures |Format(h, i, args, a).out| == 1 <= |Format(f, i, args, a).out|
  {
    hide ScanFlags, Convert, Format;
    var scan := ScanFlags(f, i + 1, args, a, DEFAULT);
    SameFlags(f, h, i + 1, args, a, DEFAULT);
    EscapedPercent(h, i, args, a);
    NulIsNoConversion(scan.spec, args, scan.a);
    PercentFirst(f, i, args, a);
  }

  /** An escape that ends with '%', at the end of a format, writes a percent sign. */
  lemma EscapedPercent(fmt: CString, i: nat, args: seq<Arg>, a: nat)
    requires |fmt| >= 2 && i < |fmt| && fmt[i] == PERCENT
    requires var scan := ScanFlags(fmt, i + 1, args, a, DEFAULT);
      scan.Scan? && scan.conv == |fmt| - 2 && fmt[scan.conv] == PERCENT
    ensures Format(fmt, i, args, a) == Done([PERCENT])
  {
    hide ScanFlags;
    var scan := ScanFlags(fmt, i + 1, args, a, DEFAULT);
    assert Format(fmt, |fmt| - 1, args, scan.a) == Done([]);
  }

  lemma PercentFirst(fmt: CString, i: nat, args: seq<Arg>, a: nat)
    requires i < |fmt| && fmt[i] == PERCENT
    requires var scan := ScanFlags(fmt, i + 1, args, a, DEFAULT);
      scan.Scan? && Convert(fmt[scan.conv], scan.spec, args, scan.a).Unrecognised?
    ensures |Format(fmt, i, args, a).out| >= 1
  {
    hide ScanFlags, Convert;
  }

  lemma {:induction false} Shrinks(f: CString, h: CString, i: nat, args: seq<Arg>, a: nat)
    requires Extends(f, h) && |h| == |f| + 1 && h[|f| - 1] == PERCENT && i < |f|
    requires Used(f, i, args, a).None? && Format(f, i, args, a).Done?
    ensures |Format(h, i, args, a).out| <= |Format(f, i, args, a).out|
    decreases |f| - i, 1
  {
    hide ScanFlags, Convert;
    if f[i] != PERCENT {
      Shrinks(f, h, i + 1, args, a);
    } else {
      var scan := ScanFlags(f, i + 1, args, a, DEFAULT);
      if f[scan.conv] == NUL {
        IncompleteHere(f, h, i, args, a);
      } else {
        ShrinksBehind(f, h, i, args, a);
      }
    }
  }

  lemma {:induction false} ShrinksBehind(f: CString, h: CString, i: nat, args: seq<Arg>, a: nat)
    requires Extends(f, h) && |h| == |f| + 1 && h[|f| - 1] == PERCENT && i < |f| && f[i] == PERCENT
    requires Used(f, i, args, a).None? && Format(f, i, args, a).Done?
    requires f[ScanFlags(f, i + 1, args, a, DEFAULT).conv] != NUL
    ensures |Format(h, i, args, a).out| <= |Format(f, i, args, a).out|
    decreases |f| - i, 0
  {
    hide ScanFlags, Convert;
    SameFlags(f, h, i + 1, args, a, DEFAULT);
    var scan := ScanFlags(f, i + 1, args, a, DEFAULT);
    match Convert(f[scan.conv], scan.spec, args, scan.a)
    case Written(_, a'') => Shrinks(f, h, scan.conv + 1, args, a'');
    case Unrecognised => Shrinks(f, h, i + 1, args, scan.a);
  }

  /** Whatever is put behind `f`, the outputs follow each other, and the second format starts with
      argument `k`. */
  ghost predicate ComposesAt(f: CString, args: seq<Arg>, k: nat)
    requires k <= |args|
  {
    forall g: CString :: Format(Text(f) + g, 0, args, 0)
                      == Format(g, 0, args[k..], 0).After(Format(f, 0, args, 0).out)
  }

  /** A format whose own behaviour is defined composes with every other one, for some split of the
      arguments, if and only if its last escape is complete. */
  lemma FormatsComposeIff(f: CString, args: seq<Arg>)
    requires Format(f, 0, args, 0).Done?
    ensures Used(f, 0, args, 0).Some? <==> exists k: nat :: k <= |args| && ComposesAt(f, args, k)
  {
    hide Format, Used;
    if Used(f, 0, args, 0).Some? {
      var k := Used(f, 0, args, 0).value;
      UsesArguments(f, 0, args, 0);
      forall g: CString
        ensures Format(Text(f) + g, 0, args, 0) == Format(g, 0, args[k..], 0).After(Format(f, 0, args, 0).out)
      {
        FormatsCompose(f, g, args);
      }
      assert ComposesAt(f, args, k);
    } else {
      forall k: nat | k <= |args| ensures !ComposesAt(f, args, k) {
        PercentBreaks(f, args, k);
      }
    }
  }

  lemma PercentBreaks(f: CString, args: seq<Arg>, k: nat)
    requires k <= |args| && Format(f, 0, args, 0).Done? && Used(f, 0, args, 0).None?
    ensures !ComposesAt(f, args, k)
  {
    hide Format, Used;
    var g: CString := [PERCENT, NUL];
    LonePercent(args[k..]);
    Shrinks(f, Text(f) + g, 0, args, 0);
  }

  lemma LonePercent(args: seq<Arg>)
    ensures Format([PERCENT, NUL], 0, args, 0) == Done([PERCENT])
  {
    var f: CString := [PERCENT, NUL];
    assert ScanFlags(f, 1, args, 0, DEFAULT) == Scan(DEFAULT, 1, 0);
    assert Format(f, 1, args, 0) == Done([]);
  }

  // ----- Formats without defined behaviour -----

  lemma {:induction false} LongerNumber(f: CString, h: CString, i: nat)
    requires Extends(f, h) && i < |f|
    ensures NumberEnd(f, i) <= NumberEnd(h, i)
    decreases |f| - i
  {
    if IsDigit(f[i]) {
      LongerNumber(f, h, i + 1);
    }
  }

  /** A number that overflows still does with more digits. */
  lemma BrokenNumber(f: CString, h: CString, i: nat)
    requires Extends(f, h) && i < |f|
    ensures Eval(f[i..NumberEnd(f, i)], 10) <= Eval(h[i..NumberEnd(h, i)], 10)
  {
    hide Eval;
    LongerNumber(f, h, i);
    var n, t := NumberEnd(f, i) - i, h[i..NumberEnd(h, i)];
    assert f[i..NumberEnd(f, i)] == t[..n];
    PartialValues(t, 10, n);
  }

  lemma BrokenFlag(f: CString, h: CString, i: nat, args: seq<Arg>, a: nat, sp: Spec)
    requires Extends(f, h) && i < |f| && IsFlag(f[i]) && NextFlag(f, i, args, a, sp).Broken?
    ensures IsFlag(h[i]) && NextFlag(h, i, args, a, sp).Broken?
  {
    hide Eval, ScanFlags;
    BrokenNumber(f, h, i);
  }

  lemma {:induction false} BrokenFlags(f: CString, h: CString, i: nat, args: seq<Arg>, a: nat, sp: Spec)
    requires Extends(f, h) && i < |f| && ScanFlags(f, i, args, a, sp).Broken?
    ensures ScanFlags(h, i, args, a, sp).Broken?
    decreases |f| - i
  {
    hide NextFlag;
    var r := NextFlag(f, i, args, a, sp);
    if r.Broken? {
      BrokenFlag(f, h, i, args, a, sp);
    } else {
      SameFlag(f, h, i, args, a, sp);
      BrokenFlags(f, h, r.conv, args, r.a, r.spec);
    }
  }

  /** Where the behaviour of the first format ends, that of both ends. */
  lemma {:induction false} StuckStaysStuck(f: CString, h: CString, i: nat, args: seq<Arg>, a: nat)
    requires Extends(f, h) && i < |f| && Format(f, i, args, a).Stuck?
    ensures Format(h, i, args, a) == Format(f, i, args, a)
    decreases |f| - i, 1
  {
    hide ScanFlags, Convert;
    if f[i] != PERCENT {
      StuckStaysStuck(f, h, i + 1, args, a);
    } else {
      var scan := ScanFlags(f, i + 1, args, a, DEFAULT);
      if scan.Broken? {
        BrokenFlags(f, h, i + 1, args, a, DEFAULT);
      } else if f[scan.conv] == NUL {
        IncompleteIsDone(f, i, args, a);
      } else {
        StuckBehind(f, h, i, args, a);
      }
    }
  }

  lemma {:induction false} StuckBehind(f: CString, h: CString, i: nat, args: seq<Arg>, a: nat)
    requires Extends(f, h) && i < |f| && f[i] == PERCENT && Format(f, i, args, a).Stuck?
    requires var scan := ScanFlags(f, i + 1, args, a, DEFAULT); scan.Scan? && f[scan.conv] != NUL
    ensures Format(h, i, args, a) == Format(f, i, args, a)
    decreases |f| - i, 0
  {
    hide ScanFlags, Convert;
    SameFlags(f, h, i + 1, args, a, DEFAULT);
    var scan := ScanFlags(f, i + 1, args, a, DEFAULT);
    match Convert(f[scan.conv], scan.spec, args, scan.a)
    case Undefined =>
    case Written(_, a'') => StuckStaysStuck(f, h, scan.conv + 1, args, a'');
    case Unrecognised => StuckStaysStuck(f, h, i + 1, args, scan.a);
  }

  lemma IncompleteIsDone(f: CString, i: nat, args: seq<Arg>, a: nat)
    requires i < |f| && f[i] == PERCENT
    requires var scan := ScanFlags(f, i + 1, args, a, DEFAULT); scan.Scan? && f[scan.conv] == NUL
    ensures Format(f, i, args, a).Done?
  {
    hide ScanFlags;
    var scan := ScanFlags(f, i + 1, args, a, DEFAULT);
    NulIsNoConversion(scan.spec, args, scan.a);
    PlainRun(f, i + 1, scan.conv, args, scan.a);
  }

  /** Without a complete last escape they do not: "%" writes a percent sign and "c" a letter, but
      "%c" writes the argument. */
  lemma IncompleteEscape(w: u32)
    ensures Used([PERCENT, NUL], 0, [W32(w)], 0) == None
    ensures Format([PERCENT, NUL], 0, [W32(w)], 0) == Done([PERCENT])
    ensures Format(Text([PERCENT, NUL]) + [LETTER_C, NUL], 0, [W32(w)], 0) == Done([Signed32(w)])
  {
    LonePercent([W32(w)]);
    assert ScanFlags([PERCENT, NUL], 1, [W32(w)], 0, DEFAULT) == Scan(DEFAULT, 1, 0);
    assert Text([PERCENT, NUL]) + [LETTER_C, NUL] == [PERCENT, LETTER_C, NUL];
    OneDirective(LETTER_C, [W32(w)]);
  }
}
