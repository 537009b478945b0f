/** `debuginfo_eip`: three nested stab searches (source file, function, line). */
module Kdebug {
  import opened Machine
  import opened Strings
  import opened StabSearch

  const N_FUN: u8 := 0x24
  const N_SLINE: u8 := 0x44
  const N_SO: u8 := 0x64
  const N_SOL: u8 := 0x84
  const N_PSYM: u8 := 0xa0
  const ULIM: u32 := 0xef80_0000
  const COLON: u8 := 58

  /** A name: the literal "<unknown>", or an offset into the string table. */
  datatype Name = Unknown | At(off: nat)

  /** `Faulted`: the code would read `stabs[-1]`, before the table. */
  datatype Outcome = Panicked | Faulted | Returned(rc: int)

  datatype Info = Info(file: Name, line: int, fnName: Name, fnNamelen: int, fnAddr: u32, fnNarg: int)

  class Eipdebuginfo {
    var eip_file: Name
    var eip_line: int
    var eip_fn_name: Name
    var eip_fn_namelen: int
    var eip_fn_addr: u32
    var eip_fn_narg: int

    constructor ()
    {
      eip_file, eip_line, eip_fn_name, eip_fn_namelen, eip_fn_addr, eip_fn_narg := Unknown, 0, Unknown, 0, 0, 0;
    }

    function View(): Info
      reads this
    {
      Info(eip_file, eip_line, eip_fn_name, eip_fn_namelen, eip_fn_addr, eip_fn_narg)
    }
  }

  // ----- Reference definitions, by linear scans only -----

  function InitialInfo(addr: u32): Info {
    Info(Unknown, 0, Unknown, 9, addr, 0)
  }

  function NameAt(stabstr: seq<u8>, strx: u32): Name {
    if strx < |stabstr| then At(strx) else Unknown
  }

  /** The length of a name up to a colon; "<unknown>" has nine characters and no colon. */
  function NameLength(stabstr: seq<u8>, name: Name): int
    requires 0 < |stabstr| && stabstr[|stabstr| - 1] == NUL
    requires name.At? ==> name.off < |stabstr|
  {
    match name
    case Unknown => 9
    case At(off) => FindChar(stabstr, off, COLON) - off
  }

  predicate NamesFile(stab: Stab) {
    stab.n_type == N_SOL || (stab.n_type == N_SO && stab.n_value != 0)
  }

  /** The last stab in [lo, hi] that names a source file, or `lo - 1`. */
  function LastFileStab(stabs: seq<Stab>, lo: nat, hi: int): (k: int)
    requires lo - 1 <= hi < |stabs|
    ensures lo - 1 <= k <= hi
    ensures k >= lo ==> NamesFile(stabs[k])
    ensures forall j :: k < j <= hi ==> !NamesFile(stabs[j])
    decreases hi - lo
  {
    if hi < lo then lo - 1 else if NamesFile(stabs[hi]) then hi else LastFileStab(stabs, lo, hi - 1)
  }

  /** The number of parameter stabs in a row from `k` on, before `end`. */
  function ParameterRun(stabs: seq<Stab>, k: int, end: int): (n: nat)
    requires 0 <= k && end <= |stabs|
    ensures n > 0 ==> k + n <= end
    ensures forall j :: k <= j < k + n ==> IsStab(stabs, N_PSYM, j)
    ensures k + n < end ==> !IsStab(stabs, N_PSYM, k + n)
    decreases end - k
  {
    if k < end && stabs[k].n_type == N_PSYM then 1 + ParameterRun(stabs, k + 1, end) else 0
  }

  /** Where the search for the line starts: at the nearest function; failing that, at the start
      of the file, up to the first function of the file if there is one. */
  datatype Anchor = Anchor(stab: int, end: int, isFunction: bool, base: u32)

  function FindAnchor(stabs: seq<Stab>, file: int, fileEnd: int, addr: u32): (a: Anchor)
    requires 0 <= file <= fileEnd < |stabs|
    ensures file <= a.stab < |stabs| && a.end <= fileEnd && InTable(stabs, a.stab, a.end)
    ensures if a.isFunction then a.base == stabs[a.stab].n_value else a.base == addr && a.stab == file
    ensures stabs[file].n_type != N_FUN ==>
      && (a.isFunction <==> LastOfType(stabs, N_FUN, file, fileEnd) >= file)
      && (a.stab > file <==> LastAtOrBelow(stabs, N_FUN, file, fileEnd, addr) >= file)
      && (a.stab > file ==> stabs[a.stab].n_type == N_FUN && a.base <= addr)
  {
    var fn := LastAtOrBelow(stabs, N_FUN, file, fileEnd, addr);
    var end := FirstAbove(stabs, N_FUN, file, fileEnd, addr) - 1;
    if fn >= file then Anchor(fn, end, true, stabs[fn].n_value)
    else if file <= end < fileEnd then Anchor(file, end, true, stabs[file].n_value)
    else Anchor(file, file - 1, false, addr)
  }

  function Expected(stabs: seq<Stab>, stabstr: seq<u8>, addr: u32): (Outcome, Info)
    requires 0 < |stabstr| && stabstr[|stabstr| - 1] == NUL
  {
    var file := LastAtOrBelow(stabs, N_SO, 0, |stabs| - 1, addr);
    if 0 < |stabs| && stabs[0].n_type == N_SO && stabs[0].n_value > addr then (Faulted, InitialInfo(addr))
    else if file <= 0 then (Returned(-1), InitialInfo(addr))
    else (Returned(0), ExpectedInfo(stabs, stabstr, addr, file,
                                    Max(file, FirstAbove(stabs, N_SO, 0, |stabs| - 1, addr) - 1)))
  }

  function ExpectedInfo(stabs: seq<Stab>, stabstr: seq<u8>, addr: u32, file: int, fileEnd: int): Info
    requires 0 < |stabstr| && stabstr[|stabstr| - 1] == NUL
    requires 0 <= file <= fileEnd < |stabs|
  {
    var a := FindAnchor(stabs, file, fileEnd, addr);
    var offset := (addr - (if a.isFunction then a.base else 0)) % TWO_32;
    var line := LastAtOrBelow(stabs, N_SLINE, a.stab, a.end, offset);
    var lineStab := if line >= a.stab then line else a.stab;
    var lineEnd := if LastOfType(stabs, N_SLINE, a.stab, a.end) < a.stab then a.stab - 1
                   else FirstAbove(stabs, N_SLINE, a.stab, a.end, offset) - 1;
    var fnName := if a.isFunction then NameAt(stabstr, stabs[a.stab].n_strx) else Unknown;
    var fileStab := LastFileStab(stabs, file, a.stab);
    Info(if fileStab >= file then NameAt(stabstr, stabs[fileStab].n_strx) else Unknown,
         stabs[lineStab].n_desc,
         fnName,
         NameLength(stabstr, fnName),
         a.base,
         ParameterRun(stabs, lineStab + 1, lineEnd))
  }

  /** A search that the binary search gets right: sorted, and no overshoot. */
  ghost predicate Clean(stabs: seq<Stab>, type_: u8, lo: int, hi: int, addr: u32)
    requires InTable(stabs, lo, hi)
  {
    Sorted(stabs, type_, lo, hi) && !Overshoots(stabs, type_, lo, hi, addr)
  }

  /** All the searches that a lookup of `addr` makes are clean. */
  ghost predicate CleanLookup(stabs: seq<Stab>, addr: u32) {
    && Clean(stabs, N_SO, 0, |stabs| - 1, addr)
    && var file := LastAtOrBelow(stabs, N_SO, 0, |stabs| - 1, addr);
       file > 0 ==> CleanInFile(stabs, addr, file, Max(file, FirstAbove(stabs, N_SO, 0, |stabs| - 1, addr) - 1))
  }

  ghost predicate CleanInFile(stabs: seq<Stab>, addr: u32, file: int, fileEnd: int)
    requires 0 <= file <= fileEnd < |stabs|
  {
    && Clean(stabs, N_FUN, file, fileEnd, addr)
    && var a := FindAnchor(stabs, file, fileEnd, addr);
       Clean(stabs, N_SLINE, a.stab, a.end, (addr - (if a.isFunction then a.base else 0)) % TWO_32)
  }

  // ----- What the code computes, by binary searches, on any table -----

  function Computed(stabs: seq<Stab>, stabstr: seq<u8>, addr: u32): (Outcome, Info)
    requires 0 < |stabstr| && stabstr[|stabstr| - 1] == NUL
  {
    var (lfile, rfile) := Search(stabs, N_SO, 0, |stabs| - 1, addr);
    if lfile == 0 then (Returned(-1), InitialInfo(addr))
    else if lfile < 0 then (Faulted, InitialInfo(addr))
    else ComputedInfo(stabs, stabstr, addr, lfile, rfile)
  }

  /** The name, start and name length, for the result of a function search. */
  function FunctionInfo(stabs: seq<Stab>, stabstr: seq<u8>, addr: u32, lfun: int, rfun: int): Info
    requires 0 < |stabstr| && stabstr[|stabstr| - 1] == NUL
    requires lfun <= rfun ==> 0 <= lfun < |stabs|
  {
    var name := if lfun <= rfun then NameAt(stabstr, stabs[lfun].n_strx) else Unknown;
    InitialInfo(addr).(fnName := name, fnNamelen := NameLength(stabstr, name),
                       fnAddr := if lfun <= rfun then stabs[lfun].n_value else addr)
  }

  function ComputedInfo(stabs: seq<Stab>, stabstr: seq<u8>, addr: u32, lfile: int, rfile: int): (Outcome, Info)
    requires 0 < |stabstr| && stabstr[|stabstr| - 1] == NUL
    requires 0 < lfile < |stabs| && rfile < |stabs|
  {
    var (lfun, rfun) := Search(stabs, N_FUN, lfile, rfile, addr);
    var info := FunctionInfo(stabs, stabstr, addr, lfun, rfun);
    var offset := if lfun <= rfun then (addr - stabs[lfun].n_value) % TWO_32 else addr;
    var (lline, rline) := Search(stabs, N_SLINE, lfun, rfun, offset);
    if lline < 0 then (Faulted, info)
    else
      var fileStab := LastFileStab(stabs, lfile, if lfun <= rfun then lfun else lfile);
      (Returned(0),
       info.(file := if fileStab >= lfile then NameAt(stabstr, stabs[fileStab].n_strx) else Unknown,
             line := stabs[lline].n_desc,
             fnNarg := ParameterRun(stabs, lline + 1, rline)))
  }

  // ----- The code -----

  method DebuginfoEip(stabs: seq<Stab>, stabstr: seq<u8>, address: u32, info: Eipdebuginfo) returns (outcome: Outcome)
    modifies info
    ensures address < 0xef80_0000 ==> outcome == Panicked && info.View() == Info(Unknown, 0, Unknown, 9, address, 0)
    ensures address >= 0xef80_0000 && (|stabstr| == 0 || stabstr[|stabstr| - 1] != NUL) ==>
      outcome == Returned(-1) && info.View() == Info(Unknown, 0, Unknown, 9, address, 0)
    ensures address >= 0xef80_0000 && 0 < |stabstr| && stabstr[|stabstr| - 1] == NUL ==>
      && (outcome, info.View()) == Computed(stabs, stabstr, address)
      && (CleanLookup(stabs, address) ==> (outcome, info.View()) == Expected(stabs, stabstr, address))
  {
    hide Search, CleanLookup, Expected;
    var addr: u32 := address;
    info.eip_file := Unknown;
    info.eip_line := 0;
    info.eip_fn_name := Unknown;
    info.eip_fn_namelen := 9;
    info.eip_fn_addr := addr;
    info.eip_fn_narg := 0;
    if addr < ULIM {
      return Panicked;
    }
    if |stabstr| == 0 || stabstr[|stabstr| - 1] != NUL {
      return Returned(-1);
    }
    if CleanLookup(stabs, addr) {
      CleanIsExpected(stabs, stabstr, addr);
    }
    var lfile, rfile, steps := StabBinsearch(stabs, 0, |stabs| - 1, N_SO, addr);
    if lfile == 0 {
      return Returned(-1);
    }
    if lfile < 0 {
      return Faulted;  // the next search would start at stabs[-1]
    }
    outcome := FillInfo(stabs, stabstr, addr, info, lfile, rfile);
  }

  /** The part of the source function that runs once a source file has been found. */
  method FillInfo(stabs: seq<Stab>, stabstr: seq<u8>, address: u32, info: Eipdebuginfo, lfile: int, rfile: int)
    returns (outcome: Outcome)
    requires 0 < lfile < |stabs| && rfile < |stabs|
    requires 0 < |stabstr| && stabstr[|stabstr| - 1] == NUL
    requires info.View() == InitialInfo(address)
    modifies info
    ensures (outcome, info.View()) == ComputedInfo(stabs, stabstr, address, lfile, rfile)
  {
    hide Search, Bracket, Sorted, Overshoots, LastFileStab, ParameterRun, NameLength, Steps, Start;
    var lfun, rfun, steps := StabBinsearch(stabs, lfile, rfile, N_FUN, address);
    var addr, lline := FillFunction(stabs, stabstr, address, info, lfile, lfun, rfun);
    lfun, rfun, steps := StabBinsearch(stabs, lfun, rfun, N_SLINE, addr);
    if lfun < 0 {
      return Faulted;
    }
    FillLine(stabs, stabstr, info, lfile, lline, lfun, rfun);
    return Returned(0);
  }

  /** The line number, the file name and the parameter count. */
  method FillLine(stabs: seq<Stab>, stabstr: seq<u8>, info: Eipdebuginfo, lfile: nat, start: int, lfun: int, rfun: int)
    requires 0 <= lfun < |stabs| && rfun <= |stabs| && lfile - 1 <= start < |stabs|
    requires info.eip_file == Unknown
    modifies info
    ensures var fileStab := LastFileStab(stabs, lfile, start);
      info.View() == old(info.View()).(
        file := if fileStab >= lfile && stabs[fileStab].n_strx < |stabstr| then At(stabs[fileStab].n_strx) else Unknown,
        line := stabs[lfun].n_desc,
        fnNarg := ParameterRun(stabs, lfun + 1, rfun))
  {
    info.eip_line := stabs[lfun].n_desc;
    var lline := WalkToFile(stabs, lfile, start);
    if lline >= lfile && stabs[lline].n_strx < |stabstr| {
      info.eip_file := At(stabs[lline].n_strx);
    }
    info.eip_fn_narg := CountParameters(stabs, lfun, rfun);
  }

  /** The name, start and name length of the function, and what the line search needs: the
      address relative to the function, and the stab to start from. */
  method FillFunction(stabs: seq<Stab>, stabstr: seq<u8>, address: u32, info: Eipdebuginfo,
                      lfile: int, lfun: int, rfun: int)
    returns (addr: u32, lline: int)
    requires lfun <= rfun ==> 0 <= lfun < |stabs|
    requires 0 < |stabstr| && stabstr[|stabstr| - 1] == NUL
    requires info.View() == InitialInfo(address)
    modifies info
    ensures info.View() == FunctionInfo(stabs, stabstr, address, lfun, rfun)
    ensures info.eip_fn_name ==
      if lfun <= rfun && stabs[lfun].n_strx < |stabstr| then At(stabs[lfun].n_strx) else Unknown
    ensures info.eip_fn_addr == if lfun <= rfun then stabs[lfun].n_value else address
    ensures addr == if lfun <= rfun then (address - stabs[lfun].n_value) % TWO_32 else address
    ensures lline == if lfun <= rfun then lfun else lfile
  {
    addr := address;
    if lfun <= rfun {
      if stabs[lfun].n_strx < |stabstr| {
        info.eip_fn_name := At(stabs[lfun].n_strx);
      }
      info.eip_fn_addr := stabs[lfun].n_value;
      addr := (addr - info.eip_fn_addr) % TWO_32;
      lline := lfun;
    } else {
      info.eip_fn_addr := addr;
      lline := lfile;
    }
    match info.eip_fn_name {
      case Unknown => info.eip_fn_namelen := 9;
      case At(off) =>
        var k := Strfind(stabstr, off, COLON);
        info.eip_fn_namelen := k - off;
    }
  }

  method CountParameters(stabs: seq<Stab>, lfun: int, rfun: int) returns (narg: int)
    requires 0 <= lfun && rfun <= |stabs|
    ensures narg == ParameterRun(stabs, lfun + 1, rfun)
  {
    narg := 0;
    if lfun < rfun {
      var lline := lfun + 1;
      while lline < rfun && stabs[lline].n_type == N_PSYM
        invariant lfun < lline <= rfun
        invariant narg + ParameterRun(stabs, lline, rfun) == ParameterRun(stabs, lfun + 1, rfun)
      {
        narg := narg + 1;
        lline := lline + 1;
      }
    }
  }

  method WalkToFile(stabs: seq<Stab>, lfile: nat, start: int) returns (lline: int)
    requires lfile - 1 <= start < |stabs|
    ensures lline == LastFileStab(stabs, lfile, start)
    ensures lline >= lfile ==>
      stabs[lline].n_type == N_SOL || (stabs[lline].n_type == N_SO && stabs[lline].n_value != 0)
    ensures forall k :: lline < k <= start ==>
      stabs[k].n_type != N_SOL && (stabs[k].n_type != N_SO || stabs[k].n_value == 0)
  {
    lline := start;
    while lline >= lfile && stabs[lline].n_type != N_SOL
          && (stabs[lline].n_type != N_SO || stabs[lline].n_value == 0)
      invariant lfile - 1 <= lline <= start
      invariant LastFileStab(stabs, lfile, start) == LastFileStab(stabs, lfile, lline)
    {
      lline := lline - 1;
    }
  }

  /** A clean function search returns the anchor. */
  lemma FunctionSearch(stabs: seq<Stab>, addr: u32, file: int, fileEnd: int)
    requires 0 <= file <= fileEnd < |stabs| && CleanInFile(stabs, addr, file, fileEnd)
    requires stabs[file].n_type == N_SO
    ensures var (lfun, rfun) := Search(stabs, N_FUN, file, fileEnd, addr);
      var a := FindAnchor(stabs, file, fileEnd, addr);
      (lfun, rfun) == (a.stab, a.end) && (a.isFunction <==> lfun <= rfun)
  {
    hide Search, Overshoots;
    SearchIsLinearScan(stabs, N_FUN, file, fileEnd, addr);
    assert !IsStab(stabs, N_FUN, file);
    assert FirstAbove(stabs, N_FUN, file, fileEnd, addr) > file;
  }

  /** A clean line search returns the line stab, or stays at the anchor. */
  lemma LineSearch(stabs: seq<Stab>, addr: u32, file: int, fileEnd: int)
    requires 0 <= file <= fileEnd < |stabs| && CleanInFile(stabs, addr, file, fileEnd)
    requires stabs[file].n_type == N_SO
    ensures var a := FindAnchor(stabs, file, fileEnd, addr);
      var offset := (addr - (if a.isFunction then a.base else 0)) % TWO_32;
      var line := LastAtOrBelow(stabs, N_SLINE, a.stab, a.end, offset);
      Search(stabs, N_SLINE, a.stab, a.end, offset) ==
        (if line >= a.stab then line else a.stab,
         if LastOfType(stabs, N_SLINE, a.stab, a.end) < a.stab then a.stab - 1
         else FirstAbove(stabs, N_SLINE, a.stab, a.end, offset) - 1)
  {
    hide Search, Overshoots, FirstAbove, LastAtOrBelow, LastOfType, FindAnchor;
    var a := FindAnchor(stabs, file, fileEnd, addr);
    var offset := (addr - (if a.isFunction then a.base else 0)) % TWO_32;
    AnchorIsNoLine(stabs, addr, file, fileEnd);
    SearchIsLinearScan(stabs, N_SLINE, a.stab, a.end, offset);
  }

  lemma AnchorIsNoLine(stabs: seq<Stab>, addr: u32, file: int, fileEnd: int)
    requires 0 <= file <= fileEnd < |stabs| && stabs[file].n_type == N_SO
    ensures !IsStab(stabs, N_SLINE, FindAnchor(stabs, file, fileEnd, addr).stab)
  {
  }

  lemma FileSearch(stabs: seq<Stab>, addr: u32)
    requires Clean(stabs, N_SO, 0, |stabs| - 1, addr)
    ensures var (lfile, rfile) := Search(stabs, N_SO, 0, |stabs| - 1, addr);
      var file := LastAtOrBelow(stabs, N_SO, 0, |stabs| - 1, addr);
      && (lfile < 0 <==> 0 < |stabs| && stabs[0].n_type == N_SO && stabs[0].n_value > addr)
      && (lfile > 0 <==> file > 0)
      && (file > 0 ==> lfile == file <= rfile < |stabs|)
      && (file > 0 ==> rfile == Max(file, FirstAbove(stabs, N_SO, 0, |stabs| - 1, addr) - 1))
  {
    hide Search, Overshoots;
    SearchIsLinearScan(stabs, N_SO, 0, |stabs| - 1, addr);
    if 0 < |stabs| {
      var first := FirstAbove(stabs, N_SO, 0, |stabs| - 1, addr);
      var last := LastAtOrBelow(stabs, N_SO, 0, |stabs| - 1, addr);
      assert IsStab(stabs, N_SO, 0) <==> stabs[0].n_type == N_SO;
      if last >= 0 && first <= last {
        assert false;
      }
    }
  }

  // ----- Clean lookups -----

  /** When all its searches are clean, the code computes what the linear scans define. */
  lemma CleanIsExpected(stabs: seq<Stab>, stabstr: seq<u8>, addr: u32)
    requires 0 < |stabstr| && stabstr[|stabstr| - 1] == NUL && CleanLookup(stabs, addr)
    ensures Computed(stabs, stabstr, addr) == Expected(stabs, stabstr, addr)
  {
    hide Search, Overshoots, Sorted, LastAtOrBelow, FirstAbove, CleanInFile, ComputedInfo, ExpectedInfo;
    FileSearch(stabs, addr);
    var file := LastAtOrBelow(stabs, N_SO, 0, |stabs| - 1, addr);
    if file > 0 {
      CleanInfo(stabs, stabstr, addr, file, Max(file, FirstAbove(stabs, N_SO, 0, |stabs| - 1, addr) - 1));
    }
  }

  lemma CleanInfo(stabs: seq<Stab>, stabstr: seq<u8>, addr: u32, file: int, fileEnd: int)
    requires 0 < |stabstr| && stabstr[|stabstr| - 1] == NUL
    requires 0 < file <= fileEnd < |stabs| && stabs[file].n_type == N_SO && CleanInFile(stabs, addr, file, fileEnd)
    ensures ComputedInfo(stabs, stabstr, addr, file, fileEnd)
         == (Returned(0), ExpectedInfo(stabs, stabstr, addr, file, fileEnd))
  {
    hide Search, LastAtOrBelow, FirstAbove, LastOfType, LastFileStab, ParameterRun, FindAnchor, NameLength,
      NameAt, CleanInFile;
    FunctionSearch(stabs, addr, file, fileEnd);
    LineSearch(stabs, addr, file, fileEnd);
  }

  /** What a lookup needs of the table, in terms of its stabs only: in each range it searches the
      addresses are in order, and the address and its successor are not both there. */
  ghost predicate SortedLookup(stabs: seq<Stab>, addr: u32) {
    && addr < UINT32_MAX
    && Sorted(stabs, N_SO, 0, |stabs| - 1) && NeverBoth(stabs, N_SO, 0, |stabs| - 1, addr)
    && forall file, end :: FileAt(stabs, addr, file, end) ==>
      && Sorted(stabs, N_FUN, file, end) && NeverBoth(stabs, N_FUN, file, end, addr)
      && var a := FindAnchor(stabs, file, end, addr);
         var offset := addr - (if a.isFunction then a.base else 0);
         Sorted(stabs, N_SLINE, a.stab, a.end) && NeverBoth(stabs, N_SLINE, a.stab, a.end, offset % TWO_32)
  }

  lemma SortedLookupIsClean(stabs: seq<Stab>, addr: u32)
    requires SortedLookup(stabs, addr)
    ensures CleanLookup(stabs, addr)
  {
    hide Overshoots, LastAtOrBelow, FirstAbove, Sorted, NeverBoth, FindAnchor;
    NoOvershoot(stabs, N_SO, 0, |stabs| - 1, addr);
    var file := LastAtOrBelow(stabs, N_SO, 0, |stabs| - 1, addr);
    if file > 0 {
      var end := Max(file, FirstAbove(stabs, N_SO, 0, |stabs| - 1, addr) - 1);
      NearestFile(stabs, addr);
      SortedInFile(stabs, addr, file, end);
    }
  }

  /** The linear scans delimit the nearest file. */
  lemma NearestFile(stabs: seq<Stab>, addr: u32)
    requires Sorted(stabs, N_SO, 0, |stabs| - 1) && LastAtOrBelow(stabs, N_SO, 0, |stabs| - 1, addr) > 0
    ensures var file := LastAtOrBelow(stabs, N_SO, 0, |stabs| - 1, addr);
      FileAt(stabs, addr, file, Max(file, FirstAbove(stabs, N_SO, 0, |stabs| - 1, addr) - 1))
  {
    hide LastAtOrBelow, FirstAbove;
    var file, first := LastAtOrBelow(stabs, N_SO, 0, |stabs| - 1, addr), FirstAbove(stabs, N_SO, 0, |stabs| - 1, addr);
    if first <= file {
      assert false;
    }
  }

  lemma SortedInFile(stabs: seq<Stab>, addr: u32, file: int, end: int)
    requires FileAt(stabs, addr, file, end) && SortedLookup(stabs, addr)
    ensures CleanInFile(stabs, addr, file, end)
  {
    hide Overshoots, LastAtOrBelow, FirstAbove, Sorted, NeverBoth, FindAnchor;
    var a := FindAnchor(stabs, file, end, addr);
    NoOvershoot(stabs, N_FUN, file, end, addr);
    AnchorBelow(stabs, addr, file, end);
    NoOvershoot(stabs, N_SLINE, a.stab, a.end, (addr - (if a.isFunction then a.base else 0)) % TWO_32);
  }

  lemma AnchorBelow(stabs: seq<Stab>, addr: u32, file: int, end: int)
    requires FileAt(stabs, addr, file, end)
    ensures FindAnchor(stabs, file, end, addr).base <= addr
  {
  }

  // ----- What a lookup means -----

  /** For a table whose first stab is not an N_SO stab, as the linker writes it, the lookup fails
      exactly when no source file starts at or below the address. */
  lemma LookupFails(stabs: seq<Stab>, stabstr: seq<u8>, addr: u32)
    requires 0 < |stabstr| && stabstr[|stabstr| - 1] == NUL
    requires 0 < |stabs| && stabs[0].n_type != N_SO
    ensures var (outcome, info) := Expected(stabs, stabstr, addr);
      && (outcome == Returned(-1) <==> forall k :: IsStab(stabs, N_SO, k) ==> stabs[k].n_value > addr)
      && (outcome == Returned(-1) ==> info == Info(Unknown, 0, Unknown, 9, addr, 0))
      && (outcome == Returned(0) || outcome == Returned(-1))
  {
    var file := LastAtOrBelow(stabs, N_SO, 0, |stabs| - 1, addr);
    assert !IsStab(stabs, N_SO, 0);
    if file <= 0 {
      assert forall k :: IsStab(stabs, N_SO, k) ==> 0 < k <= |stabs| - 1;
    } else {
      assert IsStab(stabs, N_SO, file) && stabs[file].n_value <= addr;
    }
  }

  /** [file, end] are the stabs of the source file whose start is the nearest at or below `addr`. */
  ghost predicate FileAt(stabs: seq<Stab>, addr: u32, file: int, end: int) {
    && 0 < file <= end < |stabs| && IsStab(stabs, N_SO, file) && stabs[file].n_value <= addr
    && (forall k :: file < k < |stabs| && IsStab(stabs, N_SO, k) ==> stabs[k].n_value > addr)
    && (forall k :: file < k <= end ==> !IsStab(stabs, N_SO, k))
    && (end + 1 == |stabs| || IsStab(stabs, N_SO, end + 1))
  }

  /** [fn, fnEnd] are the stabs of the function of that file nearest at or below `addr`. */
  ghost predicate FunctionAt(stabs: seq<Stab>, addr: u32, file: int, end: int, fn: int, fnEnd: int) {
    && 0 <= file < fn <= fnEnd <= end < |stabs| && IsStab(stabs, N_FUN, fn) && stabs[fn].n_value <= addr
    && (forall k :: fn < k <= end && IsStab(stabs, N_FUN, k) ==> stabs[k].n_value > addr)
    && (forall k :: fn < k <= fnEnd ==> !IsStab(stabs, N_FUN, k))
    && (fnEnd == end || IsStab(stabs, N_FUN, fnEnd + 1))
  }

  /** `line` is the last line stab of the function at or below the offset of `addr` in it. */
  ghost predicate LineAt(stabs: seq<Stab>, offset: int, fn: int, fnEnd: int, line: int) {
    && 0 <= fn < line <= fnEnd < |stabs| && IsStab(stabs, N_SLINE, line) && stabs[line].n_value <= offset
    && (forall k :: line < k <= fnEnd && IsStab(stabs, N_SLINE, k) ==> stabs[k].n_value > offset)
  }

  /** If the address lies in a function of a file, the lookup reports that function's start and
      the line that the address belongs to. Without such a line it does not fail, as the comment of
      the source wants, but reports the field of the function stab. */
  lemma LookupFinds(stabs: seq<Stab>, stabstr: seq<u8>, addr: u32, file: int, end: int, fn: int, fnEnd: int)
    requires 0 < |stabstr| && stabstr[|stabstr| - 1] == NUL && CleanLookup(stabs, addr)
    requires FileAt(stabs, addr, file, end) && FunctionAt(stabs, addr, file, end, fn, fnEnd)
    ensures var (outcome, info) := Expected(stabs, stabstr, addr);
      && outcome == Returned(0) && info.fnAddr == stabs[fn].n_value
      && (forall line :: LineAt(stabs, addr - stabs[fn].n_value, fn, fnEnd, line) ==> info.line == stabs[line].n_desc)
      && ((forall k :: fn < k <= fnEnd && IsStab(stabs, N_SLINE, k) ==> stabs[k].n_value > addr - stabs[fn].n_value)
          ==> info.line == stabs[fn].n_desc)
  {
    hide Expected, Search, Overshoots, Sorted, LastAtOrBelow, FirstAbove, LastOfType, LastFileStab, ParameterRun,
      FindAnchor, NameLength, NameAt, CleanInFile;
    ExpectedInFile(stabs, stabstr, addr, file, end);
    CleanFile(stabs, addr, file, end);
    FunctionIsFound(stabs, addr, file, end, fn, fnEnd);
  }

  /** If the file has functions, but only above the address, the file's own stab is taken for a
      function; if it has none, the address itself is reported, with the line of the file's stab.
      With `LookupFinds` this covers every address that lies in a file. */
  lemma LookupWithoutFunction(stabs: seq<Stab>, stabstr: seq<u8>, addr: u32, file: int, end: int)
    requires 0 < |stabstr| && stabstr[|stabstr| - 1] == NUL && CleanLookup(stabs, addr)
    requires FileAt(stabs, addr, file, end)
    requires forall k :: file < k <= end && IsStab(stabs, N_FUN, k) ==> stabs[k].n_value > addr
    ensures var (outcome, info) := Expected(stabs, stabstr, addr);
      var own := if stabs[file].n_strx < |stabstr| then At(stabs[file].n_strx) else Unknown;
      && outcome == Returned(0) && info.file == (if stabs[file].n_value != 0 then own else Unknown)
      && if exists k :: file < k <= end && IsStab(stabs, N_FUN, k) then
           info.fnAddr == stabs[file].n_value && info.fnName == own
         else
           && info.fnAddr == addr && info.fnName == Unknown && info.fnNamelen == 9 && info.fnNarg == 0
           && info.line == stabs[file].n_desc
  {
    hide Expected, Search, Overshoots, Sorted, LastAtOrBelow, FirstAbove, LastOfType, LastFileStab, ParameterRun,
      FindAnchor, CleanInFile, FindChar;
    ExpectedInFile(stabs, stabstr, addr, file, end);
    FileIsAnchor(stabs, addr, file, end);
    assert LastFileStab(stabs, file, file) == if stabs[file].n_value != 0 then file else file - 1;
  }

  lemma FileIsAnchor(stabs: seq<Stab>, addr: u32, file: int, end: int)
    requires FileAt(stabs, addr, file, end)
    requires forall k :: file < k <= end && IsStab(stabs, N_FUN, k) ==> stabs[k].n_value > addr
    ensures var a := FindAnchor(stabs, file, end, addr);
      && a.stab == file && (a.isFunction <==> exists k :: file < k <= end && IsStab(stabs, N_FUN, k))
      && (!a.isFunction ==> a.end == file - 1)
  {
    hide LastAtOrBelow, FirstAbove, LastOfType;
    var last := LastOfType(stabs, N_FUN, file, end);
    if last >= file {
      assert IsStab(stabs, N_FUN, last) && file < last;
    }
  }

  const TEXT: u32 := 0xf010_0000

  /** A file at 0xf0100000 whose first function starts at 0xf0100040. */
  const EARLY: seq<Stab> := [Stab(0, 0, 0, 0, 0), Stab(0, N_SO, 0, 7, TEXT), Stab(0, N_FUN, 0, 0, TEXT + 0x40)]

  /** For the address 0xf0100010, in front of the function, a function at 0xf0100000 is reported. */
  lemma SpuriousFunctionExample()
    ensures var (outcome, info) := Computed(EARLY, [NUL], TEXT + 0x10);
      outcome == Returned(0) && info.fnAddr == TEXT && info.fnName == At(0)
  {
    var addr := TEXT + 0x10;
    assert IsStab(EARLY, N_SO, 1) && IsStab(EARLY, N_FUN, 2);
    assert FileAt(EARLY, addr, 1, 2);
    EarlyIsSorted(addr);
    hide Computed, Expected, CleanLookup;
    SortedLookupIsClean(EARLY, addr);
    CleanIsExpected(EARLY, [NUL], addr);
    LookupWithoutFunction(EARLY, [NUL], addr, 1, 2);
  }

  lemma EarlyIsSorted(addr: u32)
    requires addr < UINT32_MAX
    ensures SortedLookup(EARLY, addr)
  {
    assert forall t, k :: IsStab(EARLY, t, k) ==> 0 <= k < 3;
    hide SortedLookup;
    SingleStabsAreSorted(EARLY, addr);
  }

  /** In a table with one stab of each type that is searched there is nothing to sort. */
  lemma SingleStabsAreSorted(stabs: seq<Stab>, addr: u32)
    requires addr < UINT32_MAX
    requires forall t, i, j :: t in {N_SO, N_FUN, N_SLINE} && IsStab(stabs, t, i) && IsStab(stabs, t, j) ==> i == j
    ensures SortedLookup(stabs, addr)
  {
    hide FindAnchor, IsStab;
  }

  /** A table that starts with an N_SO stab above the address makes the code read before it. */
  lemma FaultExample()
    ensures Computed([Stab(0, N_SO, 0, 0, TEXT)], [NUL], ULIM).0 == Faulted
  {
    var stabs := [Stab(0, N_SO, 0, 0, TEXT)];
    NoOvershoot(stabs, N_SO, 0, 0, ULIM);
    SearchIsLinearScan(stabs, N_SO, 0, 0, ULIM);
    hide Search;
    assert IsStab(stabs, N_SO, 0);
    assert FirstAbove(stabs, N_SO, 0, 0, ULIM) == 0;
  }

  /** The number of parameter stabs right behind the function stab. */
  function Parameters(stabs: seq<Stab>, fn: int, fnEnd: int): (n: nat)
    requires 0 <= fn <= fnEnd < |stabs|
    ensures fn + n <= fnEnd
  {
    ParameterRun(stabs, fn + 1, fnEnd + 1)
  }

  /** The reported number of arguments for an address that has a line: what is counted are the
      parameter stabs behind the stab of that line, up to but without the stab in front of the next
      line. If no parameter follows the line, the report is right for functions without any. */
  lemma ParametersBehindLine(stabs: seq<Stab>, stabstr: seq<u8>, addr: u32, file: int, end: int, fn: int, fnEnd: int,
                             line: int)
    requires 0 < |stabstr| && stabstr[|stabstr| - 1] == NUL && CleanLookup(stabs, addr)
    requires FileAt(stabs, addr, file, end) && FunctionAt(stabs, addr, file, end, fn, fnEnd)
    requires LineAt(stabs, addr - stabs[fn].n_value, fn, fnEnd, line)
    ensures var narg := Expected(stabs, stabstr, addr).1.fnNarg;
      var next := FirstAbove(stabs, N_SLINE, fn, fnEnd, addr - stabs[fn].n_value);
      && line < next
      && narg == Max(0, Min(Parameters(stabs, line, fnEnd), next - line - 2))
      && (!IsStab(stabs, N_PSYM, line + 1) ==>
            (narg == Parameters(stabs, fn, fnEnd) <==> !IsStab(stabs, N_PSYM, fn + 1)))
  {
    hide Expected, CleanLookup, FileAt, Counted, Parameters, Sorted, FirstAbove;
    CountedParameters(stabs, stabstr, addr, file, end, fn, fnEnd);
    CountedBehindLine(stabs, fn, fnEnd, addr - stabs[fn].n_value, line);
    ParameterAt(stabs, line, fnEnd);
    ParameterAt(stabs, fn, fnEnd);
  }

  /** The reported number of arguments for an address in front of the first line of its function:
      the function's own parameters are counted, but not a stab directly in front of that line. The
      report is right exactly when there are none, or when another stab comes between the last of
      them and the line. */
  lemma ParametersBeforeLine(stabs: seq<Stab>, stabstr: seq<u8>, addr: u32, file: int, end: int, fn: int, fnEnd: int)
    requires 0 < |stabstr| && stabstr[|stabstr| - 1] == NUL && CleanLookup(stabs, addr)
    requires FileAt(stabs, addr, file, end) && FunctionAt(stabs, addr, file, end, fn, fnEnd)
    requires forall k :: fn < k <= fnEnd && IsStab(stabs, N_SLINE, k) ==> stabs[k].n_value > addr - stabs[fn].n_value
    ensures var narg := Expected(stabs, stabstr, addr).1.fnNarg;
      var first := FirstAbove(stabs, N_SLINE, fn, fnEnd, addr - stabs[fn].n_value);
      var k := Parameters(stabs, fn, fnEnd);
      && fn < first
      && narg == (if first <= fnEnd then Max(0, Min(k, first - fn - 2)) else 0)
      && (narg == k <==> k == 0 || (first <= fnEnd && fn + k + 1 < first))
  {
    hide Expected, CleanLookup, FileAt, Counted, Parameters, Sorted, FirstAbove;
    CountedParameters(stabs, stabstr, addr, file, end, fn, fnEnd);
    CountedBeforeLine(stabs, fn, fnEnd, addr - stabs[fn].n_value);
  }

  /** The count for an address in a function: from behind the stab that the line search reports, up
      to but without the stab in front of the next line. */
  function Counted(stabs: seq<Stab>, fn: int, fnEnd: int, offset: u32): nat
    requires 0 <= fn <= fnEnd < |stabs|
  {
    var next := FirstAbove(stabs, N_SLINE, fn, fnEnd, offset);
    ParameterRun(stabs, Max(LastAtOrBelow(stabs, N_SLINE, fn, fnEnd, offset), fn) + 1,
                 if LastOfType(stabs, N_SLINE, fn, fnEnd) < fn then fn - 1 else next - 1)
  }

  lemma CountedParameters(stabs: seq<Stab>, stabstr: seq<u8>, addr: u32, file: int, end: int, fn: int, fnEnd: int)
    requires 0 < |stabstr| && stabstr[|stabstr| - 1] == NUL && CleanLookup(stabs, addr)
    requires FileAt(stabs, addr, file, end) && FunctionAt(stabs, addr, file, end, fn, fnEnd)
    ensures Sorted(stabs, N_SLINE, fn, fnEnd)
    ensures Expected(stabs, stabstr, addr).1.fnNarg == Counted(stabs, fn, fnEnd, addr - stabs[fn].n_value)
  {
    hide Expected, Overshoots, Sorted, CleanInFile, FindAnchor, ExpectedInfo, Counted, FirstAbove, LastAtOrBelow;
    ExpectedInFile(stabs, stabstr, addr, file, end);
    CleanFile(stabs, addr, file, end);
    FunctionIsFound(stabs, addr, file, end, fn, fnEnd);
    LinesAreSorted(stabs, addr, file, end);
    CountedInFile(stabs, stabstr, addr, file, end, fn, fnEnd);
  }

  lemma CountedInFile(stabs: seq<Stab>, stabstr: seq<u8>, addr: u32, file: int, end: int, fn: int, fnEnd: int)
    requires 0 < |stabstr| && stabstr[|stabstr| - 1] == NUL && 0 <= file <= end < |stabs|
    requires 0 <= fn <= fnEnd < |stabs| && stabs[fn].n_value <= addr
    requires FindAnchor(stabs, file, end, addr) == Anchor(fn, fnEnd, true, stabs[fn].n_value)
    ensures ExpectedInfo(stabs, stabstr, addr, file, end).fnNarg == Counted(stabs, fn, fnEnd, addr - stabs[fn].n_value)
  {
    hide FindAnchor, FirstAbove, LastAtOrBelow, LastOfType, LastFileStab, NameAt, NameLength, ParameterRun;
  }

  lemma LinesAreSorted(stabs: seq<Stab>, addr: u32, file: int, end: int)
    requires 0 <= file <= end < |stabs| && CleanInFile(stabs, addr, file, end)
    ensures var a := FindAnchor(stabs, file, end, addr); Sorted(stabs, N_SLINE, a.stab, a.end)
  {
    hide FindAnchor, Sorted, Overshoots;
  }

  lemma CountedBehindLine(stabs: seq<Stab>, fn: int, fnEnd: int, offset: u32, line: int)
    requires LineAt(stabs, offset, fn, fnEnd, line) && Sorted(stabs, N_SLINE, fn, fnEnd)
    ensures var next := FirstAbove(stabs, N_SLINE, fn, fnEnd, offset);
      line < next
      && Counted(stabs, fn, fnEnd, offset) == Max(0, Min(Parameters(stabs, line, fnEnd), next - line - 2))
  {
    hide FirstAbove, LastAtOrBelow, LastOfType, ParameterRun;
    var next := FirstAbove(stabs, N_SLINE, fn, fnEnd, offset);
    assert LastAtOrBelow(stabs, N_SLINE, fn, fnEnd, offset) == line;
    ShorterRun(stabs, line + 1, next - 1, fnEnd + 1);
  }

  lemma CountedBeforeLine(stabs: seq<Stab>, fn: int, fnEnd: int, offset: u32)
    requires 0 <= fn <= fnEnd < |stabs| && !IsStab(stabs, N_SLINE, fn)
    requires forall k :: fn < k <= fnEnd && IsStab(stabs, N_SLINE, k) ==> stabs[k].n_value > offset
    ensures var first := FirstAbove(stabs, N_SLINE, fn, fnEnd, offset);
      fn < first
      && Counted(stabs, fn, fnEnd, offset)
         == if first <= fnEnd then Max(0, Min(Parameters(stabs, fn, fnEnd), first - fn - 2)) else 0
  {
    hide FirstAbove, LastAtOrBelow, LastOfType, ParameterRun;
    var first := FirstAbove(stabs, N_SLINE, fn, fnEnd, offset);
    ShorterRun(stabs, fn + 1, if first <= fnEnd then first - 1 else fn - 1, fnEnd + 1);
  }

  /** A run that is cut off earlier. */
  lemma {:induction false} ShorterRun(stabs: seq<Stab>, k: int, stop: int, end: int)
    requires 0 <= k && stop <= end && k <= end <= |stabs|
    ensures ParameterRun(stabs, k, stop) == Max(0, Min(ParameterRun(stabs, k, end), stop - k))
    decreases end - k
  {
    if k < stop && stabs[k].n_type == N_PSYM {
      ShorterRun(stabs, k + 1, stop, end);
    }
  }

  lemma ParameterAt(stabs: seq<Stab>, fn: int, fnEnd: int)
    requires 0 <= fn <= fnEnd < |stabs|
    ensures Parameters(stabs, fn, fnEnd) > 0 <==> fn < fnEnd && IsStab(stabs, N_PSYM, fn + 1)
  {
  }

  /** A file, a function at its start, one parameter, and a line at the start of the function. */
  const WITH_PARAMETER: seq<Stab> :=
    [Stab(0, 0, 0, 0, 0), Stab(0, 0x64, 0, 0, TEXT), Stab(0, 0x24, 0, 0, TEXT), Stab(0, 0xa0, 0, 0, 8),
     Stab(0, 0x44, 0, 21, 0)]

  /** Line 21 is found, but the parameter is not counted. */
  lemma ParameterIsMissed()
    ensures Parameters(WITH_PARAMETER, 2, 4) == 1
    ensures var (outcome, info) := Computed(WITH_PARAMETER, [NUL], TEXT + 2);
      outcome == Returned(0) && info.fnAddr == TEXT && info.line == 21 && info.fnNarg == 0
  {
    hide Computed, Expected, CleanLookup, FileAt, FunctionAt, LineAt, SortedLookup, FirstAbove, Parameters;
    var addr := TEXT + 2;
    WithParameterIsSorted(addr);
    WithParameterLayout(addr);
    SortedLookupIsClean(WITH_PARAMETER, addr);
    CleanIsExpected(WITH_PARAMETER, [NUL], addr);
    LookupFinds(WITH_PARAMETER, [NUL], addr, 1, 4, 2, 4);
    ParametersBehindLine(WITH_PARAMETER, [NUL], addr, 1, 4, 2, 4, 4);
  }

  lemma WithParameterLayout(addr: u32)
    requires addr == TEXT + 2
    ensures FileAt(WITH_PARAMETER, addr, 1, 4) && FunctionAt(WITH_PARAMETER, addr, 1, 4, 2, 4)
    ensures LineAt(WITH_PARAMETER, 2, 2, 4, 4) && Parameters(WITH_PARAMETER, 2, 4) == 1
  {
    assert ParameterRun(WITH_PARAMETER, 4, 5) == 0;
    assert forall t, k :: IsStab(WITH_PARAMETER, t, k) ==> 0 <= k < 5;
    assert IsStab(WITH_PARAMETER, N_SO, 1) && IsStab(WITH_PARAMETER, N_FUN, 2) && IsStab(WITH_PARAMETER, N_SLINE, 4);
  }

  lemma WithParameterIsSorted(addr: u32)
    requires addr < UINT32_MAX
    ensures SortedLookup(WITH_PARAMETER, addr)
  {
    assert forall t, k :: IsStab(WITH_PARAMETER, t, k) ==> 0 <= k < 5;
    hide SortedLookup;
    SingleStabsAreSorted(WITH_PARAMETER, addr);
  }

  /** The same with two parameters, right in front of the first line, at offset 8. */
  const BEFORE_LINE: seq<Stab> :=
    [Stab(0, 0, 0, 0, 0), Stab(0, 0x64, 0, 0, TEXT), Stab(0, 0x24, 0, 0, TEXT), Stab(0, 0xa0, 0, 0, 8),
     Stab(0, 0xa0, 0, 0, 12), Stab(0, 0x44, 0, 21, 8)]

  /** In front of that line, one of the two is reported. */
  lemma LastParameterIsMissed()
    ensures Parameters(BEFORE_LINE, 2, 5) == 2
    ensures var (outcome, info) := Computed(BEFORE_LINE, [NUL], TEXT + 2);
      outcome == Returned(0) && info.fnAddr == TEXT && info.fnNarg == 1
  {
    hide Computed, Expected, CleanLookup, FileAt, FunctionAt, SortedLookup, FirstAbove, Parameters;
    var addr := TEXT + 2;
    BeforeLineIsSorted(addr);
    BeforeLineLayout(addr);
    SortedLookupIsClean(BEFORE_LINE, addr);
    CleanIsExpected(BEFORE_LINE, [NUL], addr);
    LookupFinds(BEFORE_LINE, [NUL], addr, 1, 5, 2, 5);
    ParametersBeforeLine(BEFORE_LINE, [NUL], addr, 1, 5, 2, 5);
  }

  lemma BeforeLineIsSorted(addr: u32)
    requires addr < UINT32_MAX
    ensures SortedLookup(BEFORE_LINE, addr)
  {
    assert forall t, k :: IsStab(BEFORE_LINE, t, k) ==> 0 <= k < 6;
    hide SortedLookup;
    SingleStabsAreSorted(BEFORE_LINE, addr);
  }

  lemma BeforeLineLayout(addr: u32)
    requires addr == TEXT + 2
    ensures FileAt(BEFORE_LINE, addr, 1, 5) && FunctionAt(BEFORE_LINE, addr, 1, 5, 2, 5)
    ensures FirstAbove(BEFORE_LINE, N_SLINE, 2, 5, 2) == 5 && Parameters(BEFORE_LINE, 2, 5) == 2
    ensures forall k :: 2 < k <= 5 && IsStab(BEFORE_LINE, N_SLINE, k) ==> BEFORE_LINE[k].n_value > 2
  {
    hide FirstAbove;
    assert forall t, k :: IsStab(BEFORE_LINE, t, k) ==> 0 <= k < 6;
    assert IsStab(BEFORE_LINE, N_SO, 1) && IsStab(BEFORE_LINE, N_FUN, 2) && IsStab(BEFORE_LINE, N_SLINE, 5);
    assert ParameterRun(BEFORE_LINE, 5, 6) == 0;
  }

  /** The names it reports: the function's own, whose length goes up to a colon or the end of the
      string, and the file named last at or before the function stab, by an N_SOL stab, which stands
      for an included file, or by an N_SO stab with an address. A name outside the string table is
      "<unknown>", and so is the file if no stab names one. */
  lemma LookupNames(stabs: seq<Stab>, stabstr: seq<u8>, addr: u32, file: int, end: int, fn: int, fnEnd: int, named: int)
    requires 0 < |stabstr| && stabstr[|stabstr| - 1] == NUL && CleanLookup(stabs, addr)
    requires FileAt(stabs, addr, file, end) && FunctionAt(stabs, addr, file, end, fn, fnEnd)
    requires file - 1 <= named <= fn
    requires named >= file ==> IsStab(stabs, N_SOL, named) || (IsStab(stabs, N_SO, named) && stabs[named].n_value != 0)
    requires forall k :: named < k <= fn ==>
      !IsStab(stabs, N_SOL, k) && !(IsStab(stabs, N_SO, k) && stabs[k].n_value != 0)
    ensures var info := Expected(stabs, stabstr, addr).1;
      var name: int, stop := stabs[fn].n_strx, stabs[fn].n_strx + info.fnNamelen;
      && info.file == (if named >= file && stabs[named].n_strx < |stabstr| then At(stabs[named].n_strx) else Unknown)
      && if name >= |stabstr| then info.fnName == Unknown && info.fnNamelen == 9
         else
           && info.fnName == At(name) && name <= stop < |stabstr|
           && (stabstr[stop] == ':' as int || stabstr[stop] == 0)
           && forall j :: name <= j < stop ==> stabstr[j] != ':' as int && stabstr[j] != 0
  {
    hide Expected, Search, Overshoots, Sorted, LastAtOrBelow, FirstAbove, LastOfType, LastFileStab, ParameterRun,
      FindAnchor, FindChar, CleanInFile;
    ExpectedInFile(stabs, stabstr, addr, file, end);
    CleanFile(stabs, addr, file, end);
    FunctionIsFound(stabs, addr, file, end, fn, fnEnd);
    assert LastFileStab(stabs, file, fn) == named;
  }

  // "\0a.c\0f:F\0"
  const NAMES: seq<u8> := [0, 'a' as int, '.' as int, 'c' as int, 0, 'f' as int, ':' as int, 'F' as int, 0]

  /** A file "a.c" and its function "f:F", with the type numbers of the stabs format. */
  const NAMED: seq<Stab> := [Stab(0, 0, 0, 0, 0), Stab(1, 0x64, 0, 0, TEXT), Stab(5, 0x24, 0, 0, TEXT)]

  lemma NamesExample()
    ensures var (outcome, info) := Computed(NAMED, NAMES, 0xf010_0002);
      outcome == Returned(0) && info.file == At(1) && info.fnName == At(5) && info.fnNamelen == 1
  {
    hide Computed, Expected, CleanLookup, SortedLookup;
    var addr := 0xf010_0002;
    NamedLayout(addr);
    SortedLookupIsClean(NAMED, addr);
    CleanIsExpected(NAMED, NAMES, addr);
    LookupFinds(NAMED, NAMES, addr, 1, 2, 2, 2);
    LookupNames(NAMED, NAMES, addr, 1, 2, 2, 2, 1);
    var n := Expected(NAMED, NAMES, addr).1.fnNamelen;
    UpToColon(NAMES, 5, 5 + n, 6);
  }

  lemma UpToColon(s: seq<u8>, name: int, stop: int, colon: int)
    requires 0 <= name <= stop < |s| && name <= colon < |s| && s[colon] == 58 && (s[stop] == 58 || s[stop] == 0)
    requires forall j :: name <= j < stop ==> s[j] != 58 && s[j] != 0
    requires forall j :: name <= j < colon ==> s[j] != 58 && s[j] != 0
    ensures stop == colon
  {
  }

  lemma NamedLayout(addr: u32)
    requires TEXT <= addr < UINT32_MAX
    ensures SortedLookup(NAMED, addr) && FileAt(NAMED, addr, 1, 2) && FunctionAt(NAMED, addr, 1, 2, 2, 2)
  {
    assert forall t, k :: IsStab(NAMED, t, k) ==> 0 <= k < 3;
    assert IsStab(NAMED, N_SO, 1) && IsStab(NAMED, N_FUN, 2);
    hide SortedLookup;
    SingleStabsAreSorted(NAMED, addr);
  }

  // "\0a.c\0b.h\0f:F\0"
  const INCLUDED_NAMES: seq<u8> :=
    [0, 'a' as int, '.' as int, 'c' as int, 0, 'b' as int, '.' as int, 'h' as int, 0,
     'f' as int, ':' as int, 'F' as int, 0]

  /** The same function, in the file "b.h" that "a.c" includes. */
  const INCLUDED: seq<Stab> :=
    [Stab(0, 0, 0, 0, 0), Stab(1, 0x64, 0, 0, TEXT), Stab(5, 0x84, 0, 0, TEXT), Stab(9, 0x24, 0, 0, TEXT)]

  lemma IncludedExample()
    ensures var (outcome, info) := Computed(INCLUDED, INCLUDED_NAMES, 0xf010_0002);
      outcome == Returned(0) && info.file == At(5) && info.fnName == At(9) && info.fnNamelen == 1
  {
    hide Computed, Expected, CleanLookup, SortedLookup;
    var addr := 0xf010_0002;
    IncludedLayout(addr);
    SortedLookupIsClean(INCLUDED, addr);
    CleanIsExpected(INCLUDED, INCLUDED_NAMES, addr);
    LookupFinds(INCLUDED, INCLUDED_NAMES, addr, 1, 3, 3, 3);
    LookupNames(INCLUDED, INCLUDED_NAMES, addr, 1, 3, 3, 3, 2);
    var n := Expected(INCLUDED, INCLUDED_NAMES, addr).1.fnNamelen;
    UpToColon(INCLUDED_NAMES, 9, 9 + n, 10);
  }

  lemma IncludedLayout(addr: u32)
    requires TEXT <= addr < UINT32_MAX
    ensures SortedLookup(INCLUDED, addr) && FileAt(INCLUDED, addr, 1, 3) && FunctionAt(INCLUDED, addr, 1, 3, 3, 3)
    ensures IsStab(INCLUDED, N_SOL, 2)
  {
    assert forall t, k :: IsStab(INCLUDED, t, k) ==> 0 <= k < 4;
    assert IsStab(INCLUDED, N_SO, 1) && IsStab(INCLUDED, N_FUN, 3);
    hide SortedLookup;
    SingleStabsAreSorted(INCLUDED, addr);
  }

  /** In a file the lookup is the one within the file. */
  lemma ExpectedInFile(stabs: seq<Stab>, stabstr: seq<u8>, addr: u32, file: int, end: int)
    requires 0 < |stabstr| && stabstr[|stabstr| - 1] == NUL
    requires Sorted(stabs, N_SO, 0, |stabs| - 1) && FileAt(stabs, addr, file, end)
    ensures Expected(stabs, stabstr, addr) == (Returned(0), ExpectedInfo(stabs, stabstr, addr, file, end))
  {
    hide LastAtOrBelow, FirstAbove, ExpectedInfo;
    FileIsFound(stabs, addr, file, end);
    if stabs[0].n_type == N_SO {
      assert IsStab(stabs, N_SO, 0);
    }
  }

  lemma CleanFile(stabs: seq<Stab>, addr: u32, file: int, end: int)
    requires CleanLookup(stabs, addr) && FileAt(stabs, addr, file, end)
    ensures CleanInFile(stabs, addr, file, end)
  {
    hide LastAtOrBelow, FirstAbove, Sorted, Overshoots, CleanInFile;
    FileIsFound(stabs, addr, file, end);
  }

  lemma FileIsFound(stabs: seq<Stab>, addr: u32, file: int, end: int)
    requires Sorted(stabs, N_SO, 0, |stabs| - 1) && FileAt(stabs, addr, file, end)
    ensures LastAtOrBelow(stabs, N_SO, 0, |stabs| - 1, addr) == file
    ensures Max(file, FirstAbove(stabs, N_SO, 0, |stabs| - 1, addr) - 1) == end
  {
    hide LastAtOrBelow, FirstAbove;
    var first := FirstAbove(stabs, N_SO, 0, |stabs| - 1, addr);
    if first <= file {
      assert false;
    }
  }

  lemma FunctionIsFound(stabs: seq<Stab>, addr: u32, file: int, end: int, fn: int, fnEnd: int)
    requires 0 <= file <= end < |stabs| && CleanInFile(stabs, addr, file, end)
    requires FunctionAt(stabs, addr, file, end, fn, fnEnd)
    ensures FindAnchor(stabs, file, end, addr) == Anchor(fn, fnEnd, true, stabs[fn].n_value)
  {
    hide LastAtOrBelow, FirstAbove;
    var first := FirstAbove(stabs, N_FUN, file, end, addr);
    if first <= fn {
      assert false;
    }
  }
}
