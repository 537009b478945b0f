/** `stab_binsearch`: a binary search over the stabs of one type, which agrees with a linear
    scan except when the exact-match branch overshoots. */
module StabSearch {
  import opened Machine

  datatype Stab = Stab(n_strx: u32, n_type: u8, n_other: u8, n_desc: u16, n_value: u32)

  ghost predicate IsStab(stabs: seq<Stab>, type_: u8, k: int) {
    0 <= k < |stabs| && stabs[k].n_type == type_
  }

  /** The stabs of the type inside [lo, hi] are in nondecreasing address order. */
  ghost predicate Sorted(stabs: seq<Stab>, type_: u8, lo: int, hi: int) {
    forall i, j :: lo <= i <= j <= hi && IsStab(stabs, type_, i) && IsStab(stabs, type_, j)
      ==> stabs[i].n_value <= stabs[j].n_value
  }

  /** An index range of the table; any range with `lo > hi` is empty. */
  predicate InTable(stabs: seq<Stab>, lo: int, hi: int) {
    lo <= hi ==> 0 <= lo && hi < |stabs|
  }

  // ----- The linear scans that the binary search is measured against -----

  /** The last stab of the type in [lo, hi], or `lo - 1`. */
  function LastOfType(stabs: seq<Stab>, type_: u8, lo: int, hi: int): (m: int)
    requires InTable(stabs, lo, hi)
    ensures lo <= hi ==> lo - 1 <= m <= hi
    ensures lo > hi ==> m == lo - 1
    ensures m >= lo ==> IsStab(stabs, type_, m)
    ensures forall k :: Max(m, lo - 1) < k <= hi ==> !IsStab(stabs, type_, k)
    decreases hi - lo
  {
    if lo > hi then lo - 1
    else if stabs[hi].n_type == type_ then hi
    else LastOfType(stabs, type_, lo, hi - 1)
  }

  /** The last stab of the type in [lo, hi] whose address is at most `addr`, or `lo - 1`. */
  function LastAtOrBelow(stabs: seq<Stab>, type_: u8, lo: int, hi: int, addr: u32): (m: int)
    requires InTable(stabs, lo, hi)
    ensures lo <= hi ==> lo - 1 <= m <= hi
    ensures lo > hi ==> m == lo - 1
    ensures m >= lo ==> IsStab(stabs, type_, m) && stabs[m].n_value <= addr
    ensures forall k :: Max(m, lo - 1) < k <= hi && IsStab(stabs, type_, k) ==> stabs[k].n_value > addr
    decreases hi - lo
  {
    if lo > hi then lo - 1
    else if stabs[hi].n_type == type_ && stabs[hi].n_value <= addr then hi
    else LastAtOrBelow(stabs, type_, lo, hi - 1, addr)
  }

  /** The first stab of the type in [lo, hi] whose address is above `addr`, or `hi + 1`. */
  function FirstAbove(stabs: seq<Stab>, type_: u8, lo: int, hi: int, addr: u32): (m: int)
    requires InTable(stabs, lo, hi)
    ensures lo <= hi ==> lo <= m <= hi + 1
    ensures lo > hi ==> m == hi + 1
    ensures lo <= m <= hi ==> IsStab(stabs, type_, m) && stabs[m].n_value > addr
    ensures forall k :: lo <= k < m && k <= hi && IsStab(stabs, type_, k) ==> stabs[k].n_value <= addr
    decreases hi - lo
  {
    if lo > hi then hi + 1
    else if stabs[lo].n_type == type_ && stabs[lo].n_value > addr then lo
    else FirstAbove(stabs, type_, lo + 1, hi, addr)
  }

  /** What a linear scan of [lo, hi] reports for each of the three possible outcomes. */
  function Bracket(stabs: seq<Stab>, type_: u8, lo: int, hi: int, addr: u32): (int, int)
    requires InTable(stabs, lo, hi)
  {
    var last := LastAtOrBelow(stabs, type_, lo, hi, addr);
    var first := FirstAbove(stabs, type_, lo, hi, addr);
    if LastOfType(stabs, type_, lo, hi) < lo then (lo, lo - 1)
    else if last >= lo then (last, first - 1)
    else (Min(lo, first - 1), first - 1)
  }

  // ----- The loop of the source, one iteration at a time -----

  /** The variables of the loop: the bracket [l, r], which is also `*region_right`,
      `*region_left`, `any_matches`, and the address, which an exact match increments. */
  datatype State = State(l: int, r: int, left: int, anyMatches: bool, addr: u32) {
    function Size(): int { r - l + 1 }
  }

  predicate Ok(stabs: seq<Stab>, s: State) {
    0 <= s.l <= s.r + 1 <= |stabs| && 0 <= s.left
  }

  /** The stab that one iteration compares with, or `l - 1`. */
  function ProbeAt(stabs: seq<Stab>, type_: u8, s: State): (m: int)
    requires Ok(stabs, s) && s.l <= s.r
    ensures s.l - 1 <= m <= (s.l + s.r) / 2
    ensures m >= s.l ==> IsStab(stabs, type_, m)
    ensures forall k :: m < k <= (s.l + s.r) / 2 ==> !IsStab(stabs, type_, k)
  {
    LastOfType(stabs, type_, s.l, (s.l + s.r) / 2)
  }

  predicate IsHit(stabs: seq<Stab>, type_: u8, s: State)
    requires Ok(stabs, s) && s.l <= s.r
  {
    var m := ProbeAt(stabs, type_, s);
    m >= s.l && stabs[m].n_value == s.addr
  }

  /** One iteration. */
  function Next(stabs: seq<Stab>, type_: u8, s: State): (n: State)
    requires Ok(stabs, s) && s.l <= s.r
    ensures Ok(stabs, n)
  {
    var mid := (s.l + s.r) / 2;
    var m := ProbeAt(stabs, type_, s);
    if m < s.l then s.(l := mid + 1)
    else if stabs[m].n_value < s.addr then s.(l := mid + 1, left := m, anyMatches := true)
    else if stabs[m].n_value > s.addr then s.(r := m - 1, anyMatches := true)
    else s.(l := m, left := m, anyMatches := true, addr := (s.addr + 1) % TWO_32)
  }

  /** Termination: an exact match may leave the bracket alone, but then the next probe looks at
      the same stab with another address. */
  function Pending(stabs: seq<Stab>, type_: u8, s: State): nat
    requires Ok(stabs, s)
  {
    if s.l <= s.r && stabs[s.l].n_type == type_ && stabs[s.l].n_value == s.addr then 1 else 0
  }

  lemma NextDecreases(stabs: seq<Stab>, type_: u8, s: State)
    requires Ok(stabs, s) && s.l <= s.r
    ensures var n := Next(stabs, type_, s);
      n.Size() < s.Size() || (n.Size() == s.Size() && Pending(stabs, type_, n) < Pending(stabs, type_, s))
    ensures var n := Next(stabs, type_, s);
      if IsHit(stabs, type_, s) then n.Size() <= s.Size() else n.Size() <= s.Size() / 2
  {
  }

  lemma NextByCases(stabs: seq<Stab>, type_: u8, s: State, m: int)
    requires Ok(stabs, s) && s.l <= s.r && m == LastOfType(stabs, type_, s.l, (s.l + s.r) / 2)
    ensures s.l - 1 <= m < |stabs|
    ensures Next(stabs, type_, s) ==
      if m < s.l then State((s.l + s.r) / 2 + 1, s.r, s.left, s.anyMatches, s.addr)
      else if stabs[m].n_value < s.addr then State((s.l + s.r) / 2 + 1, s.r, m, true, s.addr)
      else if stabs[m].n_value > s.addr then State(s.l, m - 1, s.left, true, s.addr)
      else State(m, s.r, m, true, (s.addr + 1) % TWO_32)
  {
  }

  function Loop(stabs: seq<Stab>, type_: u8, s: State): (f: State)
    requires Ok(stabs, s)
    ensures Ok(stabs, f) && f.l == f.r + 1
    decreases s.Size(), Pending(stabs, type_, s)
  {
    if s.l > s.r then s
    else
      NextDecreases(stabs, type_, s);
      Loop(stabs, type_, Next(stabs, type_, s))
  }

  /** The number of iterations. */
  function Steps(stabs: seq<Stab>, type_: u8, s: State): nat
    requires Ok(stabs, s)
    decreases s.Size(), Pending(stabs, type_, s)
  {
    if s.l > s.r then 0
    else
      NextDecreases(stabs, type_, s);
      1 + Steps(stabs, type_, Next(stabs, type_, s))
  }

  /** The last lines of the source: walk back from the right end to the last stab of the type. */
  function Finish(stabs: seq<Stab>, type_: u8, f: State): (int, int)
    requires 0 <= f.left && f.r < |stabs|
  {
    if !f.anyMatches then (f.left, f.left - 1)
    else if f.r <= f.left then (f.r, f.r)
    else (LastOfType(stabs, type_, f.left + 1, f.r), f.r)
  }

  /** `Halvings(n) - 1` is the floor of the binary logarithm of `n`. */
  function Halvings(n: int): nat {
    if n <= 0 then 0 else 1 + Halvings(n / 2)
  }

  function Pow2(n: nat): nat {
    if n == 0 then 1 else 2 * Pow2(n - 1)
  }

  lemma {:induction false} HalvingsIsLog2(n: int)
    requires n >= 1
    ensures Halvings(n) >= 1 && Pow2(Halvings(n) - 1) <= n < Pow2(Halvings(n))
  {
    if n >= 2 {
      HalvingsIsLog2(n / 2);
    } else {
      assert Halvings(0) == 0;
    }
  }

  lemma {:induction false} HalvingsMonotonic(a: int, b: int)
    requires a <= b
    ensures Halvings(a) <= Halvings(b)
    decreases b
  {
    if a > 0 {
      HalvingsMonotonic(a / 2, b / 2);
    }
  }

  // ----- When the exact-match branch goes wrong -----

  /** The state of the plain binary search for `s.addr` at its first equal probe, if any. */
  function FirstHit(stabs: seq<Stab>, type_: u8, s: State): (hit: Option<State>)
    requires Ok(stabs, s)
    ensures hit.Some? ==>
      var h := hit.value;
      Ok(stabs, h) && h.l <= h.r && IsHit(stabs, type_, h) && h.addr == s.addr && s.l <= h.l && h.r <= s.r
    decreases s.Size()
  {
    if s.l > s.r then None
    else if IsHit(stabs, type_, s) then Some(s)
    else
      NextDecreases(stabs, type_, s);
      FirstHit(stabs, type_, Next(stabs, type_, s))
  }

  function Start(lo: int, hi: int, addr: u32): State {
    State(lo, hi, lo, false, addr)
  }

  /** The second equal probe, at `addr + 1`, wraps the address to 0 and lies directly behind the
      last stab at or below `addr`. */
  predicate UndoneByWrap(stabs: seq<Stab>, type_: u8, h: State, addr: u32)
    requires Ok(stabs, h) && h.l <= h.r
  {
    var m := ProbeAt(stabs, type_, h);
    addr + 1 == UINT32_MAX && 0 < m && stabs[m - 1].n_type == type_ && stabs[m - 1].n_value <= addr
  }

  /** After the first equal probe the code goes on with `addr + 1`. That misleads it when
      `addr + 1` wraps to 0, or when the remaining bracket holds a stab at `addr + 1` as well
      (unless the second increment wraps too and happens to undo the damage). */
  predicate Overshoots(stabs: seq<Stab>, type_: u8, lo: int, hi: int, addr: u32)
    requires InTable(stabs, lo, hi)
  {
    lo <= hi &&
    match FirstHit(stabs, type_, Start(lo, hi, addr))
    case None => false
    case Some(h) =>
      if addr == UINT32_MAX then true
      else
        match FirstHit(stabs, type_, Next(stabs, type_, h))
        case None => false
        case Some(h') => !UndoneByWrap(stabs, type_, h', addr)
  }

  /** On a sorted range the plain search does not miss an equal stab `k`. */
  lemma {:induction false} FirstHitIsComplete(stabs: seq<Stab>, type_: u8, s: State, k: int)
    requires Ok(stabs, s) && Sorted(stabs, type_, s.l, s.r)
    requires s.l <= k <= s.r && IsStab(stabs, type_, k) && stabs[k].n_value == s.addr
    ensures FirstHit(stabs, type_, s).Some?
    decreases s.Size()
  {
    if !IsHit(stabs, type_, s) {
      NextDecreases(stabs, type_, s);
      FirstHitIsComplete(stabs, type_, Next(stabs, type_, s), k);
    }
  }

  // ----- The invariant, and the search without an equal probe -----

  /** Neither end has moved past a stab it should keep: everything left of the bracket is at or
      below `cut`, everything right of it is above `cut`. */
  ghost predicate Bracketed(stabs: seq<Stab>, type_: u8, lo: int, hi: int, s: State, cut: u32) {
    && 0 <= lo <= s.left <= s.l <= s.r + 1 <= hi + 1 <= |stabs|
    && (forall k :: lo <= k < s.l && IsStab(stabs, type_, k) ==> stabs[k].n_value <= cut)
    && (forall k :: s.r < k <= hi && IsStab(stabs, type_, k) ==> stabs[k].n_value > cut)
    && (s.r == hi || IsStab(stabs, type_, s.r + 1))
    && (forall k :: s.left < k < s.l ==> !IsStab(stabs, type_, k))
    && (Unmoved(stabs, type_, lo, s) || (s.left <= s.r && IsStab(stabs, type_, s.left) && stabs[s.left].n_value <= cut))
    && (!s.anyMatches ==> Unmoved(stabs, type_, lo, s) && s.r == hi)
    && (s.anyMatches ==> LastOfType(stabs, type_, lo, hi) >= lo)
  }

  /** Nothing at or below the address has been found yet. */
  ghost predicate Unmoved(stabs: seq<Stab>, type_: u8, lo: int, s: State) {
    s.left == lo && forall k :: lo <= k < s.l ==> !IsStab(stabs, type_, k)
  }

  lemma NextKeepsBracketed(stabs: seq<Stab>, type_: u8, lo: int, hi: int, s: State, cut: u32)
    requires Bracketed(stabs, type_, lo, hi, s, cut) && Sorted(stabs, type_, lo, hi)
    requires s.l <= s.r && (s.addr == cut || (s.addr == cut + 1 && !IsHit(stabs, type_, s)))
    ensures Bracketed(stabs, type_, lo, hi, Next(stabs, type_, s), cut)
  {
    hide Next, LastOfType, Bracketed, Sorted, ProbeAt, Unmoved;
    BracketedIsOk(stabs, type_, lo, hi, s, cut);
    var m, mid := ProbeAt(stabs, type_, s), (s.l + s.r) / 2;
    NextByCases(stabs, type_, s, m);
    if m < s.l {
      NothingMoves(stabs, type_, lo, hi, s, cut, mid + 1);
    } else if stabs[m].n_value > s.addr {
      RightEndMoves(stabs, type_, lo, hi, s, cut, m);
    } else if stabs[m].n_value < s.addr {
      LeftEndMoves(stabs, type_, lo, hi, s, cut, m, mid + 1, s.addr);
    } else {
      LeftEndMoves(stabs, type_, lo, hi, s, cut, m, m, (s.addr + 1) % TWO_32);
    }
  }

  lemma BracketedIsOk(stabs: seq<Stab>, type_: u8, lo: int, hi: int, s: State, cut: u32)
    requires Bracketed(stabs, type_, lo, hi, s, cut)
    ensures Ok(stabs, s)
  {
  }

  lemma NothingMoves(stabs: seq<Stab>, type_: u8, lo: int, hi: int, s: State, cut: u32, l': int)
    requires Bracketed(stabs, type_, lo, hi, s, cut)
    requires s.l <= l' <= s.r + 1 && forall k :: s.l <= k < l' ==> !IsStab(stabs, type_, k)
    ensures Bracketed(stabs, type_, lo, hi, s.(l := l'), cut)
  {
    hide LastOfType;
    assert Unmoved(stabs, type_, lo, s) ==> Unmoved(stabs, type_, lo, s.(l := l'));
  }

  lemma RightEndMoves(stabs: seq<Stab>, type_: u8, lo: int, hi: int, s: State, cut: u32, m: int)
    requires Bracketed(stabs, type_, lo, hi, s, cut) && Sorted(stabs, type_, lo, hi)
    requires s.l <= m <= s.r && IsStab(stabs, type_, m) && stabs[m].n_value > cut
    ensures Bracketed(stabs, type_, lo, hi, s.(r := m - 1, anyMatches := true), cut)
  {
    hide LastOfType;
    assert LastOfType(stabs, type_, lo, hi) >= m;
  }

  lemma LeftEndMoves(stabs: seq<Stab>, type_: u8, lo: int, hi: int, s: State, cut: u32, m: int,
                      l': int, addr': u32)
    requires Bracketed(stabs, type_, lo, hi, s, cut) && Sorted(stabs, type_, lo, hi)
    requires s.l <= m <= s.r && IsStab(stabs, type_, m) && stabs[m].n_value <= cut
    requires m <= l' <= s.r + 1 && forall k :: m < k < l' ==> !IsStab(stabs, type_, k)
    ensures Bracketed(stabs, type_, lo, hi, State(l', s.r, m, true, addr'), cut)
  {
    hide LastOfType;
    assert LastOfType(stabs, type_, lo, hi) >= m;
  }

  /** A search that meets no equal probe halves its bracket in every iteration. */
  lemma {:induction false} StepsWithoutHit(stabs: seq<Stab>, type_: u8, s: State)
    requires Ok(stabs, s) && FirstHit(stabs, type_, s) == None
    ensures Steps(stabs, type_, s) <= Halvings(s.Size())
    decreases s.Size()
  {
    if s.l <= s.r {
      var n := Next(stabs, type_, s);
      NextDecreases(stabs, type_, s);
      StepsWithoutHit(stabs, type_, n);
      HalvingsMonotonic(n.Size(), s.Size() / 2);
    }
  }

  /** With no equal probe left, the loop ends in the bracket of the linear scan for `cut`,
      whether it compares against `cut` or, after an exact match, against `cut + 1`. */
  lemma {:induction false} LoopWithoutHit(stabs: seq<Stab>, type_: u8, lo: int, hi: int, s: State, cut: u32)
    requires Bracketed(stabs, type_, lo, hi, s, cut) && Sorted(stabs, type_, lo, hi)
    requires s.addr == cut || s.addr == cut + 1
    requires FirstHit(stabs, type_, s) == None
    ensures Finish(stabs, type_, Loop(stabs, type_, s)) == Bracket(stabs, type_, lo, hi, cut)
    ensures Steps(stabs, type_, s) <= Halvings(s.Size())
    decreases s.Size()
  {
    hide Steps, Halvings, Finish, Bracket, LastOfType;
    StepsWithoutHit(stabs, type_, s);
    if s.l <= s.r {
      NextDecreases(stabs, type_, s);
      NextKeepsBracketed(stabs, type_, lo, hi, s, cut);
      LoopWithoutHit(stabs, type_, lo, hi, Next(stabs, type_, s), cut);
    } else {
      BracketAtExit(stabs, type_, lo, hi, s, cut);
    }
  }

  lemma BracketAtExit(stabs: seq<Stab>, type_: u8, lo: int, hi: int, s: State, cut: u32)
    requires Bracketed(stabs, type_, lo, hi, s, cut) && s.l == s.r + 1
    ensures Finish(stabs, type_, s) == Bracket(stabs, type_, lo, hi, cut)
  {
    hide LastOfType, LastAtOrBelow, FirstAbove;
    var last, first := LastAtOrBelow(stabs, type_, lo, hi, cut), FirstAbove(stabs, type_, lo, hi, cut);
    assert first == s.r + 1;
    if !s.anyMatches {
      assert LastOfType(stabs, type_, lo, hi) < lo;
    } else if Unmoved(stabs, type_, lo, s) {
      assert last < lo;
      assert lo < s.r ==> LastOfType(stabs, type_, lo + 1, s.r) == lo;
    } else {
      assert last == s.left;
      assert s.left < s.r ==> LastOfType(stabs, type_, s.left + 1, s.r) == s.left;
    }
  }

  // ----- The search with equal probes -----

  /** Up to the first equal probe the loop is the plain binary search. */
  lemma {:induction false} LoopToHit(stabs: seq<Stab>, type_: u8, s: State)
    requires Ok(stabs, s) && FirstHit(stabs, type_, s).Some?
    ensures var n := Next(stabs, type_, FirstHit(stabs, type_, s).value);
      && Loop(stabs, type_, s) == Loop(stabs, type_, n)
      && Steps(stabs, type_, s) + Halvings(n.Size()) <= Halvings(s.Size()) + 1 + Steps(stabs, type_, n)
    decreases s.Size()
  {
    var n := Next(stabs, type_, s);
    NextDecreases(stabs, type_, s);
    if IsHit(stabs, type_, s) {
      HalvingsMonotonic(n.Size(), s.Size());
    } else {
      LoopToHit(stabs, type_, n);
      HalvingsMonotonic(n.Size(), s.Size() / 2);
    }
  }

  lemma {:induction false} HitIsBracketed(stabs: seq<Stab>, type_: u8, lo: int, hi: int, s: State)
    requires Bracketed(stabs, type_, lo, hi, s, s.addr) && Sorted(stabs, type_, lo, hi)
    requires FirstHit(stabs, type_, s).Some?
    ensures var h := FirstHit(stabs, type_, s).value;
      Bracketed(stabs, type_, lo, hi, Next(stabs, type_, h), s.addr)
    decreases s.Size()
  {
    NextKeepsBracketed(stabs, type_, lo, hi, s, s.addr);
    if !IsHit(stabs, type_, s) {
      NextDecreases(stabs, type_, s);
      HitIsBracketed(stabs, type_, lo, hi, Next(stabs, type_, s));
    }
  }

  /** Once the address has wrapped to 0, every stab that is left moves the right end. */
  lemma {:induction false} LoopAfterWrap(stabs: seq<Stab>, type_: u8, s: State)
    requires Ok(stabs, s) && s.left == s.l && s.anyMatches && s.addr == 0
    requires s.r >= s.l ==> IsStab(stabs, type_, s.l)
    requires forall k :: s.l <= k <= s.r && IsStab(stabs, type_, k) ==> stabs[k].n_value > 0
    ensures Loop(stabs, type_, s) == s.(r := s.l - 1)
    ensures Steps(stabs, type_, s) <= Halvings(s.Size())
    decreases s.Size()
  {
    if s.l <= s.r {
      var n := Next(stabs, type_, s);
      NextDecreases(stabs, type_, s);
      LoopAfterWrap(stabs, type_, n);
      HalvingsMonotonic(n.Size(), s.Size() / 2);
    }
  }

  /** The search has accepted the stab `base`, and looks for addresses above it. */
  ghost predicate Holds(stabs: seq<Stab>, type_: u8, base: int, s: State) {
    && Ok(stabs, s) && s.anyMatches && 0 <= base <= s.left && base <= s.l && base <= s.r
    && IsStab(stabs, type_, base) && stabs[base].n_value < s.addr
    && forall k :: base <= k <= s.r && IsStab(stabs, type_, k) ==> stabs[k].n_value >= stabs[base].n_value
  }

  lemma NextHolds(stabs: seq<Stab>, type_: u8, base: int, s: State)
    requires Holds(stabs, type_, base, s) && s.l <= s.r
    requires !(IsHit(stabs, type_, s) && s.addr == UINT32_MAX)
    ensures Holds(stabs, type_, base, Next(stabs, type_, s))
  {
    hide Next;
    NextByCases(stabs, type_, s, ProbeAt(stabs, type_, s));
  }

  /** An accepted stab is never given up again, however often the address is incremented. */
  lemma {:induction false} LoopKeeps(stabs: seq<Stab>, type_: u8, base: int, s: State)
    requires Holds(stabs, type_, base, s) && Sorted(stabs, type_, base, s.r)
    ensures var f := Loop(stabs, type_, s);
      f.anyMatches && base <= f.left && base <= f.r
    decreases s.Size(), Pending(stabs, type_, s)
  {
    hide Next, ProbeAt;
    if s.l <= s.r {
      NextDecreases(stabs, type_, s);
      var n := Next(stabs, type_, s);
      if IsHit(stabs, type_, s) && s.addr == UINT32_MAX {
        hide Loop;
        WrapKeeps(stabs, type_, base, s);
        LoopDoesNext(stabs, type_, s);
      } else {
        NextHolds(stabs, type_, base, s);
        NextStays(stabs, type_, s);
        LoopKeeps(stabs, type_, base, n);
      }
    }
  }

  lemma LoopDoesNext(stabs: seq<Stab>, type_: u8, s: State)
    requires Ok(stabs, s) && s.l <= s.r
    ensures Loop(stabs, type_, s) == Loop(stabs, type_, Next(stabs, type_, s))
  {
  }

  lemma NextStays(stabs: seq<Stab>, type_: u8, s: State)
    requires Ok(stabs, s) && s.l <= s.r
    ensures Next(stabs, type_, s).r <= s.r
  {
  }

  lemma WrapKeeps(stabs: seq<Stab>, type_: u8, base: int, s: State)
    requires Holds(stabs, type_, base, s) && Sorted(stabs, type_, base, s.r)
    requires s.l <= s.r && IsHit(stabs, type_, s) && s.addr == UINT32_MAX
    ensures var f := Loop(stabs, type_, Next(stabs, type_, s));
      f.anyMatches && base <= f.left && base <= f.r
  {
    hide Next, Loop;
    var m := ProbeAt(stabs, type_, s);
    NextByCases(stabs, type_, s, m);
    LoopAfterWrap(stabs, type_, Next(stabs, type_, s));
  }

  // ----- The main theorem -----

  /** What the source function computes. On any table, sorted or not, it stays inside the range. */
  function Search(stabs: seq<Stab>, type_: u8, lo: int, hi: int, addr: u32): (r: (int, int))
    requires InTable(stabs, lo, hi)
    ensures if lo > hi then r == (lo, lo - 1) else lo - 1 <= r.0 <= hi && lo - 1 <= r.1 <= hi
  {
    if lo > hi then (lo, lo - 1)
    else
      LoopStaysInside(stabs, type_, lo, hi, Start(lo, hi, addr));
      Finish(stabs, type_, Loop(stabs, type_, Start(lo, hi, addr)))
  }

  /** The search agrees with the linear scan exactly when it does not overshoot. */
  lemma SearchIsLinearScan(stabs: seq<Stab>, type_: u8, lo: int, hi: int, addr: u32)
    requires InTable(stabs, lo, hi) && Sorted(stabs, type_, lo, hi)
    ensures Search(stabs, type_, lo, hi, addr) == Bracket(stabs, type_, lo, hi, addr)
        <==> !Overshoots(stabs, type_, lo, hi, addr)
  {
    if lo <= hi {
      var s := Start(lo, hi, addr);
      match FirstHit(stabs, type_, s)
      case None => LoopWithoutHit(stabs, type_, lo, hi, s, addr);
      case Some(h) =>
        LoopToHit(stabs, type_, s);
        HitIsBracketed(stabs, type_, lo, hi, s);
        NextAtHit(stabs, type_, h);
        AfterHit(stabs, type_, lo, hi, Next(stabs, type_, h), addr);
    }
  }

  lemma NextAtHit(stabs: seq<Stab>, type_: u8, h: State)
    requires Ok(stabs, h) && h.l <= h.r && IsHit(stabs, type_, h)
    ensures var m := ProbeAt(stabs, type_, h);
      Next(stabs, type_, h) == State(m, h.r, m, true, (h.addr + 1) % TWO_32)
    ensures AtHit(stabs, type_, Next(stabs, type_, h), h.addr)
  {
  }

  /** A state right after an equal probe at `addr`. */
  ghost predicate AtHit(stabs: seq<Stab>, type_: u8, n: State, addr: u32) {
    && Ok(stabs, n) && n.l == n.left <= n.r && n.anyMatches && n.addr == (addr + 1) % TWO_32
    && IsStab(stabs, type_, n.l) && stabs[n.l].n_value == addr
  }

  /** The search from its first equal probe on. */
  lemma AfterHit(stabs: seq<Stab>, type_: u8, lo: int, hi: int, n: State, addr: u32)
    requires AtHit(stabs, type_, n, addr) && 0 <= lo <= n.l && n.r <= hi < |stabs|
    requires Sorted(stabs, type_, lo, hi) && Bracketed(stabs, type_, lo, hi, n, addr)
    ensures Finish(stabs, type_, Loop(stabs, type_, n)) == Bracket(stabs, type_, lo, hi, addr)
        <==> addr < UINT32_MAX && (FirstHit(stabs, type_, n) == None
             || UndoneByWrap(stabs, type_, FirstHit(stabs, type_, n).value, addr))
  {
    hide Loop, FirstHit, Next, Finish, LastOfType, LastAtOrBelow, FirstAbove, ProbeAt,
      Bracket, Bracketed, Sorted, UndoneByWrap;
    if addr == UINT32_MAX {
      WrapAtOnce(stabs, type_, lo, hi, n);
    } else {
      match FirstHit(stabs, type_, n)
      case None => LoopWithoutHit(stabs, type_, lo, hi, n, addr);
      case Some(h) => SecondHit(stabs, type_, lo, hi, n, addr, h);
    }
  }

  lemma SecondHit(stabs: seq<Stab>, type_: u8, lo: int, hi: int, n: State, addr: u32, h: State)
    requires AtHit(stabs, type_, n, addr) && 0 <= lo <= n.l && n.r <= hi < |stabs| && Sorted(stabs, type_, lo, hi)
    requires addr < UINT32_MAX && FirstHit(stabs, type_, n) == Some(h)
    ensures Finish(stabs, type_, Loop(stabs, type_, n)) == Bracket(stabs, type_, lo, hi, addr)
        <==> UndoneByWrap(stabs, type_, h, addr)
  {
    hide Loop, Steps, Halvings, IsHit, UndoneByWrap, FirstHit, Next, Finish, LastOfType, LastAtOrBelow,
      FirstAbove, ProbeAt, Bracket, Sorted;
    LoopToHit(stabs, type_, n);
    NextAtHit(stabs, type_, h);
    AfterSecondHit(stabs, type_, lo, hi, n.l, Next(stabs, type_, h), addr);
    UndoneAt(stabs, type_, h, addr);
  }

  lemma UndoneAt(stabs: seq<Stab>, type_: u8, h: State, addr: u32)
    requires Ok(stabs, h) && h.l <= h.r
    ensures var m := ProbeAt(stabs, type_, h);
      UndoneByWrap(stabs, type_, h, addr) <==>
      addr + 1 == UINT32_MAX && 0 < m && stabs[m - 1].n_type == type_ && stabs[m - 1].n_value <= addr
  {
  }

  lemma WrapAtOnce(stabs: seq<Stab>, type_: u8, lo: int, hi: int, n: State)
    requires AtHit(stabs, type_, n, UINT32_MAX) && Sorted(stabs, type_, lo, hi)
    requires 0 <= lo <= n.l && n.r <= hi < |stabs|
    ensures Finish(stabs, type_, Loop(stabs, type_, n)) != Bracket(stabs, type_, lo, hi, UINT32_MAX)
  {
    LoopAfterWrap(stabs, type_, n);
    assert LastAtOrBelow(stabs, type_, lo, hi, UINT32_MAX) >= n.l;
  }

  lemma AfterSecondHit(stabs: seq<Stab>, type_: u8, lo: int, hi: int, k: int, n: State, addr: u32)
    requires 0 <= lo <= k <= n.l && n.r <= hi < |stabs| && Sorted(stabs, type_, lo, hi)
    requires IsStab(stabs, type_, k) && stabs[k].n_value == addr
    requires addr < UINT32_MAX && AtHit(stabs, type_, n, addr + 1)
    ensures Finish(stabs, type_, Loop(stabs, type_, n)) == Bracket(stabs, type_, lo, hi, addr)
        <==> addr + 1 == UINT32_MAX && 0 < n.l && stabs[n.l - 1].n_type == type_ && stabs[n.l - 1].n_value <= addr
  {
    hide LastAtOrBelow, FirstAbove, LastOfType, Loop;
    var last, first := LastAtOrBelow(stabs, type_, lo, hi, addr), FirstAbove(stabs, type_, lo, hi, addr);
    assert k <= last < n.l && first <= n.l;
    assert Bracket(stabs, type_, lo, hi, addr) == (last, first - 1);
    if addr + 1 == UINT32_MAX {
      LoopAfterWrap(stabs, type_, n);
    } else {
      LoopKeeps(stabs, type_, n.l, n);
    }
  }

  /** The range does not hold both `addr` and `addr + 1`, as a 32-bit sum. */
  ghost predicate NeverBoth(stabs: seq<Stab>, type_: u8, lo: int, hi: int, addr: u32) {
    forall i, j :: lo <= i <= hi && lo <= j <= hi && IsStab(stabs, type_, i) && IsStab(stabs, type_, j)
      ==> !(stabs[i].n_value == addr && stabs[j].n_value == (addr + 1) % TWO_32)
  }

  lemma NoSecondHit(stabs: seq<Stab>, type_: u8, lo: int, hi: int, n: State, addr: u32)
    requires AtHit(stabs, type_, n, addr)
    requires NeverBoth(stabs, type_, lo, hi, addr) && lo <= n.l && n.r <= hi
    ensures FirstHit(stabs, type_, n) == None
  {
    match FirstHit(stabs, type_, n)
    case None =>
    case Some(_) => assert false;
  }

  /** What callers can rely on without looking at the probes: it is enough that the table
      does not hold both `addr` and `addr + 1`, and that `addr + 1` does not wrap. */
  lemma NoOvershoot(stabs: seq<Stab>, type_: u8, lo: int, hi: int, addr: u32)
    requires InTable(stabs, lo, hi) && addr < UINT32_MAX && NeverBoth(stabs, type_, lo, hi, addr)
    ensures !Overshoots(stabs, type_, lo, hi, addr)
  {
    if lo <= hi {
      match FirstHit(stabs, type_, Start(lo, hi, addr))
      case None =>
      case Some(h) =>
        NextAtHit(stabs, type_, h);
        NoSecondHit(stabs, type_, lo, hi, Next(stabs, type_, h), addr);
    }
  }

  /** The condition in terms of the stabs, for all addresses but 2^32 - 2: the bracket that is left
      after the first equal probe holds a stab at `addr + 1`; for the topmost address, any equal
      stab is enough. */
  lemma OvershootsByData(stabs: seq<Stab>, type_: u8, lo: int, hi: int, addr: u32)
    requires lo <= hi && InTable(stabs, lo, hi) && Sorted(stabs, type_, lo, hi) && addr + 1 != UINT32_MAX
    ensures Overshoots(stabs, type_, lo, hi, addr) <==>
      if addr == UINT32_MAX then exists k :: lo <= k <= hi && IsStab(stabs, type_, k) && stabs[k].n_value == addr
      else
        var hit := FirstHit(stabs, type_, Start(lo, hi, addr));
        hit.Some?
        && exists k :: hit.value.l <= k <= hit.value.r && IsStab(stabs, type_, k) && stabs[k].n_value == addr + 1
  {
    hide FirstHit, Next, Sorted, ProbeAt;
    var s := Start(lo, hi, addr);
    if addr == UINT32_MAX {
      HitByData(stabs, type_, s);
    } else {
      match FirstHit(stabs, type_, s)
      case None =>
      case Some(h) =>
        NextAtHit(stabs, type_, h);
        SecondHitByData(stabs, type_, lo, hi, h, Next(stabs, type_, h));
    }
  }

  lemma HitByData(stabs: seq<Stab>, type_: u8, s: State)
    requires Ok(stabs, s) && Sorted(stabs, type_, s.l, s.r)
    ensures FirstHit(stabs, type_, s).Some?
      <==> exists k :: s.l <= k <= s.r && IsStab(stabs, type_, k) && stabs[k].n_value == s.addr
  {
    hide FirstHit, Sorted;
    if FirstHit(stabs, type_, s).Some? {
      HitIsStab(stabs, type_, s);
    }
    forall k | s.l <= k <= s.r && IsStab(stabs, type_, k) && stabs[k].n_value == s.addr
      ensures FirstHit(stabs, type_, s).Some?
    {
      FirstHitIsComplete(stabs, type_, s, k);
    }
  }

  lemma SecondHitByData(stabs: seq<Stab>, type_: u8, lo: int, hi: int, h: State, n: State)
    requires 0 <= lo <= h.l <= n.l && n.r == h.r <= hi < |stabs| && Sorted(stabs, type_, lo, hi)
    requires h.addr < UINT32_MAX && AtHit(stabs, type_, n, h.addr)
    ensures FirstHit(stabs, type_, n).Some? <==>
      exists k :: h.l <= k <= h.r && IsStab(stabs, type_, k) && stabs[k].n_value == h.addr + 1
  {
    hide FirstHit, Sorted;
    if FirstHit(stabs, type_, n).Some? {
      HitIsStab(stabs, type_, n);
    }
    forall k | h.l <= k <= h.r && IsStab(stabs, type_, k) && stabs[k].n_value == h.addr + 1
      ensures FirstHit(stabs, type_, n).Some?
    {
      StabBehindHit(stabs, type_, lo, hi, n, h.addr, k);
      FirstHitIsComplete(stabs, type_, n, k);
    }
  }

  lemma HitIsStab(stabs: seq<Stab>, type_: u8, n: State)
    requires Ok(stabs, n) && FirstHit(stabs, type_, n).Some?
    ensures exists k :: n.l <= k <= n.r && IsStab(stabs, type_, k) && stabs[k].n_value == n.addr
  {
    hide FirstHit;
    var m := ProbeAt(stabs, type_, FirstHit(stabs, type_, n).value);
    assert n.l <= m <= n.r && IsStab(stabs, type_, m);
  }

  lemma StabBehindHit(stabs: seq<Stab>, type_: u8, lo: int, hi: int, n: State, addr: u32, k: int)
    requires lo <= n.l && n.r <= hi && Sorted(stabs, type_, lo, hi) && AtHit(stabs, type_, n, addr)
    requires lo <= k <= n.r && IsStab(stabs, type_, k) && stabs[k].n_value == addr + 1
    ensures n.l <= k && Sorted(stabs, type_, n.l, n.r)
  {
  }

  const ADJACENT: seq<Stab> := [Stab(0, 0x24, 0, 0, 5), Stab(0, 0x24, 0, 0, 6)]

  lemma AdjacentSteps()
    ensures Next(ADJACENT, 0x24, Start(0, 1, 5)) == State(0, 1, 0, true, 6)
    ensures Next(ADJACENT, 0x24, State(0, 1, 0, true, 6)) == State(1, 1, 0, true, 6)
    ensures Next(ADJACENT, 0x24, State(1, 1, 0, true, 6)) == State(1, 1, 1, true, 7)
    ensures Next(ADJACENT, 0x24, State(1, 1, 1, true, 7)) == State(2, 1, 1, true, 7)
  {
    assert LastOfType(ADJACENT, 0x24, 0, 0) == 0 && LastOfType(ADJACENT, 0x24, 1, 1) == 1;
    hide LastOfType, Next;
    NextByCases(ADJACENT, 0x24, Start(0, 1, 5), 0);
    NextByCases(ADJACENT, 0x24, State(0, 1, 0, true, 6), 0);
    NextByCases(ADJACENT, 0x24, State(1, 1, 0, true, 6), 1);
    NextByCases(ADJACENT, 0x24, State(1, 1, 1, true, 7), 1);
  }

  /** The documented range is missed when `addr` and `addr + 1` both carry a stab of the type. */
  lemma OvershootExample()
    ensures Sorted(ADJACENT, 0x24, 0, 1)
    ensures Search(ADJACENT, 0x24, 0, 1, 5) == (1, 1) && Bracket(ADJACENT, 0x24, 0, 1, 5) == (0, 0)
  {
    hide Loop, Steps, Next;
    AdjacentSteps();
    LoopStep(ADJACENT, 0x24, Start(0, 1, 5), State(0, 1, 0, true, 6));
    LoopStep(ADJACENT, 0x24, State(0, 1, 0, true, 6), State(1, 1, 0, true, 6));
    LoopStep(ADJACENT, 0x24, State(1, 1, 0, true, 6), State(1, 1, 1, true, 7));
    LoopStep(ADJACENT, 0x24, State(1, 1, 1, true, 7), State(2, 1, 1, true, 7));
    LoopDone(ADJACENT, 0x24, State(2, 1, 1, true, 7));
  }

  lemma {:induction false} MatchIsRemembered(stabs: seq<Stab>, type_: u8, s: State)
    requires Ok(stabs, s) && s.anyMatches
    ensures Loop(stabs, type_, s).anyMatches
    decreases s.Size(), Pending(stabs, type_, s)
  {
    if s.l <= s.r {
      NextDecreases(stabs, type_, s);
      MatchIsRemembered(stabs, type_, Next(stabs, type_, s));
    }
  }

  /** A stab `k` of the type cannot be passed over without any match. */
  lemma {:induction false} StabIsMatched(stabs: seq<Stab>, type_: u8, s: State, k: int)
    requires Ok(stabs, s) && s.l <= k <= s.r && IsStab(stabs, type_, k)
    ensures Loop(stabs, type_, s).anyMatches
    decreases s.Size(), Pending(stabs, type_, s)
  {
    NextDecreases(stabs, type_, s);
    var n := Next(stabs, type_, s);
    if n.anyMatches {
      MatchIsRemembered(stabs, type_, n);
    } else {
      StabIsMatched(stabs, type_, n, k);
    }
  }

  lemma {:induction false} NothingIsMatched(stabs: seq<Stab>, type_: u8, s: State)
    requires Ok(stabs, s) && !s.anyMatches && forall k :: s.l <= k <= s.r ==> !IsStab(stabs, type_, k)
    ensures var f := Loop(stabs, type_, s); !f.anyMatches && f.left == s.left
    decreases s.Size(), Pending(stabs, type_, s)
  {
    if s.l <= s.r {
      NextDecreases(stabs, type_, s);
      NothingIsMatched(stabs, type_, Next(stabs, type_, s));
    }
  }

  /** The comment of the source says that an empty region means `addr` is in no matching stab. On
      every table, range and address, the region is empty exactly when the range holds no stab of
      the type at all; when all of them lie above `addr` it is not. */
  lemma EmptyRegion(stabs: seq<Stab>, type_: u8, lo: int, hi: int, addr: u32)
    requires InTable(stabs, lo, hi)
    ensures var (left, right) := Search(stabs, type_, lo, hi, addr);
      && (left > right <==> forall k :: lo <= k <= hi ==> !IsStab(stabs, type_, k))
      && (left > right ==> (left, right) == (lo, lo - 1))
  {
    hide Loop;
    if lo <= hi {
      var s := Start(lo, hi, addr);
      if k :| lo <= k <= hi && IsStab(stabs, type_, k) {
        StabIsMatched(stabs, type_, s, k);
      } else {
        NothingIsMatched(stabs, type_, s);
      }
    }
  }

  /** On a sorted range that is searched without overshooting and has a stab `k` of the type at or below
      `addr`: the region begins with the last such stab, and ends in front of the next stab of the
      type, or with the range. */
  lemma LastBelow(stabs: seq<Stab>, type_: u8, lo: int, hi: int, addr: u32, k: int)
    requires lo <= k <= hi && InTable(stabs, lo, hi) && Sorted(stabs, type_, lo, hi)
    requires !Overshoots(stabs, type_, lo, hi, addr) && IsStab(stabs, type_, k) && stabs[k].n_value <= addr
    ensures var (left, right) := Search(stabs, type_, lo, hi, addr);
      && lo <= left <= right <= hi && IsStab(stabs, type_, left) && stabs[left].n_value <= addr
      && (forall j :: left < j <= hi && IsStab(stabs, type_, j) ==> stabs[j].n_value > addr)
      && (forall j :: left < j <= right ==> !IsStab(stabs, type_, j))
      && (right == hi || IsStab(stabs, type_, right + 1))
  {
    hide Search, LastAtOrBelow, FirstAbove, LastOfType, Overshoots;
    SearchIsLinearScan(stabs, type_, lo, hi, addr);
    var last, first := LastAtOrBelow(stabs, type_, lo, hi, addr), FirstAbove(stabs, type_, lo, hi, addr);
    assert last >= k;
    FirstIsBehind(stabs, type_, lo, hi, addr, last, first);
  }

  lemma FirstIsBehind(stabs: seq<Stab>, type_: u8, lo: int, hi: int, addr: u32, last: int, first: int)
    requires lo <= last <= hi && lo <= first <= hi + 1 && InTable(stabs, lo, hi) && Sorted(stabs, type_, lo, hi)
    requires IsStab(stabs, type_, last) && stabs[last].n_value <= addr
    requires first <= hi ==> IsStab(stabs, type_, first) && stabs[first].n_value > addr
    ensures last < first
  {
  }

  /** On a sorted range that is searched without overshooting and has stabs of the type, all above
      `addr`, the region begins where the range does, and is not empty. */
  lemma AllAbove(stabs: seq<Stab>, type_: u8, lo: int, hi: int, addr: u32)
    requires lo <= hi && InTable(stabs, lo, hi) && Sorted(stabs, type_, lo, hi)
    requires !Overshoots(stabs, type_, lo, hi, addr)
    requires LastAtOrBelow(stabs, type_, lo, hi, addr) < lo <= LastOfType(stabs, type_, lo, hi)
    ensures var (left, right) := Search(stabs, type_, lo, hi, addr);
      left == Min(lo, right) && right + 1 == FirstAbove(stabs, type_, lo, hi, addr) <= hi
  {
    SearchIsLinearScan(stabs, type_, lo, hi, addr);
  }

  lemma {:induction false} LoopStaysInside(stabs: seq<Stab>, type_: u8, lo: int, hi: int, s: State)
    requires Ok(stabs, s) && 0 <= lo <= s.l && lo <= s.left <= hi && s.r <= hi < |stabs|
    ensures var f := Loop(stabs, type_, s);
      lo <= f.left <= hi && lo - 1 <= f.r <= hi
    decreases s.Size(), Pending(stabs, type_, s)
  {
    if s.l <= s.r {
      NextDecreases(stabs, type_, s);
      LoopStaysInside(stabs, type_, lo, hi, Next(stabs, type_, s));
    }
  }

  /** On any table, a bound on the iterations of a search that meets at most one equal address. */
  lemma SearchIsFast(stabs: seq<Stab>, type_: u8, lo: int, hi: int, addr: u32)
    requires lo <= hi && InTable(stabs, lo, hi) && NeverBoth(stabs, type_, lo, hi, addr)
    ensures var steps := Steps(stabs, type_, Start(lo, hi, addr));
      steps <= Halvings(hi - lo + 1) + 1 && (steps >= 2 ==> Pow2(steps - 2) <= hi - lo + 1)
  {
    hide Loop, FirstHit, Next, Steps, Pow2, Halvings, LastOfType;
    var s := Start(lo, hi, addr);
    match FirstHit(stabs, type_, s) {
      case None => StepsWithoutHit(stabs, type_, s);
      case Some(h) =>
        LoopToHit(stabs, type_, s);
        NextAtHit(stabs, type_, h);
        NoSecondHit(stabs, type_, lo, hi, Next(stabs, type_, h), addr);
        StepsWithoutHit(stabs, type_, Next(stabs, type_, h));
    }
    HalvingsBound(hi - lo + 1, Steps(stabs, type_, s));
  }

  lemma HalvingsBound(n: int, steps: nat)
    requires n >= 1 && steps <= Halvings(n) + 1
    ensures steps >= 2 ==> Pow2(steps - 2) <= n
  {
    HalvingsIsLog2(n);
    if steps >= 2 {
      Pow2Monotonic(steps - 2, Halvings(n) - 1);
    }
  }

  lemma {:induction false} Pow2Monotonic(a: nat, b: nat)
    requires a <= b
    ensures Pow2(a) <= Pow2(b)
  {
    if a < b {
      Pow2Monotonic(a, b - 1);
    }
  }

  /** One unfolding of `Loop` and `Steps`. */
  lemma LoopStep(stabs: seq<Stab>, type_: u8, s: State, n: State)
    requires Ok(stabs, s) && s.l <= s.r && n == Next(stabs, type_, s)
    ensures Ok(stabs, n)
    ensures Loop(stabs, type_, s) == Loop(stabs, type_, n)
    ensures Steps(stabs, type_, s) == 1 + Steps(stabs, type_, n)
    ensures n.Size() < s.Size() || (n.Size() == s.Size() && Pending(stabs, type_, n) < Pending(stabs, type_, s))
  {
    NextDecreases(stabs, type_, s);
  }

  lemma LoopDone(stabs: seq<Stab>, type_: u8, s: State)
    requires Ok(stabs, s) && s.l > s.r
    ensures Loop(stabs, type_, s) == s && Steps(stabs, type_, s) == 0
  {
  }

  // ----- The code -----

  method StabBinsearch(stabs: seq<Stab>, regionLeft: int, regionRight: int, type_: u8, address: u32)
    returns (left: int, right: int, ghost steps: nat)
    requires InTable(stabs, regionLeft, regionRight)
    ensures (left, right) == Search(stabs, type_, regionLeft, regionRight, address)
    ensures Sorted(stabs, type_, regionLeft, regionRight) ==>
      ((left, right) == Bracket(stabs, type_, regionLeft, regionRight, address)
       <==> !Overshoots(stabs, type_, regionLeft, regionRight, address))
    ensures regionLeft <= regionRight ==> steps == Steps(stabs, type_, Start(regionLeft, regionRight, address))
  {
    hide Bracket, Overshoots, Sorted, Finish;
    if Sorted(stabs, type_, regionLeft, regionRight) {
      SearchIsLinearScan(stabs, type_, regionLeft, regionRight, address);
    }
    if regionLeft > regionRight {
      // the loop below is not entered, and any_matches stays 0
      return regionLeft, regionLeft - 1, 0;
    }
    hide Loop, Steps, Next, Pending, ProbeAt, LastOfType;
    ghost var start := Start(regionLeft, regionRight, address);
    left, right := regionLeft, regionRight;
    var l, r, anyMatches := left, right, false;
    var addr: u32 := address;
    steps := 0;
    ghost var s := start;
    while l <= r
      invariant Ok(stabs, s) && s == State(l, r, left, anyMatches, addr) && right == r
      invariant Loop(stabs, type_, s) == Loop(stabs, type_, start)
      invariant steps + Steps(stabs, type_, s) == Steps(stabs, type_, start)
      decreases s.Size(), Pending(stabs, type_, s)
    {
      l, r, left, right, anyMatches, addr := Narrow(stabs, type_, l, r, left, right, anyMatches, addr);
      LoopStep(stabs, type_, s, State(l, r, left, anyMatches, addr));
      s := State(l, r, left, anyMatches, addr);
      steps := steps + 1;
    }
    LoopDone(stabs, type_, s);
    left, right := FinishRegion(stabs, type_, left, right, anyMatches, s);
  }

  /** The body of the search loop. */
  method Narrow(stabs: seq<Stab>, type_: u8, l0: int, r0: int, regionLeft: int, regionRight: int,
                anyMatches0: bool, addr0: u32)
    returns (l: int, r: int, left: int, right: int, anyMatches: bool, addr: u32)
    requires var s := State(l0, r0, regionLeft, anyMatches0, addr0); Ok(stabs, s) && l0 <= r0 == regionRight
    ensures State(l, r, left, anyMatches, addr) == Next(stabs, type_, State(l0, r0, regionLeft, anyMatches0, addr0))
    ensures right == r
  {
    l, r, left, right, anyMatches, addr := l0, r0, regionLeft, regionRight, anyMatches0, addr0;
    var trueM := (l + r) / 2;
    var m := WalkBack(stabs, type_, l, trueM);
    if m < l {
      l := trueM + 1;
      return;
    }
    anyMatches := true;
    if stabs[m].n_value < addr {
      left := m;
      l := trueM + 1;
    } else if stabs[m].n_value > addr {
      right := m - 1;
      r := m - 1;
    } else {
      left := m;
      l := m;
      addr := (addr + 1) % TWO_32;
    }
  }

  /** The end of the source function, after the search loop. */
  method FinishRegion(stabs: seq<Stab>, type_: u8, regionLeft: int, regionRight: int, anyMatches: bool, ghost s: State)
    returns (left: int, right: int)
    requires Ok(stabs, s) && s.left == regionLeft && s.r == regionRight && s.anyMatches == anyMatches
    ensures (left, right) == Finish(stabs, type_, s)
  {
    left, right := regionLeft, regionRight;
    if !anyMatches {
      right := left - 1;
    } else if right <= left {
      left := right;
    } else {
      left := WalkBack(stabs, type_, left + 1, right);
    }
  }

  /** The two inner loops of the source: step down from `m` to a stab of the type. */
  method WalkBack(stabs: seq<Stab>, type_: u8, l: int, start: int) returns (m: int)
    requires 0 <= l <= start < |stabs|
    ensures m == LastOfType(stabs, type_, l, start)
  {
    m := start;
    while m >= l && stabs[m].n_type != type_
      invariant l - 1 <= m <= start
      invariant LastOfType(stabs, type_, l, start) == LastOfType(stabs, type_, l, m)
    {
      m := m - 1;
    }
  }
}
