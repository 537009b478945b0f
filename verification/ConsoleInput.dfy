/** The console input ring, which has no check for being full, and the polling reads from it. */
module ConsoleInput {
  import opened Machine
  import opened Keyboard

  const CONSBUFSIZE: nat := 512

  // ----- Bursts, on the sequence of characters waiting in the ring -----

  /** The characters that `cons_intr` keeps; a device routine returns 0 for "no character". */
  function NonZero(cs: seq<u8>): (r: seq<u8>)
    ensures 0 !in r
  {
    if cs == [] then []
    else NonZero(cs[..|cs| - 1]) + if cs[|cs| - 1] == 0 then [] else [cs[|cs| - 1]]
  }

  /** One character more. A ring that already holds 511 becomes empty instead of full. */
  function Push(pending: seq<u8>, c: u8): seq<u8> {
    if |pending| == CONSBUFSIZE - 1 then [] else pending + [c]
  }

  function Burst(pending: seq<u8>, cs: seq<u8>): seq<u8> {
    if cs == [] then pending
    else
      var before := Burst(pending, cs[..|cs| - 1]);
      if cs[|cs| - 1] == 0 then before else Push(before, cs[|cs| - 1])
  }

  /** The last `|s| mod 512` elements. */
  function Survivors<T>(s: seq<T>): seq<T> {
    s[|s| - |s| % 512..]
  }

  /** The exact law of a burst, overruns included: of everything that was waiting or came in, the
      last (count mod 512) characters can be read. */
  lemma {:induction false} BurstLaw(pending: seq<u8>, cs: seq<u8>)
    requires |pending| < CONSBUFSIZE
    ensures Burst(pending, cs) == Survivors(pending + NonZero(cs))
  {
    if cs != [] {
      var init, c := cs[..|cs| - 1], cs[|cs| - 1];
      BurstLaw(pending, init);
      if c != 0 {
        var s := pending + NonZero(init);
        assert pending + NonZero(cs) == s + [c];
        SurvivorsPush(s, c);
      }
    }
  }

  lemma SurvivorsPush(s: seq<u8>, c: u8)
    ensures Push(Survivors(s), c) == Survivors(s + [c])
  {
    var n := |s| % CONSBUFSIZE;
    if n == CONSBUFSIZE - 1 {
      assert (|s| + 1) % CONSBUFSIZE == 0;
    } else {
      assert (|s| + 1) % CONSBUFSIZE == n + 1;
    }
  }

  // ----- Whole runs of bursts and reads -----

  datatype Op = Intr(cs: seq<u8>) | Getc

  /** The ring and the characters read so far. */
  datatype Trace = Trace(pending: seq<u8>, read: seq<u8>)

  function Step(t: Trace, op: Op): Trace {
    match op
    case Intr(cs) => Trace(Burst(t.pending, cs), t.read)
    case Getc => if t.pending == [] then t else Trace(t.pending[1..], t.read + [t.pending[0]])
  }

  function RunOps(t: Trace, ops: seq<Op>): Trace {
    if ops == [] then t else Step(RunOps(t, ops[..|ops| - 1]), ops[|ops| - 1])
  }

  /** The characters that an operation brings in. */
  function Incoming(op: Op): (cs: seq<u8>)
    ensures 0 !in cs
  {
    match op case Intr(cs) => NonZero(cs) case Getc => []
  }

  function Delivered(ops: seq<Op>): (r: seq<u8>)
    ensures 0 !in r
  {
    if ops == [] then [] else Delivered(ops[..|ops| - 1]) + Incoming(ops[|ops| - 1])
  }

  /** No burst of the run finds less room than it needs. */
  predicate NoOverrun(t: Trace, ops: seq<Op>) {
    ops == [] ||
    (NoOverrun(t, ops[..|ops| - 1])
     && |RunOps(t, ops[..|ops| - 1]).pending| + |Incoming(ops[|ops| - 1])| < CONSBUFSIZE)
  }

  /** From any state on, the ring is a lossless queue over every interleaving of bursts and reads
      that has no overrun, and over no other one: what an overrun has lost never comes back. */
  lemma LosslessQueue(start: Trace, ops: seq<Op>)
    requires |start.pending| < CONSBUFSIZE
    ensures var t := RunOps(start, ops);
      && |t.pending| < CONSBUFSIZE
      && (t.read + t.pending == start.read + start.pending + Delivered(ops) <==> NoOverrun(start, ops))
  {
    OverrunsLose(start, ops);
    if NoOverrun(start, ops) {
      QueueWithoutOverrun(start, ops);
    }
  }

  lemma {:induction false} QueueWithoutOverrun(start: Trace, ops: seq<Op>)
    requires |start.pending| < CONSBUFSIZE && NoOverrun(start, ops)
    ensures var t := RunOps(start, ops);
      |t.pending| < CONSBUFSIZE && t.read + t.pending == start.read + start.pending + Delivered(ops)
    decreases |ops|
  {
    hide Step, Incoming;
    if ops != [] {
      QueueWithoutOverrun(start, ops[..|ops| - 1]);
      StepIsLossless(RunOps(start, ops[..|ops| - 1]), ops[|ops| - 1]);
    }
  }

  /** The characters read and waiting are never more than those delivered, and from the first
      overrun on they are fewer. */
  lemma {:induction false} OverrunsLose(start: Trace, ops: seq<Op>)
    requires |start.pending| < CONSBUFSIZE
    ensures var t := RunOps(start, ops);
      var all := |start.read| + |start.pending| + |Delivered(ops)|;
      && |t.pending| < CONSBUFSIZE && |t.read| + |t.pending| <= all
      && (NoOverrun(start, ops) <==> |t.read| + |t.pending| == all)
    decreases |ops|
  {
    hide Step, Incoming;
    if ops != [] {
      OverrunsLose(start, ops[..|ops| - 1]);
      StepCounts(RunOps(start, ops[..|ops| - 1]), ops[|ops| - 1]);
    }
  }

  lemma StepCounts(t: Trace, op: Op)
    requires |t.pending| < CONSBUFSIZE
    ensures var t' := Step(t, op);
      var room := |t.pending| + |Incoming(op)| < CONSBUFSIZE;
      && |t'.pending| < CONSBUFSIZE
      && |t'.read| + |t'.pending| <= |t.read| + |t.pending| + |Incoming(op)|
      && (room <==> |t'.read| + |t'.pending| == |t.read| + |t.pending| + |Incoming(op)|)
  {
    hide NonZero, Burst;
    if op.Intr? {
      BurstLaw(t.pending, op.cs);
    }
  }

  lemma SurvivorsOfFew(s: seq<u8>)
    requires |s| < CONSBUFSIZE
    ensures Survivors(s) == s
  {
  }

  lemma StepIsLossless(t: Trace, op: Op)
    requires |t.pending| + |Incoming(op)| < CONSBUFSIZE
    ensures var t' := Step(t, op);
      |t'.pending| < CONSBUFSIZE && t'.read + t'.pending == t.read + t.pending + Incoming(op)
  {
    hide NonZero, Burst;
    match op
    case Intr(cs) => BurstWithRoom(t.pending, cs, t.read);
    case Getc =>
      if t.pending != [] {
        assert t.read + [t.pending[0]] + t.pending[1..] == t.read + t.pending;
      }
  }

  lemma BurstWithRoom(pending: seq<u8>, cs: seq<u8>, read: seq<u8>)
    requires |pending| + |NonZero(cs)| < CONSBUFSIZE
    ensures Burst(pending, cs) == pending + NonZero(cs)
    ensures read + (pending + NonZero(cs)) == read + pending + NonZero(cs)
  {
    hide NonZero, Burst, Survivors;
    BurstLaw(pending, cs);
    SurvivorsOfFew(pending + NonZero(cs));
  }

  // ----- Polling -----

  /** What the devices hold at one poll of `cons_getc`: serial bytes and scancodes. */
  datatype Poll = Poll(serialIn: seq<u8>, scancodes: seq<u8>)

  /** The ring and the keyboard flags. */
  datatype Input = Input(pending: seq<u8>, shift: Flags)

  /** One poll, the serial port first. */
  function PollOnce(s: Input, serialExists: bool, p: Poll): Input {
    var serial := if serialExists then Burst(s.pending, p.serialIn) else s.pending;
    Input(Burst(serial, Chars(s.shift, p.scancodes)), Run(s.shift, p.scancodes))
  }

  function PollAll(s: Input, serialExists: bool, polls: seq<Poll>): Input {
    if polls == [] then s
    else PollOnce(PollAll(s, serialExists, polls[..|polls| - 1]), serialExists, polls[|polls| - 1])
  }

  /** Polls that are each followed by the read of one character, if there is one: the characters
      read, which are what successive calls of `getchar` return, and what remains. */
  datatype Typing = Typing(input: Input, keys: seq<u8>)

  function GetcOnce(t: Typing, serialExists: bool, p: Poll): Typing {
    var polled := PollOnce(t.input, serialExists, p);
    if polled.pending == [] then Typing(polled, t.keys)
    else Typing(Input(polled.pending[1..], polled.shift), t.keys + [polled.pending[0]])
  }

  function GetcAll(t: Typing, serialExists: bool, polls: seq<Poll>): Typing {
    if polls == [] then t
    else GetcOnce(GetcAll(t, serialExists, polls[..|polls| - 1]), serialExists, polls[|polls| - 1])
  }

  lemma GetcStep(t: Typing, serialExists: bool, polls: seq<Poll>, k: nat)
    requires k < |polls|
    ensures GetcAll(t, serialExists, polls[..k + 1])
         == GetcOnce(GetcAll(t, serialExists, polls[..k]), serialExists, polls[k])
  {
    assert polls[..k + 1][..k] == polls[..k];
  }

  /** Polls go on where the earlier ones have left off. */
  lemma {:induction false} GetcAppend(t: Typing, serialExists: bool, polls: seq<Poll>, more: seq<Poll>)
    ensures var mid := GetcAll(t, serialExists, polls);
      var last := GetcAll(Typing(mid.input, []), serialExists, more);
      GetcAll(t, serialExists, polls + more) == Typing(last.input, mid.keys + last.keys)
    decreases |more|
  {
    hide PollOnce;
    if more == [] {
      assert polls + more == polls;
    } else {
      assert (polls + more)[..|polls + more| - 1] == polls + more[..|more| - 1];
      GetcAppend(t, serialExists, polls, more[..|more| - 1]);
    }
  }

  // ----- What the devices deliver, and what is read of it -----

  function Scancodes(polls: seq<Poll>): seq<u8> {
    if polls == [] then [] else Scancodes(polls[..|polls| - 1]) + polls[|polls| - 1].scancodes
  }

  /** The bursts and the read of one poll. */
  function PollOps(shift: Flags, serialExists: bool, p: Poll): seq<Op> {
    [Intr(if serialExists then p.serialIn else []), Intr(Chars(shift, p.scancodes)), Getc]
  }

  function Ops(shift: Flags, serialExists: bool, polls: seq<Poll>): seq<Op> {
    if polls == [] then []
    else
      var init := polls[..|polls| - 1];
      Ops(shift, serialExists, init) + PollOps(Run(shift, Scancodes(init)), serialExists, polls[|polls| - 1])
  }

  lemma {:induction false} RunAppend(shift: Flags, x: seq<u8>, y: seq<u8>)
    ensures Run(shift, x + y) == Run(Run(shift, x), y)
    decreases |y|
  {
    hide Next;
    if y == [] {
      assert x + y == x;
    } else {
      assert (x + y)[..|x + y| - 1] == x + y[..|y| - 1];
      RunAppend(shift, x, y[..|y| - 1]);
    }
  }

  lemma {:induction false} CharsAppend(shift: Flags, x: seq<u8>, y: seq<u8>)
    ensures Chars(shift, x + y) == Chars(shift, x) + Chars(Run(shift, x), y)
    decreases |y|
  {
    hide Next, Char;
    if y == [] {
      assert x + y == x;
    } else {
      var init := y[..|y| - 1];
      assert (x + y)[..|x + y| - 1] == x + init;
      CharsAppend(shift, x, init);
      RunAppend(shift, x, init);
    }
  }

  lemma {:induction false} NonZeroAppend(x: seq<u8>, y: seq<u8>)
    ensures NonZero(x + y) == NonZero(x) + NonZero(y)
    decreases |y|
  {
    if y == [] {
      assert x + y == x;
    } else {
      assert (x + y)[..|x + y| - 1] == x + y[..|y| - 1];
      NonZeroAppend(x, y[..|y| - 1]);
    }
  }

  /** Zeros are dropped, and nothing else. */
  lemma {:induction false} NonZeroKeeps(cs: seq<u8>)
    requires 0 !in cs
    ensures NonZero(cs) == cs
  {
    if cs != [] {
      NonZeroKeeps(cs[..|cs| - 1]);
      assert cs == cs[..|cs| - 1] + [cs[|cs| - 1]];
    }
  }

  lemma NonZeroDrops(x: seq<u8>, y: seq<u8>)
    ensures NonZero(x + [0] + y) == NonZero(x) + NonZero(y)
  {
    NonZeroAppend(x + [0], y);
    assert (x + [0])[..|x|] == x;
  }

  /** The polls are a run of bursts and reads. */
  lemma {:induction false} PollsAreOps(t: Typing, serialExists: bool, polls: seq<Poll>)
    ensures var t' := GetcAll(t, serialExists, polls);
      && t'.input.shift == Run(t.input.shift, Scancodes(polls))
      && RunOps(Trace(t.input.pending, t.keys), Ops(t.input.shift, serialExists, polls))
         == Trace(t'.input.pending, t'.keys)
    decreases |polls|
  {
    hide Run, Chars, Burst, Step;
    if polls == [] {
      NoScancodes(t.input.shift);
    } else {
      var init, p := polls[..|polls| - 1], polls[|polls| - 1];
      PollsAreOps(t, serialExists, init);
      RunAppend(t.input.shift, Scancodes(init), p.scancodes);
      ThreeOps(Trace(t.input.pending, t.keys), Ops(t.input.shift, serialExists, init),
               PollOps(Run(t.input.shift, Scancodes(init)), serialExists, p));
      GetcIsThreeSteps(GetcAll(t, serialExists, init), serialExists, p);
    }
  }

  lemma OneOp(t: Trace, ops: seq<Op>, op: Op)
    ensures RunOps(t, ops + [op]) == Step(RunOps(t, ops), op)
    ensures Delivered(ops + [op]) == Delivered(ops) + Incoming(op)
  {
    assert (ops + [op])[..|ops|] == ops;
  }

  lemma ThreeOps(t: Trace, ops: seq<Op>, more: seq<Op>)
    requires |more| == 3
    ensures RunOps(t, ops + more) == Step(Step(Step(RunOps(t, ops), more[0]), more[1]), more[2])
    ensures Delivered(ops + more) == Delivered(ops) + Incoming(more[0]) + Incoming(more[1]) + Incoming(more[2])
  {
    hide Step, Incoming, RunOps, Delivered;
    OneOp(t, ops, more[0]);
    OneOp(t, ops + [more[0]], more[1]);
    OneOp(t, ops + [more[0]] + [more[1]], more[2]);
    assert ops + [more[0]] + [more[1]] + [more[2]] == ops + more;
  }

  lemma GetcIsThreeSteps(t: Typing, serialExists: bool, p: Poll)
    ensures var t' := GetcOnce(t, serialExists, p);
      var ops := PollOps(t.input.shift, serialExists, p);
      && t'.input.shift == Run(t.input.shift, p.scancodes)
      && Step(Step(Step(Trace(t.input.pending, t.keys), ops[0]), ops[1]), ops[2]) == Trace(t'.input.pending, t'.keys)
  {
    hide Run, Chars;
    assert Burst(t.input.pending, []) == t.input.pending;
  }

  /** Everything that comes in: serial bytes and typed characters, in the order of the polls. */
  function Arrived(shift: Flags, serialExists: bool, polls: seq<Poll>): (r: seq<u8>)
    ensures 0 !in r
  {
    Delivered(Ops(shift, serialExists, polls))
  }

  /** One more poll brings its serial bytes, if the port exists, and then the characters of its
      scancodes. */
  lemma ArrivesNext(shift: Flags, serialExists: bool, polls: seq<Poll>, p: Poll)
    ensures Arrived(shift, serialExists, polls + [p])
         == Arrived(shift, serialExists, polls) + (if serialExists then NonZero(p.serialIn) else [])
            + NonZero(Chars(Run(shift, Scancodes(polls)), p.scancodes))
  {
    hide Run, Chars, NonZero;
    var all := polls + [p];
    assert all[..|all| - 1] == polls;
    ThreeOps(Trace([], []), Ops(shift, serialExists, polls), PollOps(Run(shift, Scancodes(polls)), serialExists, p));
    NoScancodes(shift);
  }

  /** Characters are read in the order in which they come in, and none is lost or invented, if and
      only if no poll brings more than the ring has room for. */
  lemma TypingIsLossless(s: Input, serialExists: bool, polls: seq<Poll>)
    requires |s.pending| < CONSBUFSIZE
    ensures var t := GetcAll(Typing(s, []), serialExists, polls);
      t.keys + t.input.pending == s.pending + Arrived(s.shift, serialExists, polls)
      <==> NoOverrun(Trace(s.pending, []), Ops(s.shift, serialExists, polls))
  {
    hide RunOps, Ops, Delivered, NoOverrun, GetcAll;
    PollsAreOps(Typing(s, []), serialExists, polls);
    LosslessQueue(Trace(s.pending, []), Ops(s.shift, serialExists, polls));
    assert [] + s.pending == s.pending;
  }

  /** Without a serial port, what comes in is what the scancode machine makes of all scancodes. */
  lemma {:induction false} KeyboardOnly(shift: Flags, polls: seq<Poll>)
    ensures Arrived(shift, false, polls) == NonZero(Chars(shift, Scancodes(polls)))
    decreases |polls|
  {
    hide Run, Chars, NonZero;
    if polls == [] {
      NoScancodes(shift);
    } else {
      var init, p := polls[..|polls| - 1], polls[|polls| - 1];
      KeyboardOnly(shift, init);
      var more := PollOps(Run(shift, Scancodes(init)), false, p);
      ThreeOps(Trace([], []), Ops(shift, false, init), more);
      CharsAppend(shift, Scancodes(init), p.scancodes);
      NonZeroAppend(Chars(shift, Scancodes(init)), Chars(Run(shift, Scancodes(init)), p.scancodes));
      NoScancodes(shift);
    }
  }

  lemma NoScancodes(shift: Flags)
    ensures NonZero([]) == [] && Chars(shift, []) == [] && Run(shift, []) == shift
  {
  }

  lemma NothingBursts(pending: seq<u8>)
    ensures Burst(pending, []) == pending
  {
  }

  lemma ScancodeStep(was: seq<u8>, shift: Flags, scancodes: seq<u8>, i: nat)
    requires i < |scancodes|
    ensures var before, c := scancodes[..i], Char(Run(shift, scancodes[..i]), scancodes[i]);
      && Run(shift, scancodes[..i + 1]) == Next(Run(shift, before), scancodes[i])
      && Burst(was, Chars(shift, scancodes[..i + 1]))
         == (if c == 0 then Burst(was, Chars(shift, before)) else Push(Burst(was, Chars(shift, before)), c))
  {
    hide Next, Char, Push;
    var before, now := scancodes[..i], scancodes[..i + 1];
    assert now[..i] == before;
    assert Chars(shift, now)[..i] == Chars(shift, before);
  }

  /** None of the first `n` polls leaves a character behind. */
  ghost predicate NothingYet(s: Input, serialExists: bool, polls: seq<Poll>, n: int) {
    forall k :: 0 < k <= n && k <= |polls| ==> PollAll(s, serialExists, polls[..k]).pending == []
  }

  lemma NoPoll(s: Input, serialExists: bool)
    ensures PollAll(s, serialExists, []) == s && GetcAll(Typing(s, []), serialExists, []) == Typing(s, [])
  {
  }

  lemma PollAllStep(s: Input, serialExists: bool, polls: seq<Poll>, k: nat)
    requires k < |polls|
    ensures PollAll(s, serialExists, polls[..k + 1])
         == PollOnce(PollAll(s, serialExists, polls[..k]), serialExists, polls[k])
  {
    assert polls[..k + 1][..k] == polls[..k];
  }

  // ----- The code -----

  class ConsBuf {
    const buf: array<u8>
    var rpos: nat
    var wpos: nat

    ghost predicate Valid()
      reads this, buf
    {
      buf.Length == CONSBUFSIZE && rpos < CONSBUFSIZE && wpos < CONSBUFSIZE && 0 !in Pending()
    }

    ghost function Pending(): (s: seq<u8>)
      requires buf.Length == CONSBUFSIZE && rpos < CONSBUFSIZE && wpos < CONSBUFSIZE
      reads this, buf
      ensures |s| < CONSBUFSIZE
    {
      if rpos <= wpos then buf[rpos..wpos] else buf[rpos..] + buf[..wpos]
    }

    constructor ()
      ensures Valid() && Pending() == [] && fresh(buf)
    {
      buf := new u8[CONSBUFSIZE];
      rpos, wpos := 0, 0;
    }

    method Store(c: u8)
      requires Valid() && c != 0
      modifies this`wpos, buf
      ensures Valid() && Pending() == Push(old(Pending()), c)
    {
      buf[wpos] := c;
      wpos := wpos + 1;
      if wpos == CONSBUFSIZE {
        wpos := 0;
      }
      assert Pending() == Push(old(Pending()), c);
    }

    /** `cs` is what the device routine returns before its first -1. */
    method ConsIntr(cs: seq<u8>)
      requires Valid()
      modifies this`wpos, buf
      ensures Valid() && Pending() == Burst(old(Pending()), cs)
      ensures Pending() == Survivors(old(Pending()) + NonZero(cs))
    {
      ghost var was := Pending();
      BurstLaw(was, cs);
      for i := 0 to |cs|
        invariant Valid() && Pending() == Burst(was, cs[..i])
      {
        assert cs[..i + 1][..i] == cs[..i];
        if cs[i] != 0 {
          Store(cs[i]);
        }
      }
      assert cs[..|cs|] == cs;
    }

    /** The bytes waiting at the keyboard port go through the scancode machine one by one. */
    method KbdIntr(kbd: Kbd, scancodes: seq<u8>)
      requires Valid()
      modifies this`wpos, buf, kbd
      ensures Valid() && kbd.shift == Run(old(kbd.shift), scancodes)
      ensures Pending() == Burst(old(Pending()), Chars(old(kbd.shift), scancodes))
    {
      hide Run, Chars, Burst, Push, Next, Char, Pending;
      ghost var was, shift := Pending(), kbd.shift;
      NoScancodes(shift);
      NothingBursts(was);
      for i := 0 to |scancodes|
        invariant Valid() && kbd.shift == Run(shift, scancodes[..i])
        invariant Pending() == Burst(was, Chars(shift, scancodes[..i]))
      {
        ScancodeStep(was, shift, scancodes, i);
        var c, reboot := kbd.KbdProcData(true, false, scancodes[i]);
        if c != 0 {
          Store(c);
        }
      }
      assert scancodes[..|scancodes|] == scancodes;
    }

    /** Poll the serial port and the keyboard, then take one character; 0 if none waits. */
    method ConsGetc(kbd: Kbd, serialExists: bool, p: Poll) returns (c: u8)
      requires Valid()
      modifies this, buf, kbd
      ensures Valid()
      ensures var polled := PollOnce(Input(old(Pending()), old(kbd.shift)), serialExists, p);
        && kbd.shift == polled.shift
        && if polled.pending == [] then c == 0 && Pending() == []
           else c != 0 && [c] + Pending() == polled.pending
    {
      if serialExists {
        ConsIntr(p.serialIn);
      }
      KbdIntr(kbd, p.scancodes);
      c := Take();
    }

    /** The busy wait of `getchar`; `polls` is what the devices will deliver. The first `used` polls
        are needed, none of the earlier ones leaves a character behind, and the result is the first
        character of everything that has come in. With 0, the wait goes on beyond `polls`. */
    method Getchar(kbd: Kbd, serialExists: bool, polls: seq<Poll>) returns (c: u8, used: nat)
      requires Valid()
      modifies this, buf, kbd
      ensures Valid() && used <= |polls|
      ensures var start := Input(old(Pending()), old(kbd.shift));
        && kbd.shift == PollAll(start, serialExists, polls[..used]).shift
        && NothingYet(start, serialExists, polls, used - 1)
        && if c == 0 then used == |polls| && Pending() == PollAll(start, serialExists, polls).pending
           else used > 0 && [c] + Pending() == PollAll(start, serialExists, polls[..used]).pending
      ensures var start := Typing(Input(old(Pending()), old(kbd.shift)), []);
        && GetcAll(start, serialExists, polls[..used])
           == Typing(Input(Pending(), kbd.shift), if c == 0 then [] else [c])
        && (c != 0 ==> GetcAll(start, serialExists, polls[..used - 1]).keys == [])
    {
      hide PollOnce, PollAll, GetcAll, Run, Chars, Burst, Pending;
      ghost var start := Input(Pending(), kbd.shift);
      NoPoll(start, serialExists);
      used := 0;
      c := 0;
      while used < |polls|
        invariant Valid() && used <= |polls| && c == 0
        invariant Input(Pending(), kbd.shift) == PollAll(start, serialExists, polls[..used])
        invariant GetcAll(Typing(start, []), serialExists, polls[..used]) == Typing(Input(Pending(), kbd.shift), [])
        invariant NothingYet(start, serialExists, polls, used)
      {
        PollAllStep(start, serialExists, polls, used);
        GetcStep(Typing(start, []), serialExists, polls, used);
        c := ConsGetc(kbd, serialExists, polls[used]);
        used := used + 1;
        if c != 0 {
          return;
        }
      }
      assert polls[..used] == polls;
    }

    /** The next character of the ring, or 0. */
    method Take() returns (c: u8)
      requires Valid()
      modifies this`rpos
      ensures Valid()
      ensures if old(Pending()) == [] then c == 0 && Pending() == [] else c != 0 && [c] + Pending() == old(Pending())
    {
      if rpos != wpos {
        c := buf[rpos];
        rpos := rpos + 1;
        if rpos == CONSBUFSIZE {
          rpos := 0;
        }
        assert [c] + Pending() == old(Pending());
        assert c in old(Pending()) && forall x :: x in Pending() ==> x in [c] + Pending();
      } else {
        c := 0;
      }
    }
  }
}
