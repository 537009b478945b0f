/** The line editor on the console itself: from scancodes and serial bytes to the finished line. */
module Terminal {
  import opened Machine
  import opened Strings
  import opened Screen
  import opened Readline
  import opened ConsoleInput
  import Keyboard

  /** One call of `getchar`, with `from` polls behind it that have brought `keys`. */
  method NextKey(ring: ConsBuf, kbd: Keyboard.Kbd, serialExists: bool, polls: seq<Poll>, from: nat,
                 ghost start: Typing, ghost keys: seq<u8>)
    returns (c: u8, used: nat)
    requires ring.Valid() && from <= |polls|
    requires GetcAll(start, serialExists, polls[..from]) == Typing(Input(ring.Pending(), kbd.shift), keys)
    modifies ring, ring.buf, kbd
    ensures ring.Valid() && from <= used <= |polls|
    ensures GetcAll(start, serialExists, polls[..used])
         == Typing(Input(ring.Pending(), kbd.shift), if c == 0 then keys else keys + [c])
    ensures if c == 0 then used == |polls|
            else used > from && GetcAll(start, serialExists, polls[..used - 1]).keys == keys
  {
    hide GetcAll, PollAll, NothingYet, ConsBuf.Pending;
    ghost var done := polls[..from];
    var more := polls[from..];
    var n;
    c, n := ring.Getchar(kbd, serialExists, more);
    used := from + n;
    GetcAppend(start, serialExists, done, more[..n]);
    assert done + more[..n] == polls[..used] && keys + [] == keys;
    if c != 0 {
      GetcAppend(start, serialExists, done, more[..n - 1]);
      assert done + more[..n - 1] == polls[..used - 1];
    }
  }

  /** `readline` with `getchar`: it waits until a poll of the devices leaves a character, and takes
      one for each turn of its loop. Of `polls`, what the devices will deliver, the first `used` are
      needed: the last of them brings the end of the line. When they run out, it waits for more. */
  method ReadTypedLine(cons: Console, ring: ConsBuf, kbd: Keyboard.Kbd, serialExists: bool, buf: array<u8>,
                       prompt: Option<CString>, polls: seq<Poll>)
    returns (outcome: Outcome, used: nat)
    requires cons.Valid() && ring.Valid() && buf.Length == BUFLEN
    requires buf != cons.crtBuf && ring.buf != cons.crtBuf && ring.buf != buf
    modifies cons, cons.crtBuf, ring, ring.buf, kbd, buf
    ensures ring.Valid() && used <= |polls|
    ensures var start := Typing(Input(old(ring.Pending()), old(kbd.shift)), []);
      var typed := GetcAll(start, serialExists, polls[..used]);
      && typed.input == Input(ring.Pending(), kbd.shift)
      && outcome == OutcomeOf(Run(typed.keys)) && outcome != ReadError
      && Buffered(buf[..], Run(typed.keys))
      && Displayed(cons, old(cons.Paper()), old(cons.serial), old(cons.lpt), prompt, Run(typed.keys))
      && if outcome == Blocked then used == |polls|
         else used > 0 && Run(GetcAll(start, serialExists, polls[..used - 1]).keys).Editing?
  {
    hide Run, Readline.Step, Ongoing, Displayed, Buffered, PutAll, WireAll, GetcAll, PollAll, NothingYet,
      ConsBuf.Pending;
    ghost var t, w := Prompted(cons.Paper(), prompt), WireAll(PromptText(prompt));
    ghost var serial, lpt := cons.serial + w, cons.lpt + w;
    ghost var start := Typing(Input(ring.Pending(), kbd.shift), []);
    ghost var keys: seq<u8> := [];
    Prompt(cons, buf, prompt);
    RunNothing();
    NoPoll(start.input, serialExists);
    var i: nat := 0;
    used := 0;
    outcome := Blocked;
    while used < |polls| && outcome == Blocked
      invariant ring.Valid() && used <= |polls| && outcome == OutcomeOf(Run(keys))
      invariant GetcAll(start, serialExists, polls[..used]) == Typing(Input(ring.Pending(), kbd.shift), keys)
      invariant Ongoing(cons, buf, i, t, serial, lpt, Run(keys))
      invariant outcome != Blocked ==>
        used > 0 && Run(GetcAll(start, serialExists, polls[..used - 1]).keys).Editing?
    {
      var c;
      c, used := NextKey(ring, kbd, serialExists, polls, used, start, keys);
      if c != 0 {
        RunAfter(keys, c);
        var ended;
        i, ended := EditKey(cons, buf, i, c, t, serial, lpt, Run(keys));
        keys := keys + [c];
        outcome := if ended.Some? then ended.value else Blocked;
      }
    }
    NoFailure(keys);
    EditEnds(cons, buf, i, old(cons.Paper()), old(cons.serial), old(cons.lpt), prompt, keys);
  }

  /** If the ring was never overrun, a finished line is what the edit rules make of everything that
      was waiting or has come in, in that order; what came in behind its end does not matter. */
  lemma LineOfEverything(s: Input, serialExists: bool, polls: seq<Poll>)
    requires |s.pending| < CONSBUFSIZE && NoOverrun(Trace(s.pending, []), Ops(s.shift, serialExists, polls))
    requires Run(GetcAll(Typing(s, []), serialExists, polls).keys).Returned?
    ensures Run(GetcAll(Typing(s, []), serialExists, polls).keys)
         == Run(s.pending + Arrived(s.shift, serialExists, polls))
  {
    hide Run, GetcAll, NoOverrun, Ops, Arrived;
    TypingIsLossless(s, serialExists, polls);
    var keys := GetcAll(Typing(s, []), serialExists, polls).keys;
    var all := s.pending + Arrived(s.shift, serialExists, polls);
    assert all[..|keys|] == keys;
    RunStops(all, |keys|);
  }

  /** On a machine without a serial port, that is the line which the scancode machine types. */
  lemma LineOfScancodes(s: Input, polls: seq<Poll>)
    requires |s.pending| < CONSBUFSIZE && NoOverrun(Trace(s.pending, []), Ops(s.shift, false, polls))
    requires Run(GetcAll(Typing(s, []), false, polls).keys).Returned?
    ensures Run(GetcAll(Typing(s, []), false, polls).keys)
         == Run(s.pending + NonZero(Keyboard.Chars(s.shift, Scancodes(polls))))
  {
    LineOfEverything(s, false, polls);
    KeyboardOnly(s.shift, polls);
  }
}
