/** The line editor, and the theorem that the screen always shows what is in its buffer. */
module Readline {
  import opened Machine
  import opened Strings
  import opened Memory
  import Printfmt
  import RoundTrip
  import opened Screen

  const BUFLEN: nat := 1024
  const DEL: int := 127

  /** What `getchar` returns: a byte, or a negative error code. */
  type Key = c: int | -0x8000_0000 <= c < TWO_8

  // ----- The edit rules -----

  /** The line so far and the characters echoed for it. */
  datatype Editor =
    | Editing(line: seq<u8>, echo: seq<int>)
    | Returned(line: seq<u8>, echo: seq<int>)
    | Failed(code: int, line: seq<u8>, echo: seq<int>)

  const START: Editor := Editing([], [])

  /** One key. A DEL on an empty line is a character like any other; a full line takes none. */
  function Step(st: Editor, c: Key): Editor {
    if !st.Editing? then st
    else if c < 0 then Failed(c, st.line, st.echo)
    else if (c == BACKSPACE || c == DEL) && st.line != [] then
      Editing(st.line[..|st.line| - 1], st.echo + [BACKSPACE])
    else if c >= SPACE && |st.line| < BUFLEN - 1 then Editing(st.line + [c], st.echo + [c])
    else if c == NEWLINE || c == RETURN then Returned(st.line, st.echo + [NEWLINE])
    else st
  }

  function Run(keys: seq<Key>): Editor {
    if keys == [] then START else Step(Run(keys[..|keys| - 1]), keys[|keys| - 1])
  }

  lemma RunNothing()
    ensures Run([]) == START
  {
  }

  lemma RunStep(keys: seq<Key>, k: nat)
    requires k < |keys|
    ensures Run(keys[..k + 1]) == Step(Run(keys[..k]), keys[k])
  {
    assert keys[..k + 1][..k] == keys[..k];
  }

  /** Keys after the end of the line are not looked at. */
  lemma {:induction false} RunStops(keys: seq<Key>, k: nat)
    requires k <= |keys| && !Run(keys[..k]).Editing?
    ensures Run(keys) == Run(keys[..k])
    decreases |keys|
  {
    if k < |keys| {
      assert keys[..|keys| - 1][..k] == keys[..k];
      RunStops(keys[..|keys| - 1], k);
    } else {
      assert keys[..k] == keys;
    }
  }

  /** A line never holds a NUL or another control character, and always leaves room for the NUL. */
  lemma {:induction false} LineIsText(keys: seq<Key>)
    ensures var line := Run(keys).line;
      |line| < BUFLEN && forall j :: 0 <= j < |line| ==> line[j] >= SPACE
  {
    if keys != [] {
      LineIsText(keys[..|keys| - 1]);
    }
  }

  // ----- What the keys do -----

  lemma RunAfter(keys: seq<Key>, c: Key)
    ensures Run(keys + [c]) == Step(Run(keys), c)
  {
    assert (keys + [c])[..|keys|] == keys;
  }

  /** Does a key end the edit? A newline, a carriage return, or an error of `getchar`. */
  predicate IsEnd(c: Key) {
    c < 0 || c == '\n' as int || c == '\r' as int
  }

  lemma {:induction false} OngoingIff(keys: seq<Key>)
    ensures Run(keys).Editing? <==> forall k :: 0 <= k < |keys| ==> !IsEnd(keys[k])
  {
    if keys != [] {
      OngoingIff(keys[..|keys| - 1]);
    }
  }

  /** The first key that ends the edit decides: an error is handed on, and Enter, in either form,
      returns the line in front of it. What comes behind does not matter. */
  lemma FirstEnd(keys: seq<Key>, k: nat)
    requires k < |keys| && IsEnd(keys[k]) && forall j :: 0 <= j < k ==> !IsEnd(keys[j])
    ensures var before := Run(keys[..k]);
      && before.Editing?
      && Run(keys) == if keys[k] < 0 then Failed(keys[k], before.line, before.echo)
                      else Returned(before.line, before.echo + [10])
  {
    hide Run;
    OngoingIff(keys[..k]);
    RunStep(keys, k);
    RunStops(keys, k + 1);
  }

  /** Whether keys from a device that reports no errors finish a line. */
  lemma {:induction false} ReturnedIff(keys: seq<Key>)
    requires forall k :: 0 <= k < |keys| ==> keys[k] >= 0
    ensures Run(keys).Returned? <==> exists k :: 0 <= k < |keys| && keys[k] in {10, 13}
  {
    OngoingIff(keys);
    NoFailure(keys);
    assert forall k :: 0 <= k < |keys| ==> (IsEnd(keys[k]) <==> keys[k] in {10, 13});
  }

  lemma {:induction false} NoFailure(keys: seq<Key>)
    requires forall k :: 0 <= k < |keys| ==> keys[k] >= 0
    ensures !Run(keys).Failed?
  {
    if keys != [] {
      NoFailure(keys[..|keys| - 1]);
    }
  }

  /** Text without a DEL is taken and echoed as it is, up to 1023 characters. */
  lemma {:induction false} TextIsTaken(keys: seq<Key>)
    requires forall k :: 0 <= k < |keys| ==> 32 <= keys[k] <= 255 && keys[k] != 127
    ensures var st, n := Run(keys), Min(|keys|, 1023);
      st.Editing? && st.line == keys[..n] && st.echo == keys[..n]
  {
    if keys != [] {
      var init := keys[..|keys| - 1];
      TextIsTaken(init);
      if |keys| <= 1023 {
        assert keys == init + [keys[|keys| - 1]];
      } else {
        assert keys[..1023] == init[..1023];
      }
    }
  }

  /** Backspace and DEL take the last character away, and echo a backspace. */
  lemma Erases(keys: seq<Key>, e: Key)
    requires Run(keys).Editing? && Run(keys).line != [] && e in {8, 127}
    ensures var st, st' := Run(keys), Run(keys + [e]);
      st' == Editing(st.line[..|st.line| - 1], st.echo + [8])
  {
    hide Run;
    RunAfter(keys, e);
  }

  /** Any other text is appended and echoed, and so is a DEL on an empty line. */
  lemma Inserts(keys: seq<Key>, c: Key)
    requires Run(keys).Editing? && |Run(keys).line| < 1023 && 32 <= c && (c != 127 || Run(keys).line == [])
    ensures var st := Run(keys); Run(keys + [c]) == Editing(st.line + [c], st.echo + [c])
  {
    hide Run;
    RunAfter(keys, c);
  }

  /** Erasing right behind an inserted character restores the line. */
  lemma EraseRestores(keys: seq<Key>, c: Key, e: Key)
    requires Run(keys).Editing? && |Run(keys).line| < 1023 && e in {8, 127}
    requires 32 <= c && (c != 127 || Run(keys).line == [])
    ensures var st := Run(keys); Run(keys + [c] + [e]) == Editing(st.line, st.echo + [c] + [8])
  {
    hide Run;
    Inserts(keys, c);
    Erases(keys + [c], e);
    var line := Run(keys).line;
    assert (line + [c])[..|line|] == line;
  }

  /** Without effect are the other control characters, a backspace on an empty line, and text on a
      full one. */
  lemma Ignored(keys: seq<Key>, c: Key)
    requires Run(keys).Editing? && c >= 0
    requires var n := |Run(keys).line|;
      if c < 32 then c !in {8, 10, 13} || (c == 8 && n == 0) else n >= 1023 && c != 127
    ensures Run(keys + [c]) == Run(keys)
  {
    RunAfter(keys, c);
  }

  // ----- The screen shows the buffer -----

  /** On the roll `t'` the line starts where the cursor of `t` was, and ends at the cursor; nothing
      in front of it has changed, and its start is still visible. */
  ghost predicate Shows(t: Roll, t': Roll, line: seq<u8>) {
    && t.Wf() && t'.Wf() && |line| < BUFLEN
    && t'.cur == t.cur + |line|
    && (forall j :: 0 <= j < |line| ==> t'.cells[t.cur + j] == ATTRIBUTE + line[j])
    && |t.cells| <= |t'.cells| && t'.cells[..t.cur] == t.cells[..t.cur]
    && (t'.Top() == t.Top() || t'.Top() + CRT_SIZE - CRT_COLS <= t.cur + BUFLEN - 1)
  }

  /** A line is shorter than the screen, so its start cannot have scrolled off. */
  lemma StartIsVisible(t: Roll, t': Roll, line: seq<u8>)
    requires Shows(t, t', line)
    ensures t'.Top() <= t.cur
  {
  }

  lemma InsertShows(t: Roll, t': Roll, line: seq<u8>, c: u8)
    requires Shows(t, t', line) && c >= SPACE && |line| < BUFLEN - 1
    ensures Shows(t, Put(t', c), line + [c])
  {
    assert Glyph(c) == ATTRIBUTE + c;
  }

  lemma EraseShows(t: Roll, t': Roll, line: seq<u8>)
    requires Shows(t, t', line) && line != []
    ensures Shows(t, Put(t', BACKSPACE), line[..|line| - 1])
    ensures Put(t', BACKSPACE).cells[t.cur + |line| - 1] == BLANK
  {
    StartIsVisible(t, t', line);
  }

  /** For every sequence of keys, typed on any screen: at every step the cells from the start of
      the edit to the cursor are the characters of the buffer, across line wraps, scrolls and
      erasures. */
  lemma {:induction false} EchoShowsLine(t: Roll, keys: seq<Key>)
    requires t.Wf() && Run(keys).Editing?
    ensures Shows(t, PutAll(t, Run(keys).echo), Run(keys).line)
  {
    hide Put, PutAll, Shows;
    if keys != [] {
      var init, c := keys[..|keys| - 1], keys[|keys| - 1];
      var st := Run(init);
      EchoShowsLine(t, init);
      var t' := PutAll(t, st.echo);
      LineIsText(init);
      if (c == BACKSPACE || c == DEL) && st.line != [] {
        PutAllAppend(t, st.echo, BACKSPACE);
        EraseShows(t, t', st.line);
      } else if c >= SPACE && |st.line| < BUFLEN - 1 {
        PutAllAppend(t, st.echo, c);
        InsertShows(t, t', st.line, c);
      }
    } else {
      NothingShown(t);
    }
  }

  lemma NothingShown(t: Roll)
    requires t.Wf()
    ensures Shows(t, PutAll(t, []), [])
  {
  }

  /** The line where the edit started, and the cursor at the start of a row behind it. */
  ghost predicate ShowsFinished(t: Roll, t': Roll, line: seq<u8>) {
    && t'.cur % CRT_COLS == 0 && t'.cur > t.cur + |line| - 1 && |t'.cells| >= t.cur + |line|
    && forall j :: 0 <= j < |line| ==> t'.cells[t.cur + j] == ATTRIBUTE + line[j]
  }

  /** The finished line stays on the screen, and the cursor is at the start of the next row. */
  lemma FinishedLineIsShown(t: Roll, keys: seq<Key>, k: nat)
    requires t.Wf() && k < |keys| && Run(keys[..k]).Editing? && Run(keys[..k + 1]).Returned?
    ensures Run(keys).Returned? && ShowsFinished(t, PutAll(t, Run(keys).echo), Run(keys).line)
  {
    hide PutAll, Put, Shows, ShowsFinished;
    var st := Run(keys[..k]);
    assert keys[..k + 1][..k] == keys[..k];
    RunStops(keys, k + 1);
    EchoShowsLine(t, keys[..k]);
    PutAllAppend(t, st.echo, NEWLINE);
    NewlineShows(t, PutAll(t, st.echo), st.line);
  }

  lemma NewlineShows(t: Roll, t': Roll, line: seq<u8>)
    requires Shows(t, t', line)
    ensures ShowsFinished(t, Put(t', NEWLINE), line)
  {
    ColumnOf(0, t'.cur);
  }

  /** What the screen shows of an edit that began on `t`, whether it goes on or has ended. */
  ghost predicate OnScreen(t: Roll, st: Editor)
    requires t.Wf()
  {
    var t' := PutAll(t, st.echo);
    if st.Returned? then ShowsFinished(t, t', st.line) else Shows(t, t', st.line)
  }

  lemma {:induction false} EditIsOnScreen(t: Roll, keys: seq<Key>)
    requires t.Wf()
    ensures OnScreen(t, Run(keys))
  {
    hide PutAll, Shows, ShowsFinished;
    if Run(keys).Editing? {
      EchoShowsLine(t, keys);
    } else {
      LastKeyIsOnScreen(t, keys);
    }
  }

  lemma {:induction false} LastKeyIsOnScreen(t: Roll, keys: seq<Key>)
    requires t.Wf() && !Run(keys).Editing?
    ensures OnScreen(t, Run(keys))
  {
    hide Put, PutAll, Shows, ShowsFinished;
    var init := keys[..|keys| - 1];
    if Run(init).Editing? {
      EchoShowsLine(t, init);
      if Run(keys).Returned? {
        assert keys[..|keys|] == keys;
        FinishedLineIsShown(t, keys, |keys| - 1);
      }
    } else {
      LastKeyIsOnScreen(t, init);
    }
  }

  // ----- What is written for an edit -----

  const PERCENT_S: CString := CText("%s")
  const READ_ERROR: CString := CText("read error: %e\n")
  // Where the prompt lies in memory; any address but NULL
  const PROMPT: u32 := 0xF010_0000

  ghost function PromptText(prompt: Option<CString>): seq<int> {
    match prompt
    case None => []
    case Some(p) => Printfmt.Format(PERCENT_S, 0, [Printfmt.Str(PROMPT, p)], 0).out
  }

  ghost function ReadErrorText(code: int): seq<int> {
    Printfmt.Format(READ_ERROR, 0, [Printfmt.W32(code % TWO_32)], 0).out
  }

  ghost function ErrorText(st: Editor): seq<int> {
    if st.Failed? then ReadErrorText(st.code) else []
  }

  /** The prompt, the echo, and the message after a read error. */
  ghost function Output(prompt: Option<CString>, st: Editor): seq<int> {
    PromptText(prompt) + (st.echo + ErrorText(st))
  }

  /** The screen after the prompt. */
  ghost function Prompted(t: Roll, prompt: Option<CString>): (t': Roll)
    requires t.Wf()
    ensures t'.Wf()
  {
    PutAll(t, PromptText(prompt))
  }

  /** An ASCII prompt is written as it is, and nothing without one. */
  lemma PromptIsText(p: CString)
    requires forall k :: 0 <= k < |p| ==> p[k] < 128
    ensures PromptText(Some(p)) == Text(p) && PromptText(None) == []
  {
    hide Printfmt.Format;
    RoundTrip.PlainString(PROMPT, p);
  }

  /** The message after a read error names the error. */
  lemma ReadErrorMessage(code: i32)
    requires INT_MIN < code < 0
    ensures ReadErrorText(code) == Ascii("read error: ") + RoundTrip.ErrorMessage(-code) + Ascii("\n")
  {
    hide Printfmt.Format, Printfmt.Convert, CText, Ascii, RoundTrip.ErrorMessage;
    var args := [RoundTrip.IntArg(code, 0)];
    ReadErrorParts();
    RoundTrip.ErrorConversion(-code, true);
    Printfmt.TextAround(Ascii("read error: "), 'e' as int, Ascii("\n"), args);
  }

  lemma ReadErrorParts()
    ensures var pre, post := Ascii("read error: "), Ascii("\n");
      && Printfmt.PERCENT !in pre && NUL !in pre && Printfmt.PERCENT !in post && NUL !in post
      && READ_ERROR == pre + [Printfmt.PERCENT, 'e' as int] + post + [NUL]
  {
    hide CText, Ascii;
    assert "read error: %e\n" == "read error: " + "%e" + "\n";
    RoundTrip.AsciiConcat("read error: ", "%e", "\n");
    assert Ascii("%e") == [Printfmt.PERCENT, 'e' as int];
    assert READ_ERROR == Ascii("read error: %e\n") + [NUL];
  }

  /** Since the screen was `t` and the ports had sent `serial` and `lpt`, `out` has been written. */
  ghost predicate Written(cons: Console, t: Roll, serial: seq<int>, lpt: seq<int>, out: seq<int>)
    requires t.Wf()
    reads cons, cons.crtBuf
  {
    && cons.Valid() && cons.Paper() == PutAll(t, out)
    && cons.serial == serial + WireAll(out) && cons.lpt == lpt + WireAll(out)
  }

  lemma WrittenMore(cons: Console, t: Roll, serial: seq<int>, lpt: seq<int>, x: seq<int>, y: seq<int>)
    requires t.Wf() && Written(cons, PutAll(t, x), serial + WireAll(x), lpt + WireAll(x), y)
    ensures Written(cons, t, serial, lpt, x + y)
  {
    hide PutAll, WireAll;
    PutAllConcat(t, x, y);
    WiredMore(serial, x, y);
    WiredMore(lpt, x, y);
  }

  lemma WiredMore(before: seq<int>, x: seq<int>, y: seq<int>)
    ensures before + WireAll(x) + WireAll(y) == before + WireAll(x + y)
  {
    hide WireAll;
    WireConcat(x, y);
  }

  // ----- The code -----

  /** `Blocked`: no key is left, and the editor waits in `getchar`. */
  datatype Outcome = Line | ReadError | Blocked

  function OutcomeOf(st: Editor): Outcome {
    match st
    case Editing(_, _) => Blocked
    case Returned(_, _) => Line
    case Failed(_, _, _) => ReadError
  }

  /** The line in the buffer, terminated once it is finished. */
  ghost predicate Buffered(buf: seq<u8>, st: Editor) {
    && |st.line| < BUFLEN == |buf| && buf[..|st.line|] == st.line
    && (st.Returned? ==> buf[|st.line|] == NUL)
  }

  method Cprintf(cons: Console, fmt: CString, args: seq<Printfmt.Arg>)
    requires cons.Valid()
    modifies cons, cons.crtBuf
    ensures Written(cons, old(cons.Paper()), old(cons.serial), old(cons.lpt), Printfmt.Format(fmt, 0, args, 0).out)
  {
    var r := Printfmt.VPrintFmt(fmt, args);
    cons.ConsPuts(r.out);
  }

  /** The state in front of the next key. */
  ghost predicate InEdit(cons: Console, buf: array<u8>, i: nat, t: Roll, serial: seq<int>, lpt: seq<int>, st: Editor)
    requires t.Wf()
    reads cons, cons.crtBuf, buf
  {
    && st.Editing? && i == |st.line| && buf != cons.crtBuf
    && Written(cons, t, serial, lpt, st.echo) && Buffered(buf[..], st)
  }

  /** What the loop over the keys keeps, up to its end. */
  ghost predicate Ongoing(cons: Console, buf: array<u8>, i: nat, t: Roll, serial: seq<int>, lpt: seq<int>, st: Editor)
    requires t.Wf()
    reads cons, cons.crtBuf, buf
  {
    && (st.Editing? ==> InEdit(cons, buf, i, t, serial, lpt, st))
    && Written(cons, t, serial, lpt, st.echo + ErrorText(st)) && Buffered(buf[..], st)
  }

  /** One more character behind those already written. */
  method Echo(cons: Console, c: int, ghost t: Roll, ghost serial: seq<int>, ghost lpt: seq<int>, ghost echo: seq<int>)
    requires t.Wf() && Written(cons, t, serial, lpt, echo)
    modifies cons, cons.crtBuf
    ensures Written(cons, t, serial, lpt, echo + [c])
  {
    hide Put, PutAll, Wire, WireAll;
    PutAllAppend(t, echo, c);
    WireAppend(serial, echo, c);
    WireAppend(lpt, echo, c);
    cons.ConsPutc(c);
  }

  method Fail(cons: Console, code: int, ghost t: Roll, ghost serial: seq<int>, ghost lpt: seq<int>,
              ghost echo: seq<int>)
    requires t.Wf() && Written(cons, t, serial, lpt, echo)
    modifies cons, cons.crtBuf
    ensures Written(cons, t, serial, lpt, echo + ReadErrorText(code))
  {
    hide PutAll, WireAll, Printfmt.Format;
    Cprintf(cons, READ_ERROR, [Printfmt.W32(code % TWO_32)]);
    WrittenMore(cons, t, serial, lpt, echo, ReadErrorText(code));
  }

  /** The body of the loop: one key. The loop goes on while there is no outcome. */
  method EditKey(cons: Console, buf: array<u8>, i0: nat, c: Key, ghost t: Roll, ghost serial: seq<int>,
                 ghost lpt: seq<int>, ghost st: Editor)
    returns (i: nat, outcome: Option<Outcome>)
    requires t.Wf() && st.Editing? && Ongoing(cons, buf, i0, t, serial, lpt, st)
    modifies cons, cons.crtBuf, buf
    ensures var st' := Step(st, c);
      && outcome == (if st'.Editing? then None else Some(OutcomeOf(st')))
      && Ongoing(cons, buf, i, t, serial, lpt, st')
  {
    hide Written, ReadErrorText;
    i, outcome := i0, None;
    assert Step(st, c).Failed? || Step(st, c).echo + [] == Step(st, c).echo;
    if c < 0 {
      Fail(cons, c, t, serial, lpt, st.echo);
      outcome := Some(ReadError);
    } else if (c == BACKSPACE || c == DEL) && i > 0 {
      Echo(cons, BACKSPACE, t, serial, lpt, st.echo);
      i := i - 1;
      assert buf[..][..i] == st.line[..i];
    } else if c >= SPACE && i < BUFLEN - 1 {
      Echo(cons, c, t, serial, lpt, st.echo);
      buf[i] := ToByte(c);
      i := i + 1;
      assert buf[..][..i] == st.line + [c];
    } else if c == NEWLINE || c == RETURN {
      Echo(cons, NEWLINE, t, serial, lpt, st.echo);
      buf[i] := NUL;
      outcome := Some(Line);
      assert buf[..][..i] == st.line;
    }
  }

  method Prompt(cons: Console, buf: array<u8>, prompt: Option<CString>)
    requires cons.Valid() && buf.Length == BUFLEN && buf != cons.crtBuf
    modifies cons, cons.crtBuf
    ensures var w := WireAll(PromptText(prompt));
      Ongoing(cons, buf, 0, Prompted(old(cons.Paper()), prompt), old(cons.serial) + w, old(cons.lpt) + w, START)
  {
    hide PutAll, WireAll, Printfmt.Format;
    if prompt.Some? {
      Cprintf(cons, PERCENT_S, [Printfmt.Str(PROMPT, prompt.value)]);
    }
    PutNothing(old(cons.Paper()));
    PutNothing(Prompted(old(cons.Paper()), prompt));
    WireNothing();
    assert [] + ErrorText(START) == [];
    assert cons.serial + [] == cons.serial && cons.lpt + [] == cons.lpt;
    assert buf[..][..0] == [];
  }

  /** What has been written, counted from before the prompt, and what the screen shows. */
  ghost predicate Displayed(cons: Console, t: Roll, serial: seq<int>, lpt: seq<int>, prompt: Option<CString>,
                            st: Editor)
    requires t.Wf()
    reads cons, cons.crtBuf
  {
    && Written(cons, t, serial, lpt, Output(prompt, st)) && OnScreen(Prompted(t, prompt), st)
    && (!st.Failed? ==> cons.Paper() == PutAll(Prompted(t, prompt), st.echo))
  }

  lemma EditEnds(cons: Console, buf: array<u8>, i: nat, t: Roll, serial: seq<int>, lpt: seq<int>,
                 prompt: Option<CString>, keys: seq<Key>)
    requires t.Wf()
    requires var w := WireAll(PromptText(prompt));
      Ongoing(cons, buf, i, Prompted(t, prompt), serial + w, lpt + w, Run(keys))
    ensures Buffered(buf[..], Run(keys)) && Displayed(cons, t, serial, lpt, prompt, Run(keys))
  {
    hide Run, InEdit, Buffered, OnScreen, PutAll, WireAll;
    var st := Run(keys);
    WrittenMore(cons, t, serial, lpt, PromptText(prompt), st.echo + ErrorText(st));
    EditIsOnScreen(Prompted(t, prompt), keys);
    assert !st.Failed? ==> st.echo + ErrorText(st) == st.echo;
  }

  /** `keys` is what successive calls of `getchar` return. */
  method ReadLine(cons: Console, buf: array<u8>, prompt: Option<CString>, keys: seq<Key>) returns (outcome: Outcome)
    requires cons.Valid() && buf.Length == BUFLEN && buf != cons.crtBuf
    modifies cons, cons.crtBuf, buf
    ensures outcome == OutcomeOf(Run(keys)) && Buffered(buf[..], Run(keys))
    ensures Displayed(cons, old(cons.Paper()), old(cons.serial), old(cons.lpt), prompt, Run(keys))
  {
    hide Run, Step, Ongoing, Displayed, Buffered, PutAll, WireAll;
    ghost var t, w := Prompted(cons.Paper(), prompt), WireAll(PromptText(prompt));
    ghost var serial, lpt := cons.serial + w, cons.lpt + w;
    Prompt(cons, buf, prompt);
    RunNothing();
    var i: nat, k := 0, 0;
    while k < |keys|
      invariant 0 <= k <= |keys| && Run(keys[..k]).Editing?
      invariant Ongoing(cons, buf, i, t, serial, lpt, Run(keys[..k]))
    {
      RunStep(keys, k);
      var ended;
      i, ended := EditKey(cons, buf, i, keys[k], t, serial, lpt, Run(keys[..k]));
      k := k + 1;
      if ended.Some? {
        RunStops(keys, k);
        EditEnds(cons, buf, i, old(cons.Paper()), old(cons.serial), old(cons.lpt), prompt, keys);
        return ended.value;
      }
    }
    assert keys[..k] == keys;
    EditEnds(cons, buf, i, old(cons.Paper()), old(cons.serial), old(cons.lpt), prompt, keys);
    return Blocked;
  }
}
