/** The CGA text screen: a window on a roll of paper that only grows downwards. */
module Screen {
  import opened Machine
  import opened Memory

  const CRT_COLS: nat := 80
  const CRT_SIZE: nat := 2000

  const BACKSPACE: int := 8
  const TAB: int := 9
  const NEWLINE: int := 10
  const RETURN: int := 13
  const SPACE: int := 32
  const ATTRIBUTE: int := 0x0700
  const BLANK: u16 := 0x0720

  // ----- The roll: every cell ever on the screen, and the cursor -----

  datatype Roll = Roll(cells: seq<u16>, cur: nat) {
    /** The first visible cell. */
    function Top(): int { |cells| - CRT_SIZE }

    predicate Wf() {
      |cells| % CRT_COLS == 0 && 0 <= Top() <= cur < |cells|
    }
  }

  function Low(c: int): int { c % 0x100 }

  /** The attribute bits of a character, white on black if it has none. */
  function Attribute(c: int): int {
    if c == Low(c) then ATTRIBUTE else c - Low(c)
  }

  /** The cell that a character is stored as. */
  function Glyph(c: int): u16 {
    (Attribute(c) + Low(c)) % TWO_16
  }

  /** Move the cursor, and pull up one blank row when it leaves the screen. */
  function MoveTo(cells: seq<u16>, cur: nat): Roll {
    if cur >= |cells| then Roll(cells + Repeat(BLANK, CRT_COLS), cur) else Roll(cells, cur)
  }

  function Write(t: Roll, c: int): (t': Roll)
    requires t.Wf()
    ensures t'.Wf()
  {
    MoveTo(t.cells[t.cur := Glyph(c)], t.cur + 1)
  }

  /** A terminal on an unlimited roll of blank rows. Only backspace knows about the window: it
      stops at the first visible cell. */
  function Put(t: Roll, c: int): (t': Roll)
    requires t.Wf()
    ensures t'.Wf()
  {
    if Low(c) == BACKSPACE then
      if t.cur > t.Top() then Roll(t.cells[t.cur - 1 := (Attribute(c) + SPACE) % TWO_16], t.cur - 1) else t
    else if Low(c) == NEWLINE then MoveTo(t.cells, t.cur - t.cur % CRT_COLS + CRT_COLS)
    else if Low(c) == RETURN then t.(cur := t.cur - t.cur % CRT_COLS)
    else if Low(c) == TAB then Write(Write(Write(Write(Write(t, SPACE), SPACE), SPACE), SPACE), SPACE)
    else Write(t, c)
  }

  function PutAll(t: Roll, s: seq<int>): (t': Roll)
    requires t.Wf()
    ensures t'.Wf()
  {
    if s == [] then t else Put(PutAll(t, s[..|s| - 1]), s[|s| - 1])
  }

  /** Rows that have scrolled off never change, and the roll never shrinks. */
  lemma {:induction false} ScrolledRowsStay(t: Roll, s: seq<int>)
    requires t.Wf()
    ensures var t' := PutAll(t, s);
      |t.cells| <= |t'.cells| && t'.cells[..t.Top()] == t.cells[..t.Top()]
  {
    if s != [] {
      hide Put, PutAll;
      var mid := PutAll(t, s[..|s| - 1]);
      ScrolledRowsStay(t, s[..|s| - 1]);
      PutKeepsScrolled(mid, s[|s| - 1]);
      PutAllStep(t, s);
      assert t.cells[..t.Top()] == mid.cells[..mid.Top()][..t.Top()];
    } else {
      PutNothing(t);
    }
  }

  lemma PutNothing(t: Roll)
    requires t.Wf()
    ensures PutAll(t, []) == t
  {
  }

  lemma PutAllStep(t: Roll, s: seq<int>)
    requires t.Wf() && s != []
    ensures PutAll(t, s) == Put(PutAll(t, s[..|s| - 1]), s[|s| - 1])
  {
  }

  lemma PutKeepsScrolled(t: Roll, c: int)
    requires t.Wf()
    ensures var t' := Put(t, c);
      |t.cells| <= |t'.cells| && t'.cells[..t.Top()] == t.cells[..t.Top()]
  {
    if Low(c) == TAB {
      hide Write;
      var t1 := Write(t, SPACE);
      var t2 := Write(t1, SPACE);
      var t3 := Write(t2, SPACE);
      var t4 := Write(t3, SPACE);
      WriteKeepsScrolled(t, t, SPACE);
      WriteKeepsScrolled(t, t1, SPACE);
      WriteKeepsScrolled(t, t2, SPACE);
      WriteKeepsScrolled(t, t3, SPACE);
      WriteKeepsScrolled(t, t4, SPACE);
    }
  }

  lemma WriteKeepsScrolled(t: Roll, t': Roll, c: int)
    requires t.Wf() && t'.Wf() && |t.cells| <= |t'.cells| && t'.cells[..t.Top()] == t.cells[..t.Top()]
    ensures var u := Write(t', c);
      |t.cells| <= |u.cells| && u.cells[..t.Top()] == t.cells[..t.Top()]
  {
    var u := Write(t', c);
    assert forall k :: 0 <= k < t.Top() ==> u.cells[k] == t'.cells[..t.Top()][k];
  }

  /** Where the cursor goes: newline, carriage return, backspace, tab, and everything else. Only when
      it leaves the roll does the roll grow, by one row. */
  lemma CursorMoves(t: Roll, c: int)
    requires t.Wf()
    ensures var u, b := Put(t, c), c % 256;
      && u.cur == (if b == 10 then t.cur - t.cur % 80 + 80
                   else if b == 13 then t.cur - t.cur % 80
                   else if b == 8 then (if t.cur > |t.cells| - 2000 then t.cur - 1 else t.cur)
                   else if b == 9 then t.cur + 5
                   else t.cur + 1)
      && |u.cells| == |t.cells| + if u.cur >= |t.cells| then 80 else 0
  {
  }

  /** What it writes: the character, white on black unless it brings an attribute, at the cursor; spaces
      for a tab; a space over the character that a backspace takes away. New rows are blank. */
  lemma CellsWritten(t: Roll, c: int, k: nat)
    requires t.Wf() && k < |Put(t, c).cells|
    ensures var u, b := Put(t, c), c % 256;
      u.cells[k] == if k >= |t.cells| then 0x0720
                    else if b == 9 && t.cur <= k < t.cur + 5 then 0x0720
                    else if b == 8 && t.cur > |t.cells| - 2000 && k == t.cur - 1
                      then if 0 <= c < 256 then 0x0720 else (c - b + 32) % 65536
                    else if b !in {8, 9, 10, 13} && k == t.cur then if 0 <= c < 256 then 0x0700 + c else c % 65536
                    else t.cells[k]
  {
    if Low(c) == TAB {
      hide Write, Put;
      TabIsWrites(t, c);
      FiveSpacesWritten(t, k);
    }
  }

  lemma TabIsWrites(t: Roll, c: int)
    requires t.Wf() && Low(c) == TAB
    ensures Put(t, c) == Write(Write(Write(Write(Write(t, SPACE), SPACE), SPACE), SPACE), SPACE)
  {
    hide Write;
  }

  /** After `n` of the spaces. */
  ghost predicate SpacesWritten(t: Roll, u: Roll, n: nat) {
    && t.Wf() && u.Wf() && u.cur == t.cur + n && |t.cells| <= |u.cells|
    && forall k :: 0 <= k < |u.cells| ==>
      u.cells[k] == if k >= |t.cells| || t.cur <= k < t.cur + n then 0x0720 else t.cells[k]
  }

  lemma OneSpaceWritten(t: Roll, u: Roll, n: nat)
    requires SpacesWritten(t, u, n)
    ensures SpacesWritten(t, Write(u, SPACE), n + 1)
  {
    assert Glyph(SPACE) == 0x0720;
  }

  lemma FiveSpacesWritten(t: Roll, k: nat)
    requires t.Wf()
    ensures SpacesWritten(t, Write(Write(Write(Write(Write(t, SPACE), SPACE), SPACE), SPACE), SPACE), 5)
  {
    var t1 := Write(t, SPACE);
    var t2 := Write(t1, SPACE);
    var t3 := Write(t2, SPACE);
    var t4 := Write(t3, SPACE);
    assert SpacesWritten(t, t, 0);
    hide Write, SpacesWritten;
    OneSpaceWritten(t, t, 0);
    OneSpaceWritten(t, t1, 1);
    OneSpaceWritten(t, t2, 2);
    OneSpaceWritten(t, t3, 3);
    OneSpaceWritten(t, t4, 4);
  }

  // ----- The same terminal without a window: a roll that is blank for ever below -----

  datatype Endless = Endless(cell: nat -> u16, top: nat, cur: nat)

  function Blot(e: Endless, k: nat, v: u16): nat -> u16 {
    (j: nat) => CellAfter(e, k, v, j)
  }

  function CellAfter(e: Endless, k: nat, v: u16, j: nat): u16 {
    if j == k then v else e.cell(j)
  }

  /** The window follows the cursor by one row; no cell changes. */
  function Follow(cell: nat -> u16, top: nat, cur: nat): Endless {
    Endless(cell, if cur >= top + CRT_SIZE then top + CRT_COLS else top, cur)
  }

  function WriteEndless(e: Endless, c: int): Endless {
    Follow(Blot(e, e.cur, Glyph(c)), e.top, e.cur + 1)
  }

  function PutEndless(e: Endless, c: int): Endless {
    if Low(c) == BACKSPACE then
      if e.cur > e.top then Endless(Blot(e, e.cur - 1, (Attribute(c) + SPACE) % TWO_16), e.top, e.cur - 1) else e
    else if Low(c) == NEWLINE then Follow(e.cell, e.top, e.cur - e.cur % CRT_COLS + CRT_COLS)
    else if Low(c) == RETURN then e.(cur := e.cur - e.cur % CRT_COLS)
    else if Low(c) == TAB then
      WriteEndless(WriteEndless(WriteEndless(WriteEndless(WriteEndless(e, SPACE), SPACE), SPACE), SPACE), SPACE)
    else WriteEndless(e, c)
  }

  function PutAllEndless(e: Endless, s: seq<int>): Endless {
    if s == [] then e else PutEndless(PutAllEndless(e, s[..|s| - 1]), s[|s| - 1])
  }

  ghost predicate Agrees(t: Roll, e: Endless) {
    && t.Wf() && e.top == t.Top() && e.cur == t.cur
    && forall k: nat {:trigger e.cell(k)} :: e.cell(k) == if k < |t.cells| then t.cells[k] else BLANK
  }

  lemma WriteAgrees(t: Roll, e: Endless, c: int)
    requires Agrees(t, e)
    ensures Agrees(Write(t, c), WriteEndless(e, c))
  {
  }

  lemma PutAgrees(t: Roll, e: Endless, c: int)
    requires Agrees(t, e)
    ensures Agrees(Put(t, c), PutEndless(e, c))
  {
    if Low(c) == TAB {
      hide Write, WriteEndless, Agrees;
      var t1, e1 := Write(t, SPACE), WriteEndless(e, SPACE);
      var t2, e2 := Write(t1, SPACE), WriteEndless(e1, SPACE);
      var t3, e3 := Write(t2, SPACE), WriteEndless(e2, SPACE);
      var t4, e4 := Write(t3, SPACE), WriteEndless(e3, SPACE);
      WriteAgrees(t, e, SPACE);
      WriteAgrees(t1, e1, SPACE);
      WriteAgrees(t2, e2, SPACE);
      WriteAgrees(t3, e3, SPACE);
      WriteAgrees(t4, e4, SPACE);
    }
  }

  /** Whatever is written, the scrolled-off rows and the screen together are what the endless
      roll holds, and every cell below the screen is still blank. */
  lemma {:induction false} ScreenIsEndlessRoll(t: Roll, e: Endless, s: seq<int>)
    requires Agrees(t, e)
    ensures Agrees(PutAll(t, s), PutAllEndless(e, s))
  {
    if s != [] {
      ScreenIsEndlessRoll(t, e, s[..|s| - 1]);
      PutAgrees(PutAll(t, s[..|s| - 1]), PutAllEndless(e, s[..|s| - 1]), s[|s| - 1]);
    }
  }

  // ----- Video memory: two bytes a cell -----

  ghost function Cells(m: seq<u8>): (s: seq<u16>)
    requires |m| == 2 * CRT_SIZE
    ensures |s| == CRT_SIZE
    ensures forall k :: 0 <= k < CRT_SIZE ==> s[k] == m[2 * k] + TWO_8 * m[2 * k + 1]
  {
    seq(CRT_SIZE, k requires 0 <= k < CRT_SIZE => m[2 * k] + TWO_8 * m[2 * k + 1])
  }

  /** In video memory the character is the first byte of its cell, and the attribute the second. */
  lemma CellBytes(m: seq<u8>, k: nat, c: u8)
    requires |m| == 2 * CRT_SIZE && k < CRT_SIZE
    ensures Cells(m)[k] == 0x0700 + c <==> m[2 * k] == c && m[2 * k + 1] == 7
  {
  }

  lemma StoredCell(m: seq<u8>, m': seq<u8>, k: nat, v: u16)
    requires |m| == |m'| == 2 * CRT_SIZE && k < CRT_SIZE
    requires forall i {:trigger m'[i]} :: 0 <= i < |m| ==>
      m'[i] == if i == 2 * k then v % TWO_8 else if i == 2 * k + 1 then v / TWO_8 else m[i]
    ensures Cells(m') == Cells(m)[k := v]
  {
    var s, s' := Cells(m), Cells(m');
    forall j | 0 <= j < CRT_SIZE ensures s'[j] == s[k := v][j] {
      if j != k {
        assert m'[2 * j] == m[2 * j] && m'[2 * j + 1] == m[2 * j + 1];
      }
    }
  }

  /** Moving the bytes up by one row of cells moves the cells up by one row. */
  lemma MovedCells(m: seq<u8>)
    requires |m| == 2 * CRT_SIZE
    ensures var n := 2 * (CRT_SIZE - CRT_COLS);
      Cells(Moved(m, 0, 2 * CRT_COLS, n)) == Cells(m)[CRT_COLS..] + Cells(m)[CRT_SIZE - CRT_COLS..]
  {
    var n := 2 * (CRT_SIZE - CRT_COLS);
    var m' := Moved(m, 0, 2 * CRT_COLS, n);
    var s, s' := Cells(m), Cells(m');
    assert |m'| == |m|;
    forall j | 0 <= j < CRT_SIZE ensures s'[j] == (s[CRT_COLS..] + s[CRT_SIZE - CRT_COLS..])[j] {
      if j < CRT_SIZE - CRT_COLS {
        assert m'[2 * j] == m[2 * (j + CRT_COLS)] && m'[2 * j + 1] == m[2 * (j + CRT_COLS) + 1];
      } else {
        assert m'[2 * j] == m[2 * j] && m'[2 * j + 1] == m[2 * j + 1];
      }
    }
  }

  lemma RowPulledUp(above: seq<u16>, cells: seq<u16>, row: seq<u16>)
    requires CRT_COLS <= |cells|
    ensures above + cells[..CRT_COLS] + (cells[CRT_COLS..] + row) == above + cells + row
  {
  }

  lemma StoreOnRoll(above: seq<u16>, cells: seq<u16>, k: nat, v: u16)
    requires k < |cells|
    ensures above + cells[k := v] == (above + cells)[|above| + k := v]
  {
  }

  /** Columns can be counted from the first visible row, or from the start of the roll. */
  lemma ColumnOf(above: nat, pos: nat)
    requires above % CRT_COLS == 0
    ensures (above + pos) % CRT_COLS == pos % CRT_COLS
    ensures pos + CRT_COLS - (pos + CRT_COLS) % CRT_COLS == pos - pos % CRT_COLS + CRT_COLS
  {
  }

  // ----- The device -----

  class Console {
    const crtBuf: array<u8>   // the video memory that crt_buf points to
    const address: nat        // its address, KERNBASE + CGA_BUF or KERNBASE + MONO_BUF
    var crtPos: nat
    var crtc: nat             // the cursor position last sent to the 6845
    var serial: seq<int>      // bytes sent to the serial port and to the parallel port
    var lpt: seq<int>
    ghost var scrolled: seq<u16>  // the cells that have scrolled off

    ghost predicate Valid()
      reads this
    {
      crtBuf.Length == 2 * CRT_SIZE && crtPos < CRT_SIZE && |scrolled| % CRT_COLS == 0
    }

    ghost function Paper(): (t: Roll)
      requires Valid()
      reads this, crtBuf
      ensures t.Wf() && t.Top() == |scrolled|
    {
      Roll(scrolled + Cells(crtBuf[..]), |scrolled| + crtPos)
    }

    constructor (buf: array<u8>, addr: nat, pos: nat)
      requires buf.Length == 2 * CRT_SIZE && pos < CRT_SIZE
      ensures Valid() && crtBuf == buf && scrolled == [] && crtPos == pos
    {
      crtBuf, address, crtPos, crtc, serial, lpt, scrolled := buf, addr, pos, pos, [], [], [];
    }

    method StoreCell(k: nat, v: u16)
      requires crtBuf.Length == 2 * CRT_SIZE && k < CRT_SIZE
      modifies crtBuf
      ensures Cells(crtBuf[..]) == Cells(old(crtBuf[..]))[k := v]
    {
      ghost var was := crtBuf[..];
      crtBuf[2 * k], crtBuf[2 * k + 1] := v % TWO_8, v / TWO_8;
      StoredCell(was, crtBuf[..], k, v);
    }

    /** The end of `cga_putc`: scroll if the cursor has run off the screen, then move it. */
    method ScrollAndMove()
      requires crtBuf.Length == 2 * CRT_SIZE && crtPos <= CRT_SIZE && |scrolled| % CRT_COLS == 0
      modifies this`crtPos, this`crtc, this`scrolled, crtBuf
      ensures Valid() && crtc == crtPos
      ensures Paper() == MoveTo(old(scrolled + Cells(crtBuf[..])), old(|scrolled| + crtPos))
    {
      if crtPos >= CRT_SIZE {
        ghost var was := Cells(crtBuf[..]);
        MovedCells(crtBuf[..]);
        Memmove(crtBuf, address, 0, 2 * CRT_COLS, 2 * (CRT_SIZE - CRT_COLS));
        BlankLastRow();
        crtPos := crtPos - CRT_COLS;
        scrolled := scrolled + was[..CRT_COLS];
        assert Cells(crtBuf[..]) == was[CRT_COLS..] + Repeat(BLANK, CRT_COLS);
        RowPulledUp(old(scrolled), was, Repeat(BLANK, CRT_COLS));
      }
      crtc := crtPos / TWO_8 * TWO_8 + crtPos % TWO_8;
    }

    method BlankLastRow()
      requires crtBuf.Length == 2 * CRT_SIZE
      modifies crtBuf
      ensures Cells(crtBuf[..]) == old(Cells(crtBuf[..]))[..CRT_SIZE - CRT_COLS] + Repeat(BLANK, CRT_COLS)
    {
      ghost var was := Cells(crtBuf[..]);
      for i := CRT_SIZE - CRT_COLS to CRT_SIZE
        invariant Cells(crtBuf[..])
          == was[..CRT_SIZE - CRT_COLS] + Repeat(BLANK, i - (CRT_SIZE - CRT_COLS)) + was[i..]
      {
        StoreCell(i, ATTRIBUTE + SPACE);
      }
    }

    /** The roll before `ScrollAndMove` has looked at the cursor. */
    ghost function Unscrolled(): Roll
      requires crtBuf.Length == 2 * CRT_SIZE
      reads this, crtBuf
    {
      MoveTo(scrolled + Cells(crtBuf[..]), |scrolled| + crtPos)
    }

    method CgaPutc(ch: int)
      requires Valid()
      modifies this, crtBuf
      ensures Valid() && Paper() == Put(old(Paper()), ch)
      ensures crtc == crtPos
      ensures var spaces := if Low(ch) == TAB then Repeat(SPACE, 5) else [];
        serial == old(serial) + spaces && lpt == old(lpt) + spaces
      decreases if Low(ch) == TAB then 1 else 0, 0
    {
      hide Put, MoveTo, Repeat;
      var c := ch;
      if c - Low(c) == 0 {
        c := c + ATTRIBUTE;
      }
      assert Low(c) == Low(ch) && c == Attribute(ch) + Low(ch);
      if Low(c) == BACKSPACE {
        CursorBack(c - Low(c), ch);
      } else if Low(c) == NEWLINE || Low(c) == RETURN {
        StartOfLine(Low(c) == NEWLINE, ch);
      } else if Low(c) == TAB {
        FiveSpaces(ch);
      } else {
        WriteCell(c, ch);
      }
      ScrollAndMove();
    }

    method CursorBack(attribute: int, ghost ch: int)
      requires Valid() && Low(ch) == BACKSPACE && attribute == Attribute(ch)
      modifies this`crtPos, crtBuf
      ensures Valid() && Unscrolled() == Put(old(Paper()), ch)
    {
      ghost var cells := Cells(crtBuf[..]);
      if crtPos > 0 {
        crtPos := crtPos - 1;
        StoreCell(crtPos, (attribute + SPACE) % TWO_16);
        StoreOnRoll(scrolled, cells, crtPos, (attribute + SPACE) % TWO_16);
      }
    }

    method StartOfLine(next: bool, ghost ch: int)
      requires Valid() && Low(ch) == if next then NEWLINE else RETURN
      modifies this`crtPos
      ensures crtPos <= CRT_SIZE && Unscrolled() == Put(old(Paper()), ch)
    {
      ColumnOf(|scrolled|, crtPos);
      if next {
        crtPos := crtPos + CRT_COLS;
      }
      crtPos := crtPos - crtPos % CRT_COLS;
    }

    method WriteCell(c: int, ghost ch: int)
      requires Valid() && Low(ch) !in {BACKSPACE, TAB, NEWLINE, RETURN} && c % TWO_16 == Glyph(ch)
      modifies this`crtPos, crtBuf
      ensures crtPos <= CRT_SIZE && Unscrolled() == Put(old(Paper()), ch)
    {
      ghost var cells := Cells(crtBuf[..]);
      StoreCell(crtPos, c % TWO_16);
      StoreOnRoll(scrolled, cells, crtPos, Glyph(ch));
      crtPos := crtPos + 1;
    }

    /** The expansion of a tab. */
    method FiveSpaces(ghost ch: int)
      requires Valid() && Low(ch) == TAB
      modifies this, crtBuf
      ensures Valid() && Unscrolled() == Put(old(Paper()), ch)
      ensures serial == old(serial) + Repeat(SPACE, 5) && lpt == old(lpt) + Repeat(SPACE, 5)
      decreases 0, 2
    {
      hide Put, MoveTo;
      ghost var t := Paper();
      TabIsFiveSpaces(t, ch);
      FiveWires(serial);
      FiveWires(lpt);
      ConsPutc(SPACE);
      ConsPutc(SPACE);
      ConsPutc(SPACE);
      ConsPutc(SPACE);
      ConsPutc(SPACE);
      NothingToScroll();
    }

    lemma NothingToScroll()
      requires Valid()
      ensures Unscrolled() == Paper()
    {
    }

    method ConsPutc(c: int)
      requires Valid()
      modifies this, crtBuf
      ensures Valid() && Paper() == Put(old(Paper()), c)
      ensures serial == old(serial) + Wire(c) && lpt == old(lpt) + Wire(c)
      ensures Wire(c) == if c % 256 == 9 then [9, 32, 32, 32, 32, 32] else [c % 256]
      decreases if Low(c) == TAB then 1 else 0, 1
    {
      serial := serial + [c % TWO_8];
      lpt := lpt + [c % TWO_8];
      CgaPutc(c);
    }

    /** A string of `putch` calls, as `cprintf` makes them. */
    method ConsPuts(s: seq<int>)
      requires Valid()
      modifies this, crtBuf
      ensures Valid() && Paper() == PutAll(old(Paper()), s)
      ensures serial == old(serial) + WireAll(s) && lpt == old(lpt) + WireAll(s)
    {
      hide Put, PutAll, Wire, WireAll;
      ghost var t, wired, printed := Paper(), serial, lpt;
      PutNothing(t);
      WireNothing();
      for i := 0 to |s|
        invariant Valid() && Paper() == PutAll(t, s[..i])
        invariant serial == wired + WireAll(s[..i]) && lpt == printed + WireAll(s[..i])
      {
        assert s[..i + 1] == s[..i] + [s[i]];
        PutAllAppend(t, s[..i], s[i]);
        WireAppend(wired, s[..i], s[i]);
        WireAppend(printed, s[..i], s[i]);
        ConsPutc(s[i]);
      }
      assert s[..|s|] == s;
    }
  }

  /** The five spaces of a tab are ordinary characters. */
  lemma TabIsFiveSpaces(t: Roll, ch: int)
    requires t.Wf() && Low(ch) == TAB
    ensures Put(Put(Put(Put(Put(t, SPACE), SPACE), SPACE), SPACE), SPACE) == Put(t, ch)
  {
    hide Write;
  }

  lemma FiveWires(s: seq<int>)
    ensures s + Wire(SPACE) + Wire(SPACE) + Wire(SPACE) + Wire(SPACE) + Wire(SPACE) == s + Repeat(SPACE, 5)
  {
    assert Wire(SPACE) == [SPACE];
    assert Repeat(SPACE, 5) == [SPACE, SPACE, SPACE, SPACE, SPACE];
  }

  lemma WireNothing()
    ensures WireAll([]) == []
  {
  }

  lemma WireAppend(before: seq<int>, s: seq<int>, c: int)
    ensures before + WireAll(s) + Wire(c) == before + WireAll(s + [c])
  {
    hide Wire;
    assert (s + [c])[..|s|] == s;
  }

  lemma {:induction false} PutAllConcat(t: Roll, x: seq<int>, y: seq<int>)
    requires t.Wf()
    ensures PutAll(t, x + y) == PutAll(PutAll(t, x), y)
    decreases |y|
  {
    hide Put;
    if y == [] {
      assert x + y == x;
    } else {
      assert (x + y)[..|x + y| - 1] == x + y[..|y| - 1];
      PutAllConcat(t, x, y[..|y| - 1]);
    }
  }

  /** Without tabs, each character puts its low byte on the wire. */
  lemma {:induction false} TextOnWire(s: seq<int>)
    requires forall k :: 0 <= k < |s| ==> s[k] % 256 != 9
    ensures |WireAll(s)| == |s| && forall k :: 0 <= k < |s| ==> WireAll(s)[k] == s[k] % 256
  {
    if s != [] {
      TextOnWire(s[..|s| - 1]);
    }
  }

  lemma {:induction false} WireConcat(x: seq<int>, y: seq<int>)
    ensures WireAll(x + y) == WireAll(x) + WireAll(y)
    decreases |y|
  {
    hide Wire;
    if y == [] {
      assert x + y == x;
    } else {
      assert (x + y)[..|x + y| - 1] == x + y[..|y| - 1];
      WireConcat(x, y[..|y| - 1]);
    }
  }

  lemma PutAllAppend(t: Roll, s: seq<int>, c: int)
    requires t.Wf()
    ensures PutAll(t, s + [c]) == Put(PutAll(t, s), c)
  {
    assert (s + [c])[..|s|] == s;
  }

  /** The bytes that one character puts on the wire: a tab is followed by the spaces it expands to. */
  function Wire(c: int): seq<int> {
    [c % TWO_8] + if Low(c) == TAB then Repeat(SPACE, 5) else []
  }

  function WireAll(s: seq<int>): seq<int> {
    if s == [] then [] else WireAll(s[..|s| - 1]) + Wire(s[|s| - 1])
  }
}