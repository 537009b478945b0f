/** The keyboard: a state machine over scancode bytes, and the code tables. */
module Keyboard {
  import opened Machine

  /** The bits of `shift`. Each is set, cleared and flipped on its own, so the word is a set. */
  datatype Flag = SHIFT | CTL | ALT | CAPSLOCK | NUMLOCK | SCROLLLOCK | E0ESC

  type Flags = set<Flag>

  const NO: u8 := 0
  const E0: u8 := 0xE0
  const KEY_DEL: u8 := 0xE9

  function ShiftCode(code: u8): Flags {
    match code
    case 0x1D => {CTL}  case 0x2A => {SHIFT}  case 0x36 => {SHIFT}
    case 0x38 => {ALT}  case 0x9D => {CTL}    case 0xB8 => {ALT}
    case _ => {}
  }

  function ToggleCode(code: u8): Flags {
    match code
    case 0x3A => {CAPSLOCK}  case 0x45 => {NUMLOCK}  case 0x46 => {SCROLLLOCK}
    case _ => {}
  }

  function NormalMap(code: u8): u8 {
    match code
    case 0x01 => 27  case 0x02 => '1' as int  case 0x03 => '2' as int  case 0x04 => '3' as int
    case 0x05 => '4' as int  case 0x06 => '5' as int  case 0x07 => '6' as int  case 0x08 => '7' as int
    case 0x09 => '8' as int  case 0x0A => '9' as int  case 0x0B => '0' as int  case 0x0C => '-' as int
    case 0x0D => '=' as int  case 0x0E => 8  case 0x0F => 9  case 0x10 => 'q' as int
    case 0x11 => 'w' as int  case 0x12 => 'e' as int  case 0x13 => 'r' as int  case 0x14 => 't' as int
    case 0x15 => 'y' as int  case 0x16 => 'u' as int  case 0x17 => 'i' as int  case 0x18 => 'o' as int
    case 0x19 => 'p' as int  case 0x1A => '[' as int  case 0x1B => ']' as int  case 0x1C => 10
    case 0x1E => 'a' as int  case 0x1F => 's' as int  case 0x20 => 'd' as int  case 0x21 => 'f' as int
    case 0x22 => 'g' as int  case 0x23 => 'h' as int  case 0x24 => 'j' as int  case 0x25 => 'k' as int
    case 0x26 => 'l' as int  case 0x27 => ';' as int  case 0x28 => 39  case 0x29 => '`' as int
    case 0x2B => 92  case 0x2C => 'z' as int  case 0x2D => 'x' as int  case 0x2E => 'c' as int
    case 0x2F => 'v' as int  case 0x30 => 'b' as int  case 0x31 => 'n' as int  case 0x32 => 'm' as int
    case 0x33 => ',' as int  case 0x34 => '.' as int  case 0x35 => '/' as int  case 0x37 => '*' as int
    case 0x39 => 32  case 0x47 => '7' as int  case 0x48 => '8' as int  case 0x49 => '9' as int
    case 0x4A => '-' as int  case 0x4B => '4' as int  case 0x4C => '5' as int  case 0x4D => '6' as int
    case 0x4E => '+' as int  case 0x4F => '1' as int  case 0x50 => '2' as int  case 0x51 => '3' as int
    case 0x52 => '0' as int  case 0x53 => '.' as int  case 0x9C => 10  case 0xB5 => '/' as int
    case 0xC7 => 0xe0  case 0xC8 => 0xe2  case 0xC9 => 0xe6  case 0xCB => 0xe4
    case 0xCD => 0xe5  case 0xCF => 0xe1  case 0xD0 => 0xe3  case 0xD1 => 0xe7
    case 0xD2 => 0xe8  case 0xD3 => 0xe9
    case _ => NO
  }

  function ShiftMap(code: u8): u8 {
    match code
    case 0x01 => 27  case 0x02 => '!' as int  case 0x03 => '@' as int  case 0x04 => '#' as int
    case 0x05 => '$' as int  case 0x06 => '%' as int  case 0x07 => '^' as int  case 0x08 => '&' as int
    case 0x09 => '*' as int  case 0x0A => '(' as int  case 0x0B => ')' as int  case 0x0C => '_' as int
    case 0x0D => '+' as int  case 0x0E => 8  case 0x0F => 9  case 0x10 => 'Q' as int
    case 0x11 => 'W' as int  case 0x12 => 'E' as int  case 0x13 => 'R' as int  case 0x14 => 'T' as int
    case 0x15 => 'Y' as int  case 0x16 => 'U' as int  case 0x17 => 'I' as int  case 0x18 => 'O' as int
    case 0x19 => 'P' as int  case 0x1A => '{' as int  case 0x1B => '}' as int  case 0x1C => 10
    case 0x1E => 'A' as int  case 0x1F => 'S' as int  case 0x20 => 'D' as int  case 0x21 => 'F' as int
    case 0x22 => 'G' as int  case 0x23 => 'H' as int  case 0x24 => 'J' as int  case 0x25 => 'K' as int
    case 0x26 => 'L' as int  case 0x27 => ':' as int  case 0x28 => '"' as int  case 0x29 => '~' as int
    case 0x2B => '|' as int  case 0x2C => 'Z' as int  case 0x2D => 'X' as int  case 0x2E => 'C' as int
    case 0x2F => 'V' as int  case 0x30 => 'B' as int  case 0x31 => 'N' as int  case 0x32 => 'M' as int
    case 0x33 => '<' as int  case 0x34 => '>' as int  case 0x35 => '?' as int  case 0x37 => '*' as int
    case 0x39 => 32  case 0x47 => '7' as int  case 0x48 => '8' as int  case 0x49 => '9' as int
    case 0x4A => '-' as int  case 0x4B => '4' as int  case 0x4C => '5' as int  case 0x4D => '6' as int
    case 0x4E => '+' as int  case 0x4F => '1' as int  case 0x50 => '2' as int  case 0x51 => '3' as int
    case 0x52 => '0' as int  case 0x53 => '.' as int  case 0x9C => 10  case 0xB5 => '/' as int
    case 0xC7 => 0xe0  case 0xC8 => 0xe2  case 0xC9 => 0xe6  case 0xCB => 0xe4
    case 0xCD => 0xe5  case 0xCF => 0xe1  case 0xD0 => 0xe3  case 0xD1 => 0xe7
    case 0xD2 => 0xe8  case 0xD3 => 0xe9
    case _ => NO
  }

  function CtlMap(code: u8): u8 {
    match code
    case 0x10 => 17  case 0x11 => 23  case 0x12 => 5  case 0x13 => 18
    case 0x14 => 20  case 0x15 => 25  case 0x16 => 21  case 0x17 => 9
    case 0x18 => 15  case 0x19 => 16  case 0x1C => 13  case 0x1E => 1
    case 0x1F => 19  case 0x20 => 4  case 0x21 => 6  case 0x22 => 7
    case 0x23 => 8  case 0x24 => 10  case 0x25 => 11  case 0x26 => 12
    case 0x2B => 28  case 0x2C => 26  case 0x2D => 24  case 0x2E => 3
    case 0x2F => 22  case 0x30 => 2  case 0x31 => 14  case 0x32 => 13
    case 0x35 => 0xef  case 0x97 => 0xe0  case 0xB5 => 0xef  case 0xC8 => 0xe2
    case 0xC9 => 0xe6  case 0xCB => 0xe4  case 0xCD => 0xe5  case 0xCF => 0xe1
    case 0xD0 => 0xe3  case 0xD1 => 0xe7  case 0xD2 => 0xe8  case 0xD3 => 0xe9
    case _ => NO
  }

  /** The table that CTL and SHIFT select. */
  function CharCode(shift: Flags, code: u8): u8 {
    if CTL in shift then CtlMap(code) else if SHIFT in shift then ShiftMap(code) else NormalMap(code)
  }

  /** CAPSLOCK swaps the case of letters. */
  function SwapCase(c: u8): u8 {
    if 'a' as int <= c <= 'z' as int then c - 32
    else if 'A' as int <= c <= 'Z' as int then c + 32
    else c
  }

  // ----- One scancode byte -----

  /** The key that a byte belongs to: bit 7 tells a release from a press, and a preceding 0xE0
      selects the upper half of the tables. */
  function KeyOf(prefixed: bool, data: u8): u8 {
    if data >= 0x80 then (if prefixed then data else data - 0x80)
    else (if prefixed then data + 0x80 else data)
  }

  function Next(shift: Flags, data: u8): Flags {
    var key := KeyOf(E0ESC in shift, data);
    if data == E0 then shift + {E0ESC}
    else if data >= 0x80 then shift - (ShiftCode(key) + {E0ESC})
    else
      var down := shift - {E0ESC} + ShiftCode(key);
      (down - ToggleCode(key)) + (ToggleCode(key) - down)
  }

  /** The character that a byte finishes, or 0. */
  function Char(shift: Flags, data: u8): u8 {
    if data >= 0x80 then 0
    else
      var c := CharCode(Next(shift, data), KeyOf(E0ESC in shift, data));
      if CAPSLOCK in Next(shift, data) then SwapCase(c) else c
  }

  function Run(shift: Flags, bytes: seq<u8>): Flags {
    if bytes == [] then shift else Next(Run(shift, bytes[..|bytes| - 1]), bytes[|bytes| - 1])
  }

  /** The characters that a stream of bytes produces, one for each byte. */
  function Chars(shift: Flags, bytes: seq<u8>): (cs: seq<u8>)
    ensures |cs| == |bytes|
  {
    if bytes == [] then []
    else
      var before := bytes[..|bytes| - 1];
      Chars(shift, before) + [Char(Run(shift, before), bytes[|bytes| - 1])]
  }

  // ----- What the flags mean, in terms of the whole stream -----

  /** Does a 0xE0 come right before byte `i`? */
  predicate Prefixed(shift: Flags, bytes: seq<u8>, i: nat)
    requires i <= |bytes|
  {
    if i == 0 then E0ESC in shift else bytes[i - 1] == 0xE0
  }

  /** The number of presses of an unprefixed key. */
  function Presses(shift: Flags, bytes: seq<u8>, key: u8): nat {
    if bytes == [] then 0
    else
      var n := |bytes| - 1;
      Presses(shift, bytes[..n], key) + if bytes[n] == key && !Prefixed(shift, bytes, n) then 1 else 0
  }

  /** The bytes by which the modifiers go down: two SHIFT keys, and CTL and ALT on either side, of
      which the right ones send a 0xE0 first. */
  predicate IsPress(flag: Flag, prefixed: bool, b: u8) {
    match flag
    case SHIFT => !prefixed && (b == 0x2A || b == 0x36)
    case CTL => b == 0x1D
    case ALT => b == 0x38
    case _ => false
  }

  /** The bytes by which they come up. */
  predicate IsRelease(flag: Flag, prefixed: bool, b: u8) {
    match flag
    case SHIFT => !prefixed && (b == 0xAA || b == 0xB6)
    case CTL => b == 0x9D
    case ALT => b == 0xB8
    case _ => false
  }

  /** Whether the last event of a key for the modifier was a press; `None` without any event. */
  function LastEvent(shift: Flags, bytes: seq<u8>, flag: Flag): Option<bool> {
    if bytes == [] then None
    else
      var n := |bytes| - 1;
      if IsPress(flag, Prefixed(shift, bytes, n), bytes[n]) then Some(true)
      else if IsRelease(flag, Prefixed(shift, bytes, n), bytes[n]) then Some(false)
      else LastEvent(shift, bytes[..n], flag)
  }

  /** E0ESC says that the last byte was 0xE0. */
  lemma EscapeMeaning(shift: Flags, bytes: seq<u8>)
    ensures E0ESC in Run(shift, bytes) <==> Prefixed(shift, bytes, |bytes|)
  {
    if bytes != [] {
      var last := bytes[|bytes| - 1];
      assert E0ESC !in ShiftCode(KeyOf(E0ESC in Run(shift, bytes[..|bytes| - 1]), last));
      assert E0ESC !in ToggleCode(KeyOf(E0ESC in Run(shift, bytes[..|bytes| - 1]), last));
    }
  }

  /** CAPSLOCK is flipped by every press of its key, and by nothing else. */
  lemma {:induction false} CapsLockMeaning(shift: Flags, bytes: seq<u8>)
    ensures CAPSLOCK in Run(shift, bytes) <==> ((CAPSLOCK in shift) != (Presses(shift, bytes, 0x3A) % 2 == 1))
  {
    if bytes != [] {
      var n := |bytes| - 1;
      CapsLockMeaning(shift, bytes[..n]);
      EscapeMeaning(shift, bytes[..n]);
      assert Prefixed(shift, bytes[..n], n) == Prefixed(shift, bytes, n);
    }
  }

  lemma {:induction false} NumLockMeaning(shift: Flags, bytes: seq<u8>)
    ensures NUMLOCK in Run(shift, bytes) <==> ((NUMLOCK in shift) != (Presses(shift, bytes, 0x45) % 2 == 1))
  {
    if bytes != [] {
      var n := |bytes| - 1;
      NumLockMeaning(shift, bytes[..n]);
      EscapeMeaning(shift, bytes[..n]);
      assert Prefixed(shift, bytes[..n], n) == Prefixed(shift, bytes, n);
    }
  }

  lemma {:induction false} ScrollLockMeaning(shift: Flags, bytes: seq<u8>)
    ensures SCROLLLOCK in Run(shift, bytes) <==> ((SCROLLLOCK in shift) != (Presses(shift, bytes, 0x46) % 2 == 1))
  {
    if bytes != [] {
      var n := |bytes| - 1;
      ScrollLockMeaning(shift, bytes[..n]);
      EscapeMeaning(shift, bytes[..n]);
      assert Prefixed(shift, bytes[..n], n) == Prefixed(shift, bytes, n);
    }
  }

  /** SHIFT, CTL and ALT are down exactly when the last event of one of their keys was a press. */
  lemma {:induction false} ModifierMeaning(shift: Flags, bytes: seq<u8>, flag: Flag)
    requires flag in {SHIFT, CTL, ALT}
    ensures flag in Run(shift, bytes) <==>
      match LastEvent(shift, bytes, flag) case None => flag in shift case Some(press) => press
  {
    if bytes != [] {
      var n := |bytes| - 1;
      ModifierMeaning(shift, bytes[..n], flag);
      EscapeMeaning(shift, bytes[..n]);
      assert Prefixed(shift, bytes[..n], n) == Prefixed(shift, bytes, n);
      ModifierStep(Run(shift, bytes[..n]), bytes[n], flag);
    }
  }

  lemma ModifierStep(shift: Flags, data: u8, flag: Flag)
    requires flag in {SHIFT, CTL, ALT}
    ensures flag in Next(shift, data) <==>
      IsPress(flag, E0ESC in shift, data) || (flag in shift && !IsRelease(flag, E0ESC in shift, data))
  {
    var key := KeyOf(E0ESC in shift, data);
    ModifierKey(key, flag);
    assert flag !in ToggleCode(key);
  }

  lemma ModifierKey(key: u8, flag: Flag)
    requires flag in {SHIFT, CTL, ALT}
    ensures flag in ShiftCode(key) <==>
      key in (match flag case SHIFT => {0x2A, 0x36} case CTL => {0x1D, 0x9D} case _ => {0x38, 0xB8})
  {
  }

  /** Without CTL, a letter key types its upper-case letter exactly when one of SHIFT and
      CAPSLOCK is on, and its lower-case letter otherwise. */
  lemma LetterCase(shift: Flags, data: u8)
    requires data < 0x80 && 'a' as int <= NormalMap(KeyOf(E0ESC in shift, data)) <= 'z' as int
    requires CTL !in shift
    ensures var c := NormalMap(KeyOf(E0ESC in shift, data));
      Char(shift, data) == if (SHIFT in shift) != (CAPSLOCK in shift) then c - 32 else c
  {
    var key := KeyOf(E0ESC in shift, data);
    LetterKey(key);
    assert Next(shift, data) == shift - {E0ESC};
  }

  lemma LetterKey(key: u8)
    requires 'a' as int <= NormalMap(key) <= 'z' as int
    ensures ShiftMap(key) == NormalMap(key) - 32 && ShiftCode(key) == {} && ToggleCode(key) == {}
  {
  }

  // ----- What the keys type -----

  /** The rows of the keyboard: the code of the first key, and the characters of the keys that
      follow each other from there on, without and with SHIFT. */
  datatype Row = Row(first: u8, plain: string, shifted: string)

  const ROWS: seq<Row> := [
    Row(0x02, "1234567890-=", "!@#$%^&*()_+"),
    Row(0x10, "qwertyuiop[]", "QWERTYUIOP{}"),
    Row(0x1E, "asdfghjkl;'`", "ASDFGHJKL:\"~"),
    Row(0x2B, "\\zxcvbnm,./", "|ZXCVBNM<>?"),
    Row(0x47, "789-456+1230.", "789-456+1230."),
    Row(0x37, "*", "*"),
    Row(0x39, " ", " "),
    Row(0x0E, "\U{8}\t", "\U{8}\t"),
    Row(0x1C, "\n", "\n"),
    Row(0x01, "\U{1b}", "\U{1b}")
  ]

  /** Does a row have a key with this code? */
  predicate InRow(row: Row, key: u8) {
    row.first <= key < row.first + |row.plain|
  }

  predicate IsLower(c: char) {
    'a' <= c <= 'z'
  }

  /** The tables hold the rows. */
  ghost predicate InTables(row: Row, key: u8) {
    InRow(row, key) ==>
      && |row.shifted| == |row.plain|
      && NormalMap(key) == row.plain[key - row.first] as int && ShiftMap(key) == row.shifted[key - row.first] as int
  }

  lemma DigitRow(key: u8)
    ensures InTables(ROWS[0], key)
  {
  }

  lemma UpperRow(key: u8)
    ensures InTables(ROWS[1], key)
  {
  }

  lemma MiddleRow(key: u8)
    ensures InTables(ROWS[2], key)
  {
  }

  lemma LowerRow(key: u8)
    ensures InTables(ROWS[3], key)
  {
  }

  lemma KeypadRow(key: u8)
    ensures InTables(ROWS[4], key)
  {
  }

  lemma SingleKeys(key: u8)
    ensures forall r :: 5 <= r < 10 ==> InTables(ROWS[r], key)
  {
  }

  /** The keys outside the rows type nothing: modifiers, locks, function keys. */
  lemma OtherKeys(key: u8)
    requires key < 0x80 && forall r :: 0 <= r < |ROWS| ==> !InRow(ROWS[r], key)
    ensures NormalMap(key) == 0 && ShiftMap(key) == 0
  {
    assert !InRow(ROWS[0], key) && !InRow(ROWS[1], key) && !InRow(ROWS[2], key) && !InRow(ROWS[3], key);
    assert !InRow(ROWS[4], key) && !InRow(ROWS[5], key) && !InRow(ROWS[6], key) && !InRow(ROWS[7], key);
    assert !InRow(ROWS[8], key) && !InRow(ROWS[9], key);
  }

  lemma RowKey(r: nat, key: u8)
    requires r < |ROWS|
    ensures InTables(ROWS[r], key)
  {
    hide NormalMap, ShiftMap;
    DigitRow(key);
    UpperRow(key);
    MiddleRow(key);
    LowerRow(key);
    KeypadRow(key);
    SingleKeys(key);
  }

  /** Letters stand in pairs, and nothing else changes its case. */
  ghost predicate Paired(row: Row) {
    && |row.shifted| == |row.plain|
    && forall k :: 0 <= k < |row.plain| ==>
      var c, d := row.plain[k] as int, row.shifted[k] as int;
      && 0 <= c < TWO_8 && 0 <= d < TWO_8
      && if IsLower(row.plain[k]) then d == c - 32 else SwapCase(c) == c && SwapCase(d) == d
  }

  lemma UpperIsPaired()
    ensures Paired(ROWS[1])
  {
  }

  lemma MiddleIsPaired()
    ensures Paired(ROWS[2])
  {
  }

  lemma LowerIsPaired()
    ensures Paired(ROWS[3])
  {
  }

  lemma DigitsArePaired()
    ensures Paired(ROWS[0])
  {
  }

  lemma OthersArePaired()
    ensures forall r :: 4 <= r < 10 ==> Paired(ROWS[r])
  {
  }

  lemma RowLetters(r: nat)
    requires r < |ROWS|
    ensures Paired(ROWS[r])
  {
    hide Paired;
    DigitsArePaired();
    UpperIsPaired();
    MiddleIsPaired();
    LowerIsPaired();
    OthersArePaired();
  }

  /** Without CTL a key of a row types its character: of a letter, the upper-case one when exactly one
      of SHIFT and CAPSLOCK is on; of any other key, the second one when SHIFT is on. Other keys type
      nothing. */
  lemma KeyTypes(shift: Flags, r: nat, key: u8)
    requires CTL !in shift && E0ESC !in shift && r < |ROWS| && InRow(ROWS[r], key)
    ensures key < 0x80 && |ROWS[r].shifted| == |ROWS[r].plain|
    ensures var k := key - ROWS[r].first;
      var second := (SHIFT in shift) != (IsLower(ROWS[r].plain[k]) && CAPSLOCK in shift);
      Char(shift, key) == (if second then ROWS[r].shifted[k] else ROWS[r].plain[k]) as int
  {
    hide NormalMap, ShiftMap;
    RowKey(r, key);
    RowLetters(r);
    RowIsPlain(r, key);
    assert Next(shift, key) == shift;
  }

  lemma RowIsPlain(r: nat, key: u8)
    requires r < |ROWS| && InRow(ROWS[r], key)
    ensures key < 0x80 && ShiftCode(key) == {} && ToggleCode(key) == {}
  {
  }

  lemma OtherKeysTypeNothing(shift: Flags, key: u8)
    requires CTL !in shift && E0ESC !in shift && key < 0x80
    requires forall r :: 0 <= r < |ROWS| ==> !InRow(ROWS[r], key)
    ensures Char(shift, key) == 0
  {
    hide NormalMap, ShiftMap;
    OtherKeys(key);
    ControlKey(key);
  }

  /** A released key types nothing. */
  lemma ReleaseTypesNothing(shift: Flags, data: u8)
    requires data >= 0x80
    ensures Char(shift, data) == 0
  {
  }

  /** With CTL, whatever SHIFT and CAPSLOCK are, a letter types the control character of its number in
      the alphabet; three other keys have a character as well. */
  lemma ControlTypes(shift: Flags, key: u8)
    requires CTL in shift && E0ESC !in shift && key < 0x80
    ensures var c := NormalMap(key);
      Char(shift, key) == if 'a' as int <= c <= 'z' as int then c - 96
                          else if key == 0x2B then 28
                          else if key == 0x1C then 13
                          else if key == 0x35 then 0xEF
                          else 0
  {
    hide NormalMap;
    ControlKey(key);
  }

  lemma ControlKey(key: u8)
    requires key < 0x80
    ensures var c := NormalMap(key);
      CtlMap(key) == if 'a' as int <= c <= 'z' as int then c - 96
                     else if key == 0x2B then 28
                     else if key == 0x1C then 13
                     else if key == 0x35 then 0xEF
                     else 0
  {
  }

  /** What keys type that send a 0xE0 first: Enter and '/' of the keypad, Home, Up, PgUp, Left, Right,
      End, Down, PgDn, Ins and Del. */
  const PREFIXED_KEYS: map<u8, u8> := map[
    0x1C := 10, 0x35 := 47, 0x47 := 0xE0, 0x48 := 0xE2, 0x49 := 0xE6, 0x4B := 0xE4, 0x4D := 0xE5,
    0x4F := 0xE1, 0x50 := 0xE3, 0x51 := 0xE7, 0x52 := 0xE8, 0x53 := 0xE9]

  /** The same with CTL: Home has moved to the code 0x17. */
  const PREFIXED_CONTROL_KEYS: map<u8, u8> := map[
    0x17 := 0xE0, 0x35 := 0xEF, 0x48 := 0xE2, 0x49 := 0xE6, 0x4B := 0xE4, 0x4D := 0xE5,
    0x4F := 0xE1, 0x50 := 0xE3, 0x51 := 0xE7, 0x52 := 0xE8, 0x53 := 0xE9]

  lemma PrefixedKeyTypes(shift: Flags, data: u8)
    requires E0ESC in shift && data < 0x80
    ensures var keys := if CTL in shift then PREFIXED_CONTROL_KEYS else PREFIXED_KEYS;
      Char(shift, data) == if data in keys then keys[data] else 0
  {
    hide NormalMap, ShiftMap, CtlMap;
    PrefixedKey(data);
    assert ToggleCode(data + 0x80) == {};
    assert SHIFT !in ShiftCode(data + 0x80) && CAPSLOCK !in ShiftCode(data + 0x80);
    assert data == 0x1D <==> CTL in ShiftCode(data + 0x80);
  }

  lemma PrefixedKey(data: u8)
    requires data < 0x80
    ensures var c, d := if data in PREFIXED_KEYS then PREFIXED_KEYS[data] else 0,
                        if data in PREFIXED_CONTROL_KEYS then PREFIXED_CONTROL_KEYS[data] else 0;
      && NormalMap(data + 0x80) == c && ShiftMap(data + 0x80) == c && CtlMap(data + 0x80) == d
      && SwapCase(c) == c && SwapCase(d) == d
  {
  }

  /** Typing, one byte after the other from the front. */
  lemma {:induction false} TypesFirst(shift: Flags, b: u8, rest: seq<u8>)
    ensures Chars(shift, [b] + rest) == [Char(shift, b)] + Chars(Next(shift, b), rest)
    ensures Run(shift, [b] + rest) == Run(Next(shift, b), rest)
    decreases |rest|
  {
    hide Char, Next;
    var all := [b] + rest;
    if rest == [] {
      assert all[..0] == [];
    } else {
      assert all[..|all| - 1] == [b] + rest[..|rest| - 1];
      TypesFirst(shift, b, rest[..|rest| - 1]);
    }
  }

  /** A shifted 'h', an 'i', and Ctrl-H, which erases it: only presses of keys that are no modifiers
      leave a character. */
  lemma TypingExample()
    ensures Chars({}, [0x2A, 0x23, 0xA3, 0xAA, 0x17, 0x1D, 0x23]) == [0, 'H' as int, 0, 0, 'i' as int, 0, 8]
  {
    hide Char, Next, Chars, Run;
    TypingSteps();
    var b7: seq<u8> := [];
    var b6: seq<u8> := [0x23] + b7;
    var b5: seq<u8> := [0x1D] + b6;
    var b4: seq<u8> := [0x17] + b5;
    var b3: seq<u8> := [0xAA] + b4;
    var b2: seq<u8> := [0xA3] + b3;
    var b1: seq<u8> := [0x23] + b2;
    assert [0x2A] + b1 == [0x2A, 0x23, 0xA3, 0xAA, 0x17, 0x1D, 0x23];
    TypesFirst({}, 0x2A, b1);
    TypesFirst({SHIFT}, 0x23, b2);
    TypesFirst({SHIFT}, 0xA3, b3);
    TypesFirst({SHIFT}, 0xAA, b4);
    TypesFirst({}, 0x17, b5);
    TypesFirst({}, 0x1D, b6);
    TypesFirst({CTL}, 0x23, b7);
  }

  lemma TypingSteps()
    ensures Next({}, 0x2A) == {SHIFT} && Char({}, 0x2A) == 0
    ensures Next({SHIFT}, 0x23) == {SHIFT} && Char({SHIFT}, 0x23) == 72
    ensures Next({SHIFT}, 0xA3) == {SHIFT} && Char({SHIFT}, 0xA3) == 0
    ensures Next({SHIFT}, 0xAA) == {} && Char({SHIFT}, 0xAA) == 0
    ensures Next({}, 0x17) == {} && Char({}, 0x17) == 105
    ensures Next({}, 0x1D) == {CTL} && Char({}, 0x1D) == 0
    ensures Next({CTL}, 0x23) == {CTL} && Char({CTL}, 0x23) == 8
    ensures Chars({CTL}, []) == []
  {
  }

  // ----- The code -----

  class Kbd {
    var shift: Flags

    constructor ()
      ensures shift == {}
    {
      shift := {};
    }

    /** The status port says whether a byte is there (`dataInBuffer`) and whether it comes from the
        mouse; `reboot` is the Ctrl-Alt-Del request to port 0x92. */
    method KbdProcData(dataInBuffer: bool, fromMouse: bool, port: u8) returns (c: int, reboot: bool)
      modifies this
      ensures !dataInBuffer || fromMouse ==> c == -1 && shift == old(shift) && !reboot
      ensures dataInBuffer && !fromMouse ==> c == Char(old(shift), port) && shift == Next(old(shift), port)
      ensures reboot <==> CTL in shift && ALT in shift && c == PREFIXED_CONTROL_KEYS[0x53]
    {
      reboot := false;
      if !dataInBuffer || fromMouse {
        return -1, false;
      }
      var data: u8 := port;
      if data == E0 {
        shift := shift + {E0ESC};
        return 0, false;
      } else if data >= 0x80 {
        data := if E0ESC in shift then data else data - 0x80;
        shift := shift - (ShiftCode(data) + {E0ESC});
        return 0, false;
      } else if E0ESC in shift {
        data := data + 0x80;
        shift := shift - {E0ESC};
      }
      shift := shift + ShiftCode(data);
      shift := (shift - ToggleCode(data)) + (ToggleCode(data) - shift);
      assert shift == Next(old(shift), port);
      c := CharCode(shift, data);
      if CAPSLOCK in shift {
        c := SwapCase(c);
      }
      if CTL in shift && ALT in shift && c == KEY_DEL {
        reboot := true;
      }
    }
  }
}
