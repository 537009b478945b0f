# Verified model of the JOS kernel's pure core

This project models, in Dafny, the parts of the JOS lab-1 kernel that compute rather than talk to
hardware, and proves what they promise: the stab lookup behind backtraces, the formatter and the
number parser, the console with its line editor, the memory primitives, the boot loader and the
tokenizer of the kernel monitor. `dafny verify dfyconfig.toml` checks all of it.

| file | models |
|---|---|
| `Machine.dfy` | machine integers, small helpers |
| `Strings.dfy` | C strings, `strnlen`, `strchr`, `strfind` |
| `Memory.dfy` | `memmove`, `memset` |
| `StabSearch.dfy`, `Kdebug.dfy` | `stab_binsearch`, `debuginfo_eip` |
| `Numbers.dfy`, `Printfmt.dfy`, `Snprintf.dfy` | `printnum`, `vprintfmt`, `vsnprintf` |
| `Compose.dfy` | what two formats in a row write |
| `Strtol.dfy`, `RoundTrip.dfy` | `strtol`; the grammar of escapes; printing and parsing together |
| `Screen.dfy` | `cga_putc`, `cons_putc` |
| `Keyboard.dfy`, `ConsoleInput.dfy` | `kbd_proc_data` and its tables; `cons_intr`, `cons_getc`, `getchar` |
| `Readline.dfy`, `Terminal.dfy` | `readline`, for any keys and driven by `getchar` |
| `Boot.dfy` | `readseg`, `bootmain` |
| `Monitor.dfy` | the tokenizer of `runcmd`, and one turn of `monitor` |

Code that loops or updates state is a method (with a class where the source keeps state between
calls), and each method is tied to a function on values; the lemmas are about those functions.

## What the proofs say about the code

- **Stab search.** On a sorted range, the binary search reports what a linear scan reports if and only
  if it does not overshoot (`SearchIsLinearScan`). It overshoots when, after an exact match, the rest
  of the bracket holds a stab at `addr + 1`, or `addr + 1` wraps to 0: the code goes on with
  `addr + 1` and then takes that stab for another exact match. The values 5, 6 with address 5 are an
  example (`OvershootExample`). One address, 2^32 - 2, has a second chance: there the second increment
  wraps and can undo the damage, and the condition (`Overshoots`) says exactly when.
- **Empty regions.** The comment at kern/kdebug.c:32-34 says that `left > right` means "not contained
  in any matching stab". In fact, on every table, `left > right` happens only when the range has no
  stab of the type; with all of them above the address the region is not empty (`EmptyRegion`,
  `AllAbove`). `debuginfo_eip` then takes the file's own stab for a function, exactly when the file has
  functions but all of them lie above the address (`LookupWithoutFunction`, `SpuriousFunctionExample`).
  An N_SO stab at index 0 above the address makes it read before the table (`FileSearch`,
  `FaultExample`).
- **Lines and arguments.** The comments at kern/kdebug.c:173-175 and 198-199 say that the lookup fails
  without a line, and that it counts the arguments of the function. The code never fails once a file
  is found (`LookupFinds`). For an address with a line it counts the parameter stabs behind the
  line's stab, not those behind the function's (`ParametersBehindLine`); in front of the first line it
  counts the function's own, but not a stab directly in front of that line (`ParametersBeforeLine`).
  Both lemmas say exactly what is counted; without parameter stabs between the lines, the count is
  right just for functions without parameters, and for those with another stab between the last
  parameter and the first line.
- **Printing and parsing.** `strtol` reads `%d`, `%o`, `%u`, `%x` output back if and only if no padding
  stands between a minus sign and the digits, or passes for a sign (`Readable`), and the magnitude is
  below 2^31 (`PrintThenParse`): `long` has 32 bits on the target, so the upper half of the `%u`, `%x`
  and `%p` words, kernel addresses among them, overflows on the way (`PointerRoundTrip`).
  `%o` is signed in this tree. A precision of 0 cannot be written in digits, since the `0` is taken for
  the pad flag (`ZeroPrecisionIsLost`). A format with defined behaviour composes with every other one
  if and only if it does not end in the middle of an escape (`FormatsComposeIff`). The formatter has no
  limit, but `vsnprintf` counts in an `int` (`Vsnprintf`, `LengthOverflows`).
- **Boot.** Whether loading whole sectors in header order gives the right memory image for every disk
  is a test on the headers: whoever writes a byte of a segment last must load it with the displacement
  that the segment asks for (`LoadIsCorrectIff`). When the first page of the image, which holds the
  headers, is given, bytes of that page may also be right by their value (`BootIsCorrectIff`).
  Increasing order with equal address and offset modulo 512 suffices, and so does one common
  displacement in any order. A segment whose end wraps at 32 bits is hardly copied at all.
- **Input ring.** There is no check for a full ring. Of everything waiting or coming in, exactly the
  last (count mod 512) characters can be read (`BurstLaw`); over a whole run the ring is a lossless
  queue if and only if no burst finds too little room (`LosslessQueue`).
- **Keyboard.** `KeyTypes`, `ControlTypes` and `PrefixedKeyTypes` say what every key types. In the table
  for CTL the entry for Home sits at 0x97 instead of 0xC7, so Ctrl-Home types nothing.
- **Line editor.** Whatever is typed on whatever screen, at every step the cells from the start of the
  edit to the cursor are the characters of the buffer (`EchoShowsLine`). A DEL on an empty line is
  stored as a character. From the devices on: unless the ring is overrun, the line is what these rules
  make of everything that comes in (`LineOfEverything`, `LineOfScancodes`).

## Model

| member | source | states |
|---|---|---|
| StabSearch.LastOfType | kern/kdebug.c:59-61 | the last stab of the type in a range, or none: nothing of the type lies behind it |
| StabSearch.LastAtOrBelow | kern/kdebug.c:26-32 | reference scan: the last stab of the type at or below the address; all later ones are above |
| StabSearch.FirstAbove | kern/kdebug.c:26-32 | reference scan: the first stab of the type above the address; all earlier ones are at or below |
| StabSearch.ProbeAt | kern/kdebug.c:57-61 | the stab one iteration compares with is the last of the type in the lower half of the bracket |
| StabSearch.NextDecreases | kern/kdebug.c:56-82 | every iteration shrinks the bracket to half, or is an exact match whose stab cannot match again |
| StabSearch.FirstHit | kern/kdebug.c:75-81 | the state at the first exact match of a plain binary search for the address, inside the given bracket |
| StabSearch.FirstHitIsComplete | kern/kdebug.c:56-82 | on a sorted bracket that plain search misses no equal stab |
| StabSearch.StepsWithoutHit | kern/kdebug.c:56-82 | on any table, a search that meets no exact match halves its bracket in every iteration |
| StabSearch.NextKeepsBracketed | kern/kdebug.c:62-81 | invariant of one iteration: all stabs left of the bracket are at or below the cut, all right of it above |
| StabSearch.LoopWithoutHit | kern/kdebug.c:56-93 | a search that meets no exact match ends in the linear scan's bracket, in at most floor(log2 n) + 1 iterations |
| StabSearch.LoopToHit | kern/kdebug.c:56-82 | up to the first exact match the loop is the plain search, with an exact account of iterations |
| StabSearch.LoopAfterWrap | kern/kdebug.c:75-81 | once the address has wrapped to 0, the right end moves in front of the matched stab |
| StabSearch.LoopKeeps | kern/kdebug.c:56-82 | a stab once accepted as left end is never given up, however often the address is incremented |
| StabSearch.SearchIsLinearScan | kern/kdebug.c:51-94 | sorted range: the result is that of the linear scan, in all three outcomes, iff the search does not overshoot |
| StabSearch.AfterHit | kern/kdebug.c:75-81 | after a first exact match, the final result is right iff there is no second one, or its wrap undoes it |
| StabSearch.AfterSecondHit | kern/kdebug.c:75-81 | after a second exact match the result is right only in the wrap case described there |
| StabSearch.NoOvershoot | kern/kdebug.c:75-81 | it is enough that the range does not hold both `addr` and `addr + 1`, and that `addr + 1` does not wrap |
| StabSearch.OvershootsByData | kern/kdebug.c:75-81 | on a sorted range, for every address but 2^32 - 2: the search overshoots iff the bracket left after the first exact match holds a stab at `addr + 1`, or, for 2^32 - 1, iff there is an exact match |
| StabSearch.OvershootExample | kern/kdebug.c:75-81 | values 5, 6 and address 5: the search reports index 1, the linear scan index 0 |
| StabSearch.EmptyRegion | kern/kdebug.c:30-34 | on every table, range and address: `left > right` iff the range has no stab of the type, and then the region is `lo`, `lo - 1`; against the wider claim of the comment |
| StabSearch.LastBelow | kern/kdebug.c:26-32 | with a stab of the type at or below the address: the region runs from the last such stab to in front of the next stab of the type |
| StabSearch.AllAbove | kern/kdebug.c:30-34 | with all stabs of the type above the address, the region runs from the start of the range to in front of the first one |
| StabSearch.Search | kern/kdebug.c:50-94 | on any table, sorted or not, the result stays within one of the given range |
| StabSearch.SearchIsFast | kern/kdebug.c:56-82 | on any table and for every address, at most floor(log2 n) + 2 iterations when `addr` and `addr + 1` (as a 32-bit sum) do not both occur |
| StabSearch.HalvingsIsLog2 | kern/kdebug.c:56-57 | the halving count used in the bounds is floor(log2 n) + 1 |
| StabSearch.StabBinsearch | kern/kdebug.c:50-94 | computes the search, agrees with the linear scan iff it does not overshoot, and counts its iterations |
| StabSearch.Narrow | kern/kdebug.c:56-82 | the loop body |
| StabSearch.FinishRegion | kern/kdebug.c:84-93 | the end of the function, after the loop |
| StabSearch.WalkBack | kern/kdebug.c:59-61 | the two inner loops that step down to a stab of the type |
| Kdebug.LastFileStab | kern/kdebug.c:185-193 | the last N_SOL stab, or N_SO stab with an address, in a range |
| Kdebug.ParameterRun | kern/kdebug.c:198-204 | the number of N_PSYM stabs in a row |
| Kdebug.FindAnchor | kern/kdebug.c:146-168 | where the line search starts: at a function iff one lies at or below the address; the file's own stab passes for a function iff the file has functions, but only above the address |
| Kdebug.FileSearch | kern/kdebug.c:139-144 | a clean file search: negative, zero or the nearest file, and its last stab |
| Kdebug.FunctionSearch | kern/kdebug.c:146-168 | a clean function search returns exactly the anchor |
| Kdebug.LineSearch | kern/kdebug.c:173-182 | a clean line search returns the line's stab, or stays at the anchor |
| Kdebug.DebuginfoEip | kern/kdebug.c:104-207 | for every table and address, outcome and all fields: panic, bad string table, what the binary searches compute, and, for clean lookups, what the linear scans define |
| Kdebug.FillInfo | kern/kdebug.c:146-206 | the part after the file has been found, on any table: every field, and when it would read before the table |
| Kdebug.FillFunction | kern/kdebug.c:152-170 | function name, name length, start, and the relative address |
| Kdebug.FillLine | kern/kdebug.c:181-204 | line number, file name, parameter count |
| Kdebug.WalkToFile | kern/kdebug.c:190-193 | the backward walk finds the last stab that names a file |
| Kdebug.CountParameters | kern/kdebug.c:200-204 | counts the run of parameter stabs |
| Kdebug.CleanIsExpected | kern/kdebug.c:104-207 | when the three searches are clean, the code computes what linear scans define |
| Kdebug.SortedLookupIsClean | kern/kdebug.c:26-32 | it is enough that the stabs are in order in each range searched, and that `addr` and `addr + 1` are not both there |
| Kdebug.LookupFails | kern/kdebug.c:139-144 | with stab 0 not an N_SO stab: -1 iff no source file starts at or below the address, and then the fields keep their initial values |
| Kdebug.LookupFinds | kern/kdebug.c:146-182 | for an address in a function of a file: the start of the nearest function and the line it belongs to; without a line stab, the function stab's own field |
| Kdebug.LookupWithoutFunction | kern/kdebug.c:157-168 | for an address in front of all functions of its file, the file's start and name are reported as the function's; in a file without functions, the address itself, no name, no arguments and the file stab's line; the file name in both cases |
| Kdebug.SpuriousFunctionExample | kern/kdebug.c:149-156 | a file at 0xf0100000, its function at 0xf0100040, the address 0xf0100010: a function at 0xf0100000 is reported |
| Kdebug.FaultExample | kern/kdebug.c:139-147 | a table whose stab 0 is an N_SO stab above the address leads to a read of `stabs[-1]` |
| Kdebug.ParametersBehindLine | kern/kdebug.c:198-204 | for an address with a line: exactly which parameter stabs are counted, those behind the line's stab; without any there, the count is right iff the function has no parameters |
| Kdebug.ParametersBeforeLine | kern/kdebug.c:198-204 | for an address in front of the first line: the function's own parameters without the stab in front of that line; right iff there are none, or another stab lies between them and the line |
| Kdebug.ParameterIsMissed | kern/kdebug.c:198-204 | a function with one parameter stab and a line: 0 is reported |
| Kdebug.LastParameterIsMissed | kern/kdebug.c:198-204 | two parameter stabs in front of the first line: 1 is reported in front of it |
| Kdebug.LookupNames | kern/kdebug.c:152-195 | the function's name, inside the string table, up to a colon or NUL, else "<unknown>"; the file named last by N_SOL, or by N_SO with an address, at or before the function's stab |
| Kdebug.NamesExample | kern/kdebug.c:152-195 | "f:F" in "a.c": offsets 5 and 1, name length 1 |
| Kdebug.IncludedExample | kern/kdebug.c:185-195 | the same function in an included file: the N_SOL name wins |
| Strings.FindChar | lib/string.c:109-118 | the first position with the character or a NUL |
| Strings.Strfind | lib/string.c:111-118 | finds that position without leaving the string |
| Strings.Strchr | lib/string.c:98-107 | a pointer iff the character occurs, and then to its first occurrence |
| Strings.Strnlen | lib/string.c:21-29 | the smaller of the length and the bound |
| Memory.Memmove | lib/string.c:141-169 | for every overlap the destination holds the old source bytes, and nothing else changes |
| Memory.MovslForward | lib/string.c:161-163 | forward copy by words |
| Memory.MovslBackward | lib/string.c:152-154 | backward copy by words |
| Memory.MovsbForward | lib/string.c:164-166 | forward copy by bytes |
| Memory.MovsbBackward | lib/string.c:155-157 | backward copy by bytes |
| Memory.MoveWord | lib/string.c:152-163 | one word extends the copied range at either end, if its source has not been overwritten |
| Memory.CopiedIsMoved | lib/string.c:141-169 | the pointwise account of a copy determines the whole memory |
| Memory.ReplicatedWord | lib/string.c:129-130 | the word built by shifts fits in 32 bits and holds the byte four times |
| Memory.Memset | lib/string.c:121-139 | both fill paths set exactly the given bytes |
| Memory.Stosl | lib/string.c:128-133 | the word fill sets exactly the given bytes |
| Memory.Stosb | lib/string.c:134-137 | the byte fill sets exactly the given bytes |
| Numbers.Digits | lib/printfmt.c:35-50 | the digits of a number, all below the base |
| Numbers.DigitsDenote | lib/printfmt.c:35-50 | they evaluate to the number, without a leading zero unless it is 0 |
| Numbers.DigitsAreShortest | lib/printfmt.c:35-50 | no shorter numeral denotes the same number |
| Numbers.DigitCharacters | lib/string.c:267-275 | the characters that are digits, in both cases, with their values, and no others |
| Numbers.DigitsAreLower | lib/printfmt.c:49 | numbers are written with 0-9 and a-f |
| Numbers.FieldMeaning | lib/printfmt.c:35-50 | a number in its field: the sign, then pad characters up to the width, then the digits |
| Numbers.OctalExample | lib/printfmt.c:35-50 | 6828 is 15254 in octal |
| Numbers.PaddedStep | lib/printfmt.c:40-49 | padding in the deepest call with a decremented width equals padding the whole number |
| Numbers.PrintNum | lib/printfmt.c:35-50 | exactly max(0, width - k) pad characters, then the k digits |
| Strtol.SkipBlanks | lib/string.c:245-247 | the first position that is neither blank nor tab |
| Strtol.SkipDigits | lib/string.c:263-279 | the end of the longest run of digits of the base |
| Strtol.Strtol | lib/string.c:239-284 | value and end pointer: blanks, sign, prefix, longest numeral; overflow iff a step of the accumulation leaves the 32-bit `long` |
| Strtol.ReadDigits | lib/string.c:263-279 | the digit loop computes the positional value of the longest numeral, and stays in `long` iff that value does |
| Strtol.LiteralsAreRead | lib/string.c:255-261 | with base 0, every hexadecimal, octal and decimal literal is read to its end in its own base; base 16 accepts the prefix as well |
| Strtol.Prefix | lib/string.c:255-261 | a given base never changes; two characters are skipped iff base 0 or 16 meets `0x`; base 0 becomes 16, 8 or 10 with 2, 1 or 0 characters skipped |
| Numbers.PartialValues | lib/string.c:277-278 | the value held on the way never exceeds the final one |
| Strtol.StepsFitIff | lib/string.c:277-278 | no step of the accumulation leaves `long` iff the final value fits |
| Strtol.ParseNumeral | lib/string.c:239-284 | a numeral of base 2 to 36 after blanks or tabs and a sign is read up to the first other character, with its value, negated iff the sign is '-', or overflows iff that exceeds `long` |
| Strtol.ParseStops | lib/string.c:249-253 | a sign without a digit behind it is read as 0 and stops there |
| Strtol.RoundTrip | lib/string.c:239-284 | for every number, base 2 to 16, width and pad character: read back to the terminator iff readable and below 2^31 in magnitude |
| Printfmt.ScanFlags | lib/printfmt.c:104-156 | the flags end at the first character that is none, inside the format |
| Printfmt.ScanPut | lib/printfmt.c:104-156 | the `goto reswitch` loop computes the flags and the arguments they use |
| Printfmt.ReadNumber | lib/printfmt.c:118-133 | the digits of a width or precision, and where they end; overflow of `int` iff the number exceeds INT_MAX - 48 |
| Printfmt.StringPut | lib/printfmt.c:175-188 | the four loops of `%s` write the string in its field |
| Printfmt.PutBody | lib/printfmt.c:183-187 | the characters up to the precision, `?` for unprintable ones under `#` |
| Printfmt.NumberPut | lib/printfmt.c:191-231 | sign first, then the padded magnitude |
| Printfmt.ConvertPut | lib/printfmt.c:158-243 | every conversion character; a string argument is also a word, and NULL a string |
| Printfmt.VPrintFmt | lib/printfmt.c:82-246 | ends on every format and argument list, never reads past the NUL, and writes what the format denotes |
| Printfmt.Rewind | lib/printfmt.c:238-243 | the walk back stops just behind the '%' of the same escape |
| Printfmt.PlainRun | lib/printfmt.c:91-95 | text without '%' is copied |
| Printfmt.UnrecognisedIsVerbatim | lib/printfmt.c:238-243 | an unrecognised escape is put out verbatim, flags and all |
| Printfmt.StringFieldMeaning | lib/printfmt.c:174-188 | `%s` writes max(width, k) characters: the k that the precision admits, as signed characters or with '?' under '#', padded on the stated side |
| Printfmt.ErrorIsNested | lib/printfmt.c:163-172 | `%e` writes what the nested `printfmt` call writes |
| Printfmt.TextAround | lib/printfmt.c:82-246 | one conversion in running text |
| Compose.FormatsCompose | lib/printfmt.c:82-246 | a format with complete escapes and any other behind it write one output after the other, with the arguments split where the first stops using them |
| Compose.FormatsComposeIff | lib/printfmt.c:82-246 | a format with defined behaviour composes with every other one, for some split of the arguments, iff its last escape is complete |
| Compose.Shrinks | lib/printfmt.c:238-243 | with a `%` behind it, a format with an incomplete last escape writes no more characters than without, so it does not compose with `%` |
| Compose.StuckStaysStuck | lib/printfmt.c:82-246 | where the behaviour of a format ends, it ends with the same output whatever is put behind it |
| Compose.FirstPart | lib/printfmt.c:82-246 | what a format with complete escapes writes does not depend on what is put behind it |
| Compose.SecondPart | lib/printfmt.c:82-246 | what a format writes does not depend on what is in front of it, nor on the arguments used there |
| Compose.IncompleteEscape | lib/printfmt.c:238-243 | an example: `%` and `c` |
| Snprintf.SprintBuf.SprintPutch | lib/printfmt.c:264-270 | counts every character up to INT_MAX, stores it only while there is room |
| Snprintf.SprintBuf.PutAll | lib/printfmt.c:264-270 | the sink holds the prefix that fits and changes nothing else; the count overflows iff the output is longer than INT_MAX |
| Snprintf.Vsnprintf | lib/printfmt.c:272-287 | for a defined format returns the full length iff that is an `int`; then the buffer holds the first min(length, n - 1) characters, a NUL, and is otherwise unchanged |
| Snprintf.LengthOverflows | lib/printfmt.c:264-287 | two `%*d` fields of 2000000000 characters: the output is defined, its length is no `int` |
| RoundTrip.EscapeMeaning | lib/printfmt.c:104-156 | `%[flag]width[.precision][l...]c` sets exactly pad character, width, precision and length iff its numbers fit |
| RoundTrip.ZeroPrecisionIsLost | lib/printfmt.c:112-115 | a precision written `.0` sets the pad character instead |
| RoundTrip.OneEscape | lib/printfmt.c:82-246 | a format that is one such escape writes what its conversion says, if its numbers fit |
| RoundTrip.StarIsWidth | lib/printfmt.c:135-151 | `%*c` with a positive width is `%<width>c` |
| RoundTrip.StringEscape | lib/printfmt.c:174-188 | `%W.Ps` from the format string to the single characters |
| RoundTrip.PlainString | lib/printfmt.c:174-188 | `%s` writes an ASCII string as it is, and "(null)" for a null pointer |
| RoundTrip.NullString | lib/printfmt.c:176-177 | "(null)" for the word 0 as well |
| RoundTrip.AlternateString | lib/printfmt.c:144-146 | `%#s` writes '?' exactly for characters outside 32 to 126 |
| RoundTrip.PrecisionOnly | lib/printfmt.c:139-142 | `%.Ps` without a width cuts the string off after P characters |
| RoundTrip.StarPrecision | lib/printfmt.c:136-151 | `%.*s` takes the precision from the arguments; a negative one is none |
| RoundTrip.CharEscape | lib/printfmt.c:159-161 | `%c` hands on every `int` as it is |
| RoundTrip.PercentEscape | lib/printfmt.c:234-236 | `%%` writes a percent sign and uses no argument |
| RoundTrip.ErrorEscape | lib/printfmt.c:163-172 | `%e` writes the message of the code, for a code and its negation, and "error n" for an unknown one |
| RoundTrip.NumberEscape | lib/printfmt.c:52-76 | `%d`, `%o`, `%u`, `%x`, with any number of `l`, write exactly the number that the caller passed, in base 10, 8, 10, 16 |
| RoundTrip.StartupLine | kern/init.c:36 | the line of the kernel's start-up test comes out as "6828 decimal is 15254 octal!" |
| RoundTrip.PrintThenParse | lib/printfmt.c:191-231 | every number passed to `%d`, `%o`, `%u`, `%x`, with any number of `l`, and `strtol`: read back iff readable and below 2^31 in magnitude |
| RoundTrip.PlainPrintThenParse | lib/printfmt.c:191-231 | without flags and width a number comes back if it is below 2^31 in magnitude, and overflows `strtol` if not |
| RoundTrip.PointerRoundTrip | lib/printfmt.c:216-223 | `%p` writes `0x` and the digits, which `strtol` reads back with base 0 and with base 16 if the address is below 2^31, and overflows if not |
| RoundTrip.ErrorSignIgnored | lib/printfmt.c:15-19 | `-E` and `E` are equivalent error codes |
| Screen.Put | kern/console.c:162-202 | the terminal on a roll of paper keeps its cursor on the visible part |
| Screen.CursorMoves | kern/console.c:162-202 | where newline, return, backspace, tab and every other character put the cursor, and when the roll grows |
| Screen.CellsWritten | kern/console.c:162-202 | what each character writes, with its attribute, and that no other cell changes |
| Screen.ScrolledRowsStay | kern/console.c:194-202 | over every run, rows that have scrolled off never change |
| Screen.ScreenIsEndlessRoll | kern/console.c:162-202 | over every run, scrolled-off rows and screen together are an endless roll, still blank below the screen |
| Screen.MovedCells | kern/console.c:198 | moving the bytes moves the cells up one row |
| Screen.StoredCell | kern/console.c:190 | two byte stores are one cell store |
| Screen.CellBytes | kern/console.c:190 | in video memory the character comes first and the attribute second |
| Screen.Console.CgaPutc | kern/console.c:162-209 | one character does to (scrolled-off rows ++ screen) what it does to the roll, and the cursor is reported |
| Screen.Console.ScrollAndMove | kern/console.c:194-208 | the scroll pulls up one blank row and keeps the cursor on its cell |
| Screen.Console.BlankLastRow | kern/console.c:199-200 | the loop that blanks the last row |
| Screen.Console.ConsPutc | kern/console.c:432-438 | the same character reaches the screen, the serial and the parallel port |
| Screen.Console.ConsPuts | kern/printf.c:9-14 | a run of `putch` calls reaches the screen and both ports, character by character |
| Screen.TextOnWire | kern/console.c:432-438 | without tabs both ports get the low byte of each character |
| Screen.TabIsFiveSpaces | kern/console.c:181-187 | a tab does to the roll what five spaces do |
| Keyboard.EscapeMeaning | kern/console.c:331-344 | for every byte stream: E0ESC iff the last byte was 0xE0 |
| Keyboard.CapsLockMeaning | kern/console.c:347 | for every byte stream: CAPSLOCK is the parity of unprefixed 0x3A bytes |
| Keyboard.NumLockMeaning | kern/console.c:347 | the same for NUMLOCK and 0x45 |
| Keyboard.ScrollLockMeaning | kern/console.c:347 | the same for SCROLLLOCK and 0x46 |
| Keyboard.ModifierMeaning | kern/console.c:335-346 | for every byte stream: SHIFT, CTL, ALT iff the last press or release byte of one of their keys was a press |
| Keyboard.LetterCase | kern/console.c:349-355 | without CTL a letter key types upper case iff exactly one of SHIFT and CAPSLOCK is on |
| Keyboard.KeyTypes | kern/console.c:243-283 | what each key of the rows types without CTL, with and without SHIFT and CAPSLOCK |
| Keyboard.OtherKeysTypeNothing | kern/console.c:243-283 | all other keys type nothing |
| Keyboard.ReleaseTypesNothing | kern/console.c:335-339 | a released key types nothing |
| Keyboard.ControlTypes | kern/console.c:287-302 | with CTL a letter types the control character of its number in the alphabet, whatever SHIFT and CAPSLOCK are |
| Keyboard.PrefixedKeyTypes | kern/console.c:243-302 | what the keys type that send 0xE0 first, with and without CTL |
| Keyboard.TypingExample | kern/console.c:315-365 | a shifted h, an i and Ctrl-H from their scancodes |
| Keyboard.Kbd.KbdProcData | kern/console.c:315-365 | character and new flags of one scancode byte; reboot iff CTL and ALT are down and it types what the Del key types |
| ConsoleInput.BurstLaw | kern/console.c:395-407 | after a burst exactly the last (count mod 512) characters are readable |
| ConsoleInput.NonZeroKeeps | kern/console.c:400-402 | characters other than 0 are all kept |
| ConsoleInput.NonZeroDrops | kern/console.c:400-402 | a 0 is dropped, wherever it stands |
| ConsoleInput.LosslessQueue | kern/console.c:387-429 | over every run from every state: characters read ++ waiting == those before ++ delivered iff no burst overran the ring |
| ConsoleInput.OverrunsLose | kern/console.c:395-407 | from the first overrun on, fewer characters are read or waiting than were delivered |
| ConsoleInput.TypingIsLossless | kern/console.c:395-429 | over every sequence of polls: what successive reads return ++ what waits == what was waiting ++ what came in iff no poll overran the ring |
| ConsoleInput.PollsAreOps | kern/console.c:410-429 | a poll and the read behind it are two bursts, serial first, and a read |
| ConsoleInput.KeyboardOnly | kern/console.c:367-371 | without a serial port, what comes in is what the scancode machine makes of all scancodes, however they are spread over the polls |
| ConsoleInput.ArrivesNext | kern/console.c:410-419 | one more poll brings its serial bytes and then the characters of its scancodes |
| ConsoleInput.ConsBuf.Store | kern/console.c:403-405 | one character, with the wrap of the index |
| ConsoleInput.ConsBuf.ConsIntr | kern/console.c:395-407 | the burst law for the real ring; no readable byte is 0 |
| ConsoleInput.ConsBuf.KbdIntr | kern/console.c:367-371 | scancodes become characters in the ring |
| ConsoleInput.ConsBuf.Take | kern/console.c:421-428 | the oldest character, or 0 if none waits |
| ConsoleInput.ConsBuf.ConsGetc | kern/console.c:410-429 | serial first, then keyboard, then the oldest character |
| ConsoleInput.ConsBuf.Getchar | kern/console.c:461-469 | waits until a poll leaves a character, and returns the first of everything that came in |
| Readline.RunStops | lib/readline.c:30-35 | keys after the end of the line are not looked at |
| Readline.OngoingIff | lib/readline.c:17-36 | the edit goes on iff no key was a newline, a carriage return or an error |
| Readline.FirstEnd | lib/readline.c:19-34 | the first such key decides: an error is handed on, Enter returns the line in front of it and echoes a newline |
| Readline.ReturnedIff | lib/readline.c:30-34 | without errors a line is finished iff some key is 10 or 13 |
| Readline.TextIsTaken | lib/readline.c:26-29 | text without DEL is the line, and the echo, up to 1023 characters |
| Readline.Inserts | lib/readline.c:26-29 | a text key is appended and echoed, and so is a DEL on an empty line |
| Readline.Erases | lib/readline.c:22-25 | backspace and DEL take the last character away |
| Readline.EraseRestores | lib/readline.c:22-29 | erasing behind an inserted character restores the line |
| Readline.Ignored | lib/readline.c:22-34 | the keys without effect |
| Readline.PromptIsText | lib/readline.c:12-13 | an ASCII prompt is written as it is |
| Readline.ReadErrorMessage | lib/readline.c:20 | the message after a read error names the error |
| Readline.LineIsText | lib/readline.c:22-29 | at every step a line is at most 1023 characters, none below a space |
| Readline.EchoShowsLine | lib/readline.c:17-36 | for every key sequence and screen, at every step the screen shows the buffer, and its start is visible |
| Readline.EditIsOnScreen | lib/readline.c:17-36 | for every key sequence and screen: the line is on the screen while it is edited, after its end, and after a read error |
| Readline.InsertShows | lib/readline.c:26-29 | an inserted character appears at the cursor, across wraps and scrolls |
| Readline.EraseShows | lib/readline.c:22-25 | an erased character is blanked and the rest of the line stays |
| Readline.StartIsVisible | lib/readline.c:26 | a line is shorter than the screen, so its start has not scrolled off |
| Readline.FinishedLineIsShown | lib/readline.c:30-35 | the returned line stays on the screen above the cursor |
| Readline.ReadLine | lib/readline.c:7-37 | buffer, screen and both ports are those of the edit rules over the keys, and the screen shows the buffer, for all three ways to end or wait |
| Readline.EditKey | lib/readline.c:18-36 | the body of the loop does one edit step to buffer, screen and ports, or ends |
| Readline.Cprintf | kern/printf.c:27-37 | the formatted text is written to the screen and both ports |
| Terminal.ReadTypedLine | lib/readline.c:7-37 | the same with `getchar`: the line is edited from scancodes and serial bytes, no poll beyond the one that ends it is taken, and the ring keeps the rest |
| Terminal.NextKey | kern/console.c:461-469 | each call of `getchar` brings the next key of the polls |
| Terminal.LineOfEverything | lib/readline.c:7-37 | without overrun the finished line is what the edit rules make of everything that was waiting or came in |
| Terminal.LineOfScancodes | lib/readline.c:7-37 | without a serial port it is what they make of the characters of all scancodes |
| Boot.Readsect | boot/main.c:106-124 | one sector is copied, nothing else changes |
| Boot.Readseg | boot/main.c:71-96 | memory after a segment, including what is copied beyond both its ends, with the 32-bit sum for the end |
| Boot.CoversSectors | boot/main.c:71-96 | exactly the sectors from the boundary in front of the segment to its end are copied, with the end as a 32-bit sum |
| Boot.LastWriter | boot/main.c:84-95 | the last segment whose sectors cover an address |
| Boot.LastWriterWins | boot/main.c:51-56 | after all loads every byte comes from the last segment that covers it |
| Boot.CorrectIff | boot/main.c:54-56 | a correct image: byte n of each segment is byte `offset + n` of the image, which starts in sector 1 |
| Boot.LoadIsCorrectIff | boot/main.c:84-86 | given headers, all segments are right for every disk iff the layout test on them holds |
| Boot.LoadIsCorrectIffByHeader | boot/main.c:84-86 | the same for all disks with a given first page: iff every byte has the right source, or is fixed by that page |
| Boot.BootIsCorrectIff | boot/main.c:38-67 | for a bootable disk: at the jump every image with the same first page has all its own segments right iff that test holds |
| Boot.LayoutOkSuffices | boot/main.c:84-86 | the layout test is enough for any given disk |
| Boot.LayoutOkNecessary | boot/main.c:84-86 | a byte from the wrong source shows on a disk that differs from a given one in one byte |
| Boot.WrongByte | boot/main.c:84-86 | otherwise there is a disk with the same first page that shows the error |
| Boot.IncreasingIsOk | boot/main.c:84-86 | what "we load in increasing order" has to mean for the test to hold |
| Boot.SharedDisplacementIsOk | boot/main.c:84-86 | overlaps are harmless when all segments share one displacement |
| Boot.HeaderIsLoaded | boot/main.c:43-44 | the first page of the image is at ELFHDR |
| Boot.MagicIff | inc/elf.h:4 | the magic number matches iff the image starts with 7F 'E' 'L' 'F' |
| Boot.HeaderFields | inc/elf.h:6-22 | from the bytes of `struct Elf`, lowest byte first, the loader reads back magic, entry, phoff and phnum |
| Boot.ProgramHeaderFields | inc/elf.h:24-33 | from the bytes of `struct Proghdr` it reads back pa, memsz and offset |
| Boot.Bootmain | boot/main.c:38-67 | stops iff the magic number is wrong; a bootable image is loaded completely and entered at its entry point, with every segment right if the layout test holds |
| Boot.LoadSegments | boot/main.c:51-56 | the loop over headers that are read from memory while memory is being overwritten |
| Boot.BootImageCorrect | boot/main.c:38-67 | increasing segments: at the jump every segment holds its image bytes |
| Monitor.WordsAreMaximalRuns | kern/monitor.c:114-129 | the words of a line are exactly its maximal whitespace-free runs |
| Monitor.WordsAreOrdered | kern/monitor.c:114-129 | they come in order and never touch |
| Monitor.IsSpaceIff | kern/monitor.c:102 | whitespace is tab, carriage return, newline and blank |
| Monitor.Tokenize | kern/monitor.c:111-130 | argv holds the words as C strings in place, other bytes are unchanged, and a 16th word stops it |
| Monitor.GobbleWhitespace | kern/monitor.c:115-117 | whitespace becomes NUL up to the next word |
| Monitor.SkipWord | kern/monitor.c:127-128 | steps over one word |
| Monitor.ReadCommand | kern/monitor.c:143-158 | from scancodes and serial bytes to words: the words are those of the line the edit rules leave and the screen shows |

## Left out

- Printfmt.VPrintFmt: the calls of `putch` are collected and handed to the sink afterwards; the callback never influences the formatter. A missing or mistyped argument, a number that overflows and the negation of the smallest integer end the run as `Stuck`, because C defines no behaviour for them. Two overflows of `int` do not: the decrements of a negative width that `*` takes from closer to -2^31 than the field has characters, and the count of 2^31 `l` flags.
- Printfmt.ConvertPut: a pointer to a string carries the string with it; a word that happens to be an address does not, so `%s` of one other than NULL is `Stuck`.
- Screen.Console.CgaPutc: the cursor read from the hardware at start-up is assumed to be on the screen.
- Keyboard.Kbd.KbdProcData: the bits of `shift` are a set of flags, since the code sets, clears and flips each on its own.
- ConsoleInput.ConsBuf.Getchar: what the devices deliver is a sequence of polls; the ports, status bits and delays themselves are not modelled.
- Readline.ReadLine: the keys are a sequence of `getchar` results, which may be negative here; when they run out the editor is `Blocked`.
- Boot.Readseg: a copy that would leave the modelled memory, and one whose last sector ends at 2^32, where the address wraps to 0 and the loop does not end, are excluded.
- Boot.Bootmain: the disk is a function from byte positions to bytes; a load that `Readseg` excludes ends as `Wild`.
- Port I/O, polling delays, `serial_init`, `lpt_putc`'s handshake, `cga_init`: hardware access.
- `cprintf`'s return count: `*cnt++` in kern/printf.c moves the pointer, so the count stays 0.
- Dispatch to the monitor commands and their output, `mon_backtrace`: a table search and compiler-specific stack offsets.
- `strlen`, `strcpy`, `strcmp` and the other simple string routines: only easy facts.
- Paging tables, segment layouts, assembly and build files, Python and Perl tooling, and the tests of code that is not in this tree.
