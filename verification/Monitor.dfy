/** The command tokenizer of the kernel monitor, which splits a line in place. */
module Monitor {
  import opened Machine
  import opened Strings
  import opened Screen
  import opened ConsoleInput
  import Keyboard
  import Readline
  import Terminal

  const MAXARGS: nat := 16
  const WHITESPACE: CString := CText("\t\r\n ")

  predicate IsSpace(c: u8) {
    c == 9 || c == 13 || c == 10 || c == 32
  }

  /** Whitespace is the characters of "\\t\\r\\n ". */
  lemma IsSpaceIff(c: u8)
    ensures IsSpace(c) <==> c in Ascii("\t\r\n ")
  {
    assert Ascii("\t\r\n ") == [9, 13, 10, 32];
  }

  // ----- The words of a line -----

  /** The first position at or after `i` that is not whitespace. */
  function WordStart(t: seq<u8>, i: nat): (k: nat)
    requires i <= |t|
    ensures i <= k <= |t| && (k < |t| ==> !IsSpace(t[k]))
    ensures forall j :: i <= j < k ==> IsSpace(t[j])
    decreases |t| - i
  {
    if i < |t| && IsSpace(t[i]) then WordStart(t, i + 1) else i
  }

  /** The first position at or after `i` that is whitespace. */
  function WordEnd(t: seq<u8>, i: nat): (k: nat)
    requires i <= |t|
    ensures i <= k <= |t| && (k < |t| ==> IsSpace(t[k]))
    ensures forall j :: i <= j < k ==> !IsSpace(t[j])
    decreases |t| - i
  {
    if i < |t| && !IsSpace(t[i]) then WordEnd(t, i + 1) else i
  }

  /** The words from position `i` on, as pairs of start and end. */
  function Words(t: seq<u8>, i: nat): (w: seq<(nat, nat)>)
    requires i <= |t|
    decreases |t| - i
  {
    var start := WordStart(t, i);
    if start == |t| then [] else [(start, WordEnd(t, start))] + Words(t, WordEnd(t, start))
  }

  /** A run without whitespace that cannot be extended on either side. */
  ghost predicate MaximalRun(t: seq<u8>, a: nat, b: nat) {
    && a < b <= |t|
    && (forall j :: a <= j < b ==> !IsSpace(t[j]))
    && (a == 0 || IsSpace(t[a - 1]))
    && (b == |t| || IsSpace(t[b]))
  }

  /** A place where no word is cut in two. */
  predicate Boundary(t: seq<u8>, i: nat)
    requires i <= |t|
  {
    i == 0 || i == |t| || IsSpace(t[i])
  }

  /** From a boundary on, the first word is a maximal run, and every other run comes after it. */
  lemma FirstRun(t: seq<u8>, i: nat, a: nat, b: nat)
    requires i <= |t| && Boundary(t, i) && WordStart(t, i) < |t|
    ensures var start := WordStart(t, i);
      var end := WordEnd(t, start);
      && MaximalRun(t, start, end) && i <= start
      && (MaximalRun(t, a, b) && i <= a ==> (a, b) == (start, end) || end <= a)
  {
    hide WordStart, WordEnd;
    var start := WordStart(t, i);
    var end := WordEnd(t, start);
    assert start > i ==> IsSpace(t[start - 1]);
    if MaximalRun(t, a, b) && i <= a {
      assert !IsSpace(t[a]);
      assert a >= start;
      if a > start {
        assert IsSpace(t[a - 1]);
      }
    }
  }

  /** The words are exactly the maximal runs. */
  lemma {:induction false} WordsAreMaximalRuns(t: seq<u8>, i: nat, a: nat, b: nat)
    requires i <= |t| && Boundary(t, i)
    ensures (a, b) in Words(t, i) <==> i <= a && MaximalRun(t, a, b)
    decreases |t| - i
  {
    hide WordStart, WordEnd, MaximalRun;
    var start := WordStart(t, i);
    if start < |t| {
      var end := WordEnd(t, start);
      FirstRun(t, i, a, b);
      WordsAreMaximalRuns(t, end, a, b);
      assert (a, b) in Words(t, i) <==> (a, b) == (start, end) || (a, b) in Words(t, end);
    } else if i <= a {
      NoRun(t, i, a, b);
    }
  }

  lemma NoRun(t: seq<u8>, i: nat, a: nat, b: nat)
    requires i <= |t| && WordStart(t, i) == |t| && i <= a
    ensures !MaximalRun(t, a, b)
  {
    if a < |t| {
      assert IsSpace(t[a]);
    }
  }

  /** The words come in the order of the line, and never touch. */
  lemma {:induction false} WordsAreOrdered(t: seq<u8>, i: nat, k: nat, l: nat)
    requires i <= |t| && k < l < |Words(t, i)|
    ensures Words(t, i)[k].1 < Words(t, i)[l].0
    ensures i <= Words(t, i)[k].0
    decreases |t| - i
  {
    var end := WordEnd(t, WordStart(t, i));
    if k > 0 {
      WordsAreOrdered(t, end, k - 1, l - 1);
    } else if l > 1 {
      WordsAreOrdered(t, end, 0, l - 1);
    } else {
      assert Words(t, end)[0].0 == WordStart(t, end);
    }
  }

  // ----- The code -----

  method IsWhite(c: u8) returns (r: bool)
    requires c != NUL
    ensures r <==> IsSpace(c)
  {
    var p := Strchr(WHITESPACE, c);
    IsSpaceIff(c);
    assert WHITESPACE == [9, 13, 10, 32, 0];
    return p.Some?;
  }

  /** The line in the buffer before position `p` has had its whitespace replaced by NULs. */
  ghost predicate Split(m: seq<u8>, was: seq<u8>, n: nat, p: nat) {
    && |m| == |was| && p <= n < |m|
    && forall k :: 0 <= k < |m| ==> m[k] == if k < p && IsSpace(was[k]) then NUL else was[k]
  }

  /** The C string at `start` is the word [start, end) of the line `t`. */
  ghost predicate HoldsWord(m: seq<u8>, t: seq<u8>, start: nat, end: nat) {
    start <= end <= |t| && end < |m| && m[start..end] == t[start..end] && m[end] == NUL
  }

  lemma NextWord(t: seq<u8>, words: seq<(nat, nat)>, argc: nat, p: nat)
    requires p <= |t| && argc <= |words| && words[argc..] == Words(t, p)
    ensures var start := WordStart(t, p);
      if start == |t| then argc == |words|
      else
        && argc < |words| && words[argc] == (start, WordEnd(t, start))
        && words[argc + 1..] == Words(t, WordEnd(t, start))
  {
    if argc < |words| {
      assert words[argc..] == [words[argc]] + words[argc + 1..];
    }
  }

  lemma WordIsHeld(m: seq<u8>, was: seq<u8>, n: nat, p: nat, k: nat)
    requires Split(m, was, n, p) && was[n] == NUL
    requires var words := Words(was[..n], 0);
      k < |words| && words[k].1 <= p && (p < n ==> !IsSpace(was[p]))
    ensures var (a, b) := Words(was[..n], 0)[k]; HoldsWord(m, was[..n], a, b)
  {
    hide Words;
    var t := was[..n];
    var (a, b) := Words(t, 0)[k];
    WordsAreMaximalRuns(t, 0, a, b);
    assert (a, b) in Words(t, 0);
    assert forall j :: a <= j < b ==> t[j] == was[j] && m[j] == was[j];
    assert b < n ==> t[b] == was[b];
  }

  /** What `Tokenize` leaves of a line: how many words it has, where they start, and whether there
      were too many of them. */
  ghost predicate IsSplit(line: seq<u8>, argc: nat, argv: seq<Option<nat>>, tooMany: bool, buf: seq<u8>) {
    var words := Words(line, 0);
    && |argv| == 16
    && (tooMany <==> |words| >= 16)
    && argc == Min(|words|, 15) && (!tooMany ==> argv[argc] == None)
    && forall k :: 0 <= k < argc ==> argv[k] == Some(words[k].0) && HoldsWord(buf, line, words[k].0, words[k].1)
  }

  /** The loop of `runcmd`. `n` is the position of the NUL that ends the line. */
  method Tokenize(buf: array<u8>, ghost n: nat) returns (argc: nat, argv: array<Option<nat>>, tooMany: bool)
    requires n < buf.Length && buf[n] == NUL && forall k :: 0 <= k < n ==> buf[k] != NUL
    modifies buf
    ensures fresh(argv) && argv.Length == MAXARGS
    ensures var t := old(buf[..n]);
      var words := Words(t, 0);
      && IsSplit(t, argc, argv[..], tooMany, buf[..])
      && Split(buf[..], old(buf[..]), n, if tooMany then words[MAXARGS - 1].0 else n)
  {
    hide Words, WordStart, WordEnd, HoldsWord;
    ghost var was := buf[..];
    ghost var t := buf[..n];
    ghost var words := Words(t, 0);
    argv := new Option<nat>[MAXARGS](_ => None);
    argc, tooMany := 0, false;
    argv[0] := None;
    var p: nat := 0;
    while true
      invariant p <= n && argc < MAXARGS && argc <= |words|
      invariant Split(buf[..], was, n, p) && (p == 0 || p == n || IsSpace(was[p]))
      invariant words[argc..] == Words(t, p)
      invariant forall k :: 0 <= k < argc ==> argv[k] == Some(words[k].0) && words[k].1 <= p
      invariant argv.Length == MAXARGS && fresh(argv)
      decreases n - p, if p < n && IsSpace(was[p]) then 0 else 1
    {
      NextWord(t, words, argc, p);
      p := GobbleWhitespace(buf, p, n, was);
      if buf[p] == NUL {
        break;
      }
      if argc == MAXARGS - 1 {
        tooMany := true;
        break;
      }
      argv[argc] := Some(p);
      argc := argc + 1;
      p := SkipWord(buf, p, n, was);
    }
    if !tooMany {
      argv[argc] := None;
    }
    forall k | 0 <= k < argc ensures HoldsWord(buf[..], t, words[k].0, words[k].1) {
      WordIsHeld(buf[..], was, n, p, k);
    }
  }

  lemma LineInBuffer(buf: array<u8>, keys: seq<Readline.Key>)
    requires Readline.Run(keys).Returned? && Readline.Buffered(buf[..], Readline.Run(keys))
    ensures var line := Readline.Run(keys).line;
      && |line| < buf.Length && buf[..|line|] == line && buf[|line|] == NUL
      && forall k :: 0 <= k < |line| ==> buf[k] != NUL
  {
    hide Readline.Run;
    Readline.LineIsText(keys);
    var line := Readline.Run(keys).line;
    assert buf[..][..|line|] == buf[..|line|];
    assert forall k :: 0 <= k < |line| ==> buf[k] == line[k];
  }

  /** What `monitor` does with one line: read it from the devices, and split it. Whatever comes in,
      the words are those of the line that the edit rules leave, and that the screen shows. */
  method ReadCommand(cons: Console, ring: ConsBuf, kbd: Keyboard.Kbd, serialExists: bool, buf: array<u8>,
                     prompt: Option<CString>, polls: seq<Poll>)
    returns (argc: nat, argv: array<Option<nat>>, tooMany: bool, outcome: Readline.Outcome, used: nat)
    requires cons.Valid() && ring.Valid() && buf.Length == Readline.BUFLEN
    requires buf != cons.crtBuf && ring.buf != cons.crtBuf && ring.buf != buf
    modifies cons, cons.crtBuf, ring, ring.buf, kbd, buf
    ensures ring.Valid() && argv.Length == MAXARGS && used <= |polls|
    ensures var typed := GetcAll(Typing(Input(old(ring.Pending()), old(kbd.shift)), []), serialExists, polls[..used]);
      var st := Readline.Run(typed.keys);
      && typed.input == Input(ring.Pending(), kbd.shift)
      && outcome == Readline.OutcomeOf(st)
      && Readline.Displayed(cons, old(cons.Paper()), old(cons.serial), old(cons.lpt), prompt, st)
      && (outcome == Readline.Line ==> IsSplit(st.line, argc, argv[..], tooMany, buf[..]))
  {
    hide Words, HoldsWord, Split, IsSplit, GetcAll, Readline.Run, Readline.Displayed, Readline.Buffered;
    outcome, used := Terminal.ReadTypedLine(cons, ring, kbd, serialExists, buf, prompt, polls);
    ghost var keys := GetcAll(Typing(Input(old(ring.Pending()), old(kbd.shift)), []), serialExists, polls[..used]).keys;
    argc, tooMany, argv := 0, false, new Option<nat>[MAXARGS](_ => None);
    if outcome == Readline.Line {
      LineInBuffer(buf, keys);
      argc, argv, tooMany := Tokenize(buf, |Readline.Run(keys).line|);
    }
  }

  method GobbleWhitespace(buf: array<u8>, start: nat, ghost n: nat, ghost was: seq<u8>) returns (p: nat)
    requires Split(buf[..], was, n, start) && buf.Length == |was| && was[n] == NUL
    requires forall k :: 0 <= k < n ==> was[k] != NUL
    modifies buf
    ensures p == WordStart(was[..n], start) && Split(buf[..], was, n, p)
    ensures buf[p] == NUL <==> p == n
  {
    p := start;
    var white := false;
    if buf[p] != NUL {
      white := IsWhite(buf[p]);
    }
    while buf[p] != NUL && white
      invariant start <= p <= n && Split(buf[..], was, n, p)
      invariant WordStart(was[..n], start) == WordStart(was[..n], p)
      invariant buf[p] != NUL ==> (white <==> IsSpace(buf[p]))
      decreases n - p
    {
      buf[p] := NUL;
      p := p + 1;
      if buf[p] != NUL {
        white := IsWhite(buf[p]);
      }
    }
  }

  method SkipWord(buf: array<u8>, start: nat, ghost n: nat, ghost was: seq<u8>) returns (p: nat)
    requires Split(buf[..], was, n, start) && buf.Length == |was| && was[n] == NUL
    requires forall k :: 0 <= k < n ==> was[k] != NUL
    ensures p == WordEnd(was[..n], start) && Split(buf[..], was, n, p)
  {
    p := start;
    while buf[p] != NUL
      invariant start <= p <= n && Split(buf[..], was, n, p)
      invariant WordEnd(was[..n], start) == WordEnd(was[..n], p)
      decreases n - p
    {
      var white := IsWhite(buf[p]);
      if white {
        break;
      }
      p := p + 1;
    }
  }
}
