/** `vsnprintf`: the formatter into a buffer of limited size. */
module Snprintf {
  import opened Machine
  import opened Strings
  import opened Memory
  import opened Printfmt
  import opened Numbers
  import Compose

  class SprintBuf {
    const arr: array<u8>
    const ebuf: nat      // the last byte, kept for the terminator
    var buf: nat
    var cnt: i32

    ghost predicate Valid()
      reads this
    {
      ebuf < arr.Length && ebuf < INT_MAX && 0 <= cnt && buf == Min(cnt, ebuf)
    }

    constructor (a: array<u8>, n: i32)
      requires 1 <= n <= a.Length
      ensures Valid() && arr == a && ebuf == n - 1 && cnt == 0
    {
      arr, ebuf, buf, cnt := a, n - 1, 0, 0;
    }

    /** The count is an `int`; `fits` is false when it would overflow. */
    method SprintPutch(ch: int) returns (fits: bool)
      requires Valid()
      modifies this, arr
      ensures Valid() && (fits <==> old(cnt) < INT_MAX) && cnt == old(cnt) + if fits then 1 else 0
      ensures arr[..] == if old(cnt) < ebuf then old(arr[..])[old(cnt) := ToByte(ch)] else old(arr[..])
    {
      if cnt == INT_MAX {
        return false;
      }
      cnt := cnt + 1;
      if buf < ebuf {
        arr[buf] := ToByte(ch);
        buf := buf + 1;
      }
      return true;
    }

    /** The calls of `putch` that the formatter makes. */
    method PutAll(out: seq<int>) returns (fits: bool)
      requires Valid() && cnt == 0
      modifies this, arr
      ensures Valid() && (fits <==> |out| <= INT_MAX) && (fits ==> cnt == |out|)
      ensures forall k :: 0 <= k < arr.Length ==>
        arr[k] == if k < Min(|out|, ebuf) then ToByte(out[k]) else old(arr[k])
    {
      ghost var was := arr[..];
      fits := true;
      var i := 0;
      while i < |out| && fits
        invariant Valid() && 0 <= i <= |out| && cnt == Min(i, INT_MAX) && (fits <==> i <= INT_MAX)
        invariant forall k :: 0 <= k < arr.Length ==> arr[..][k] == if k < Min(i, ebuf) then ToByte(out[k]) else was[k]
      {
        fits := SprintPutch(out[i]);
        i := i + 1;
      }
      assert forall k :: 0 <= k < arr.Length ==> arr[k] == arr[..][k];
    }
  }

  /** Refines the unbounded formatter: the full length is returned, the buffer holds as much of the
      output as fits, then a NUL, and nothing else changes. `stuck`: the formatter has no defined
      behaviour, or the length is no `int`. */
  method Vsnprintf(buf: array?<u8>, n: i32, fmt: CString, args: seq<Arg>) returns (rc: i32, stuck: bool)
    requires buf != null && n >= 1 ==> n <= buf.Length
    modifies buf
    ensures buf == null || n < 1 ==> rc == -3 && !stuck
    ensures buf != null && n < 1 ==> buf[..] == old(buf[..])
    ensures buf != null && n >= 1 ==>
      (stuck <==> Format(fmt, 0, args, 0).Stuck? || |Format(fmt, 0, args, 0).out| > INT_MAX)
    ensures buf != null && n >= 1 && !stuck ==>
      var out := Format(fmt, 0, args, 0).out;
      var m := Min(|out|, n - 1);
      rc == |out| && buf[m] == NUL
      && forall k :: 0 <= k < buf.Length && k != m ==> buf[k] == if k < m then out[k] % 256 else old(buf[k])
    ensures buf != null && n >= 1 && stuck ==> forall k :: n - 1 <= k < buf.Length ==> buf[k] == old(buf[k])
  {
    hide Format;
    if buf == null || n < 1 {
      return -E_INVAL, false;
    }
    var b := new SprintBuf(buf, n);
    var r := VPrintFmt(fmt, args);
    var fits := b.PutAll(r.out);
    if r.Stuck? || !fits {
      return 0, true;
    }
    buf[b.buf] := NUL;
    return b.cnt, false;
  }

  const STAR_D: CString := CText("%*d")

  /** The formatter itself has no limit: with two fields of two thousand million characters each,
      the length is defined, and is no `int`. */
  lemma LengthOverflows()
    ensures var w := W32(2_000_000_000);
      var r := Format(Text(STAR_D) + STAR_D, 0, [w, W32(1), w, W32(1)], 0);
      r.Done? && |r.out| == 4_000_000_000 > INT_MAX
  {
    hide Format, Compose.Used;
    var w := W32(2_000_000_000);
    var args := [w, W32(1), w, W32(1)];
    WideField(2_000_000_000, 1, args);
    Compose.FormatsCompose(STAR_D, STAR_D, args);
    assert args[2..] == [w, W32(1)];
    WideField(2_000_000_000, 1, args[2..]);
  }

  lemma WideField(width: u32, n: u32, args: seq<Arg>)
    requires 1 <= width <= INT_MAX && n < 10 && |args| >= 2 && args[..2] == [W32(width), W32(n)]
    ensures Compose.Used(STAR_D, 0, args, 0) == Some(2)
    ensures var r := Format(STAR_D, 0, args, 0); r.Done? && |r.out| == width
  {
    assert args[0] == args[..2][0] && args[1] == args[..2][1];
    var sp := DEFAULT.(width := width);
    assert ScanFlags(STAR_D, 2, args, 1, sp) == Scan(sp, 2, 1);
    assert ScanFlags(STAR_D, 1, args, 0, DEFAULT) == Scan(sp, 2, 1);
    assert Convert(LETTER_D, sp, args, 1) == Written(Padded(n, 10, width, SPACE), 2);
    assert |Digits(n, 10)| == 1;
    assert Format(STAR_D, 3, args, 2) == Done([]);
    assert Compose.Used(STAR_D, 3, args, 2) == Some(2);
  }
}
