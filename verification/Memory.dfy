/** `memmove` and `memset` on one byte array: the four copy paths and the two fill paths of the
    string instructions. `base` is the address of `mem[0]`; only alignment depends on it. */
module Memory {
  import opened Machine

  /** The memory after `n` bytes have moved from `src` to `dst`. */
  ghost function Moved(m: seq<u8>, dst: nat, src: nat, n: nat): seq<u8>
    requires dst + n <= |m| && src + n <= |m|
  {
    m[..dst] + m[src..src + n] + m[dst + n..]
  }

  /** The memory after `n` bytes from `dst` on have been set to `b`. */
  ghost function Filled(m: seq<u8>, dst: nat, b: u8, n: nat): seq<u8>
    requires dst + n <= |m|
  {
    m[..dst] + Repeat(b, n) + m[dst + n..]
  }

  /** Between `m` and `old`, exactly the bytes [lo, hi) of the destination have been copied. */
  ghost predicate Copied(m: seq<u8>, was: seq<u8>, dst: nat, src: nat, lo: nat, hi: nat)
    requires |m| == |was| && dst + hi <= |m| && src + hi <= |m|
  {
    forall a {:trigger m[a]} :: 0 <= a < |m| ==>
      m[a] == if dst + lo <= a < dst + hi then was[src + (a - dst)] else was[a]
  }

  lemma CopiedIsMoved(m: seq<u8>, was: seq<u8>, dst: nat, src: nat, n: nat)
    requires |m| == |was| && dst + n <= |m| && src + n <= |m|
    requires Copied(m, was, dst, src, 0, n)
    ensures m == Moved(was, dst, src, n)
  {
    assert |Moved(was, dst, src, n)| == |m|;
    assert forall a :: 0 <= a < |m| ==> m[a] == Moved(was, dst, src, n)[a];
  }

  method MovsbForward(mem: array<u8>, dst: nat, src: nat, n: nat)
    requires dst + n <= mem.Length && src + n <= mem.Length
    requires dst <= src || src + n <= dst
    modifies mem
    ensures Copied(mem[..], old(mem[..]), dst, src, 0, n)
  {
    var i: nat := 0;
    while i < n
      invariant i <= n && Copied(mem[..], old(mem[..]), dst, src, 0, i)
    {
      mem[dst + i] := mem[src + i];
      i := i + 1;
    }
  }

  method MovsbBackward(mem: array<u8>, dst: nat, src: nat, n: nat)
    requires src < dst && dst + n <= mem.Length && src + n <= mem.Length
    modifies mem
    ensures Copied(mem[..], old(mem[..]), dst, src, 0, n)
  {
    var i: nat := n;
    while i > 0
      invariant i <= n && Copied(mem[..], old(mem[..]), dst, src, i, n)
    {
      i := i - 1;
      mem[dst + i] := mem[src + i];
    }
  }

  /** `rep movsl`: each four-byte word is read before any of it is written. */
  method MovslForward(mem: array<u8>, dst: nat, src: nat, n: nat)
    requires dst + n <= mem.Length && src + n <= mem.Length && n % 4 == 0
    requires dst <= src || src + n <= dst
    modifies mem
    ensures Copied(mem[..], old(mem[..]), dst, src, 0, n)
  {
    var i: nat := 0;
    while i < n
      invariant i <= n && (n - i) % 4 == 0 && Copied(mem[..], old(mem[..]), dst, src, 0, i)
    {
      MoveWord(mem, dst, src, i, old(mem[..]), 0, i);
      i := i + 4;
    }
  }

  method MovslBackward(mem: array<u8>, dst: nat, src: nat, n: nat)
    requires src < dst && dst + n <= mem.Length && src + n <= mem.Length && n % 4 == 0
    modifies mem
    ensures Copied(mem[..], old(mem[..]), dst, src, 0, n)
  {
    var i: nat := n;
    while i > 0
      invariant i <= n && i % 4 == 0 && Copied(mem[..], old(mem[..]), dst, src, i, n)
    {
      i := i - 4;
      MoveWord(mem, dst, src, i, old(mem[..]), i + 4, n);
    }
  }

  /** One `movsl`, which extends the copied range [lo, hi) at its upper or its lower end. */
  method MoveWord(mem: array<u8>, dst: nat, src: nat, at: nat, ghost was: seq<u8>, ghost lo: nat, ghost hi: nat)
    requires mem.Length == |was| && lo <= hi && (at == hi || at + 4 == lo)
    requires dst + Max(at + 4, hi) <= |was| && src + Max(at + 4, hi) <= |was|
    requires Copied(mem[..], was, dst, src, lo, hi)
    requires src + at + 4 <= dst + lo || dst + hi <= src + at  // the word has not been overwritten
    modifies mem
    ensures Copied(mem[..], was, dst, src, Min(at, lo), Max(at + 4, hi))
  {
    var b0, b1, b2, b3 := mem[src + at], mem[src + at + 1], mem[src + at + 2], mem[src + at + 3];
    assert b0 == was[src + at] && b1 == was[src + at + 1] && b2 == was[src + at + 2] && b3 == was[src + at + 3];
    mem[dst + at], mem[dst + at + 1], mem[dst + at + 2], mem[dst + at + 3] := b0, b1, b2, b3;
  }

  lemma CopiedAt(mem: array<u8>, was: seq<u8>, dst: nat, src: nat, n: nat)
    requires mem.Length == |was| && dst + n <= |was| && src + n <= |was| && Copied(mem[..], was, dst, src, 0, n)
    ensures forall k {:trigger mem[k]} :: 0 <= k < mem.Length ==>
      mem[k] == if dst <= k < dst + n then was[src + (k - dst)] else was[k]
  {
    forall k {:trigger mem[k]} | 0 <= k < mem.Length
      ensures mem[k] == if dst <= k < dst + n then was[src + (k - dst)] else was[k]
    {
      assert mem[..][k] == mem[k];
    }
  }

  /** Every overlap, in either direction, moves the old source bytes and nothing else. */
  method Memmove(mem: array<u8>, base: nat, dst: nat, src: nat, n: nat)
    requires dst + n <= mem.Length && src + n <= mem.Length
    modifies mem
    ensures mem[..] == Moved(old(mem[..]), dst, src, n)
    ensures forall k {:trigger mem[k]} :: 0 <= k < mem.Length ==>
      mem[k] == if dst <= k < dst + n then old(mem[src + (k - dst)]) else old(mem[k])
  {
    if src < dst && src + n > dst {
      if (base + src + n) % 4 == 0 && (base + dst + n) % 4 == 0 && n % 4 == 0 {
        MovslBackward(mem, dst, src, n);
      } else {
        MovsbBackward(mem, dst, src, n);
      }
    } else {
      if (base + src) % 4 == 0 && (base + dst) % 4 == 0 && n % 4 == 0 {
        MovslForward(mem, dst, src, n);
      } else {
        MovsbForward(mem, dst, src, n);
      }
    }
    CopiedIsMoved(mem[..], old(mem[..]), dst, src, n);
    CopiedAt(mem, old(mem[..]), dst, src, n);
  }

  /** The byte that is stored for an `int` argument. */
  function ToByte(c: int): (b: u8) {
    c % TWO_8
  }

  /** The four bytes of a word in memory order. */
  function WordBytes(w: u32): (b: seq<u8>)
    ensures |b| == 4
  {
    [w % TWO_8, w / TWO_8 % TWO_8, w / TWO_16 % TWO_8, w / 0x100_0000]
  }

  /** The word that `memset` builds by shifting holds the byte four times. */
  lemma ReplicatedWord(c: u8)
    ensures 0 <= c * 0x101_0101 < TWO_32
    ensures WordBytes(c * 0x101_0101) == [c, c, c, c]
  {
    var w := c * 0x101_0101;
    assert w == TWO_8 * (c * 0x1_0101) + c;
    assert w / TWO_8 == TWO_8 * (c * 0x101) + c;
    assert w / TWO_16 == TWO_8 * c + c;
  }

  lemma FilledAt(m: seq<u8>, dst: nat, b: u8, n: nat)
    requires dst + n <= |m|
    ensures var m' := Filled(m, dst, b, n);
      |m'| == |m| && forall k :: 0 <= k < |m| ==> m'[k] == if dst <= k < dst + n then b else m[k]
  {
  }

  method Memset(mem: array<u8>, base: nat, dst: nat, c: int, n: nat)
    requires dst + n <= mem.Length
    modifies mem
    ensures mem[..] == Filled(old(mem[..]), dst, ToByte(c), n)
    ensures forall k :: 0 <= k < mem.Length ==> mem[k] == if dst <= k < dst + n then c % 256 else old(mem[k])
  {
    hide WordBytes;
    var b := ToByte(c);
    if n == 0 {
      assert mem[..] == Filled(mem[..], dst, b, 0);
      return;
    }
    FilledAt(mem[..], dst, b, n);
    if (base + dst) % 4 == 0 && n % 4 == 0 {
      ReplicatedWord(b);
      Stosl(mem, dst, b * 0x100_0000 + b * TWO_16 + b * TWO_8 + b, n, b);
    } else {
      Stosb(mem, dst, b, n);
    }
  }

  method Stosl(mem: array<u8>, dst: nat, w: u32, n: nat, ghost b: u8)
    requires dst + n <= mem.Length && n % 4 == 0 && WordBytes(w) == [b, b, b, b]
    modifies mem
    ensures mem[..] == Filled(old(mem[..]), dst, b, n)
  {
    hide WordBytes;
    ghost var was := mem[..];
    var word := WordBytes(w);
    var i := 0;
    while i < n
      invariant i <= n && i % 4 == 0
      invariant forall k :: 0 <= k < mem.Length ==> mem[k] == if dst <= k < dst + i then b else was[k]
    {
      mem[dst + i], mem[dst + i + 1], mem[dst + i + 2], mem[dst + i + 3] := word[0], word[1], word[2], word[3];
      i := i + 4;
    }
    assert mem[..] == Filled(was, dst, b, n);
  }

  method Stosb(mem: array<u8>, dst: nat, b: u8, n: nat)
    requires dst + n <= mem.Length
    modifies mem
    ensures mem[..] == Filled(old(mem[..]), dst, b, n)
  {
    ghost var was := mem[..];
    for i := 0 to n
      invariant forall k :: 0 <= k < mem.Length ==> mem[k] == if dst <= k < dst + i then b else was[k]
    {
      mem[dst + i] := b;
    }
    assert mem[..] == Filled(was, dst, b, n);
  }
}
