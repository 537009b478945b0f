/** The string walkers of lib/string.c that the rest of the model uses. Memory is a byte
    sequence, and every access is in bounds, so no walker reads past the terminator. */
module Strings {
  import opened Machine

  const NUL: u8 := 0

  /** A C string: the only NUL byte is the last one. */
  ghost predicate IsCString(s: seq<u8>) {
    0 < |s| && s[|s| - 1] == NUL && forall i :: 0 <= i < |s| - 1 ==> s[i] != NUL
  }

  type CString = s: seq<u8> | IsCString(s) ghost witness [NUL]

  /** The bytes of a text. */
  function Ascii(t: string): (b: seq<u8>)
    requires forall k :: 0 <= k < |t| ==> t[k] as int < 128
    ensures |b| == |t| && forall k :: 0 <= k < |t| ==> b[k] == t[k] as int
  {
    seq(|t|, k requires 0 <= k < |t| => t[k] as int)
  }

  function CText(t: string): (s: CString)
    requires forall k :: 0 <= k < |t| ==> 0 < t[k] as int < 128
    ensures |s| == |t| + 1 && forall k :: 0 <= k < |t| ==> s[k] == t[k] as int
    ensures Text(s) == Ascii(t) && forall k :: 0 <= k < |s| ==> s[k] < 128
  {
    Ascii(t) + [NUL]
  }

  /** The characters before the terminator. */
  function Text(s: CString): (t: seq<u8>)
    ensures |t| == |s| - 1 && NUL !in t
  {
    s[..|s| - 1]
  }

  /** The first position at or after `i` that holds `c` or a NUL. */
  function FindChar(s: seq<u8>, i: nat, c: u8): (k: nat)
    requires i < |s| && s[|s| - 1] == NUL
    ensures i <= k < |s| && (s[k] == c || s[k] == NUL)
    ensures forall j :: i <= j < k ==> s[j] != c && s[j] != NUL
    decreases |s| - i
  {
    if s[i] == NUL || s[i] == c then i else FindChar(s, i + 1, c)
  }

  method Strfind(s: seq<u8>, start: nat, c: u8) returns (k: nat)
    requires start < |s| && s[|s| - 1] == NUL
    ensures k == FindChar(s, start, c)
  {
    k := start;
    while s[k] != NUL
      invariant start <= k < |s| && FindChar(s, start, c) == FindChar(s, k, c)
      decreases |s| - k
    {
      if s[k] == c {
        break;
      }
      k := k + 1;
    }
  }

  /** A pointer to the first `c` (a non-NUL character), or `None` for the null pointer. */
  method Strchr(s: CString, c: u8) returns (p: Option<nat>)
    requires c != NUL
    ensures p.Some? <==> c in s
    ensures p.Some? ==> p.value < |s| - 1 && s[p.value] == c && c !in s[..p.value]
  {
    var k := 0;
    while s[k] != NUL
      invariant 0 <= k < |s| && c !in s[..k]
      decreases |s| - k
    {
      if s[k] == c {
        return Some(k);
      }
      k := k + 1;
    }
    return None;
  }

  /** The length of the string, cut off at `size`. */
  method Strnlen(s: CString, size: nat) returns (n: nat)
    ensures n == Min(|s| - 1, size)
  {
    var left := size;
    n := 0;
    while left > 0 && s[n] != NUL
      invariant n + left == size && n <= |s| - 1
    {
      n := n + 1;
      left := left - 1;
    }
  }
}
