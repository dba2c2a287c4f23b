/** The byte-block loops of lib/string.c. */
module Memory {
  import opened Bytes

  /** `memcpy(dst + dstOff, src + srcOff, n)` between different blocks. */
  method Memcpy(dst: array<uint8>, dstOff: nat, src: array<uint8>, srcOff: nat, n: nat)
    requires dst != src && dstOff + n <= dst.Length && srcOff + n <= src.Length
    modifies dst
    ensures dst[..] == Put(old(dst[..]), dstOff, src[srcOff..srcOff + n])
  {
    var i := 0;
    while i < n
      invariant 0 <= i <= n
      invariant dst[dstOff..dstOff + i] == src[srcOff..srcOff + i]
      invariant forall k | 0 <= k < dst.Length && !(dstOff <= k < dstOff + i) :: dst[k] == old(dst[k])
    {
      dst[dstOff + i] := src[srcOff + i];
      i := i + 1;
    }
  }

  /** The index of the last `c`, or -1. */
  function LastIndex(s: seq<uint8>, c: uint8): (d: int)
    ensures -1 <= d < |s|
    ensures d >= 0 ==> s[d] == c
    ensures forall i | d < i < |s| :: s[i] != c
  {
    if s == [] then -1
    else if s[|s| - 1] == c then |s| - 1
    else LastIndex(s[..|s| - 1], c)
  }

  function Repeat(value: uint8, n: nat): (r: seq<uint8>)
    ensures |r| == n && forall i | 0 <= i < n :: r[i] == value
  {
    seq(n, _ => value)
  }

  /** Assigns consecutive bytes. */
  method Store(dst: array<uint8>, off: nat, w: seq<uint8>)
    requires off + |w| <= dst.Length
    modifies dst
    ensures dst[..] == Put(old(dst[..]), off, w)
  {
    forall k | 0 <= k < |w| {
      dst[off + k] := w[k];
    }
    assert dst[..] == Put(old(dst[..]), off, w);
  }

  /** `memset(dst + off, value, n)`. */
  method Memset(dst: array<uint8>, off: nat, value: uint8, n: nat)
    requires off + n <= dst.Length
    modifies dst
    ensures dst[..] == Put(old(dst[..]), off, Repeat(value, n))
  {
    var i := 0;
    while i < n
      invariant 0 <= i <= n
      invariant forall k | 0 <= k < dst.Length :: dst[k] == if off <= k < off + i then value else old(dst[k])
    {
      dst[off + i] := value;
      i := i + 1;
    }
  }
}
