/** Byte copies inside a heap. */
module Bytes {
  /** Only the bytes of [off, off + len) differ. */
  ghost predicate Around(off: nat, len: nat, s: seq<bv8>, t: seq<bv8>) {
    |s| == |t| && forall i :: 0 <= i < |s| && !(off <= i < off + len) ==> s[i] == t[i]
  }

  /** What a copy of `len` bytes from `p` to `q` does. */
  ghost predicate Copied(p: nat, q: nat, len: nat, s: seq<bv8>, t: seq<bv8>) {
    && |s| == |t| && p + len <= |s| && q + len <= |t| && t[q..q + len] == s[p..p + len]
    && Around(q, len, s, t)
  }

  /** Bytes outside the written range are the same, slice by slice. */
  lemma AroundSlice(off: nat, len: nat, s: seq<bv8>, t: seq<bv8>, lo: nat, hi: nat)
    requires Around(off, len, s, t) && lo <= hi <= |s| && (hi <= off || off + len <= lo)
    ensures s[lo..hi] == t[lo..hi]
  {
  }

  lemma SliceOf(s: seq<bv8>, t: seq<bv8>, lo: nat, hi: nat, mid: nat)
    requires |s| == |t| && lo <= mid <= hi <= |s| && s[lo..hi] == t[lo..hi]
    ensures s[lo..mid] == t[lo..mid]
  {
    forall i | lo <= i < mid ensures s[i] == t[i] {
      assert s[i] == s[lo..hi][i - lo] && t[i] == t[lo..hi][i - lo];
    }
  }

  /** rt_memcpy between two ranges that do not overlap. */
  method CopyBytes(a: array<bv8>, dst: nat, src: nat, len: nat)
    requires dst + len <= a.Length && src + len <= a.Length && (dst + len <= src || src + len <= dst)
    modifies a
    ensures Copied(src, dst, len, old(a[..]), a[..])
  {
    for j := 0 to len
      invariant forall i :: 0 <= i < a.Length ==>
        a[i] == if dst <= i < dst + j then old(a[src + i - dst]) else old(a[i])
    {
      a[dst + j] := a[src + j];
    }
    assert a[..][dst..dst + len] == old(a[..])[src..src + len];
  }
}
