/** The free ring of memheap.c: the `next_free` and `prev_free` fields of the free blocks and of the
    free header, which lies outside the pool. */
module FreeRing {
  import opened Sequences

  datatype FreeLink = FreeLink(next: int, prev: int)

  type Links = map<int, FreeLink>

  /** The key of the free header, and the null pointer. */
  const HEAD: int := -1
  const NULL: int := -2

  function At(m: Links, k: int): FreeLink {
    if k in m then m[k] else FreeLink(NULL, NULL)
  }

  /** Consecutive entries are linked both ways. */
  ghost predicate Chain(m: Links, ks: seq<int>) {
    |ks| < 2 || (At(m, ks[0]).next == ks[1] && At(m, ks[1]).prev == ks[0] && Chain(m, ks[1..]))
  }

  /** From the header through the free blocks and back to the header. */
  ghost predicate Ring(m: Links, free: seq<nat>) {
    Chain(m, [HEAD] + free + [HEAD])
  }

  ghost function LastKey(a: seq<nat>): int {
    if a == [] then -1 else a[|a| - 1]
  }

  ghost function FirstKey(b: seq<nat>): int {
    if b == [] then -1 else b[0]
  }

  lemma {:induction false} ChainJoin(m: Links, a: seq<int>, b: seq<int>)
    requires a != [] && b != []
    ensures Chain(m, a + b)
       <==> Chain(m, a) && Chain(m, b) && At(m, a[|a| - 1]).next == b[0] && At(m, b[0]).prev == a[|a| - 1]
    decreases |a|
  {
    assert (a + b)[1..] == a[1..] + b;
    if |a| > 1 { ChainJoin(m, a[1..], b); } else { assert a[1..] + b == b; }
  }

  lemma {:induction false} ChainFrame(m: Links, m': Links, ks: seq<int>)
    requires Chain(m, ks)
    requires forall i :: 0 <= i < |ks| - 1 ==> At(m', ks[i]).next == At(m, ks[i]).next
    requires forall i :: 0 < i < |ks| ==> At(m', ks[i]).prev == At(m, ks[i]).prev
    ensures Chain(m', ks)
    decreases |ks|
  {
    if |ks| >= 2 {
      assert ks[1] == ks[1..][0];
      assert forall i :: 0 <= i < |ks[1..]| ==> ks[1..][i] == ks[i + 1];
      ChainFrame(m, m', ks[1..]);
    }
  }

  /** Only the forward link of `p` and the backward link of `n` differ. */
  ghost predicate Relinked(m: Links, m': Links, p: int, n: int, x: int) {
    && (forall k :: k != p && k != x ==> At(m', k).next == At(m, k).next)
    && (forall k :: k != n && k != x ==> At(m', k).prev == At(m, k).prev)
  }

  lemma LeftKeeps(m: Links, m': Links, a: seq<nat>, n: int, x: nat)
    requires NoDup(a) && x !in a && n !in a
    requires Chain(m, [HEAD] + a) && Relinked(m, m', LastKey(a), n, x)
    ensures Chain(m', [HEAD] + a)
  {
    var s := [HEAD] + a;
    assert forall i :: 0 < i < |s| ==> s[i] == a[i - 1] && s[i] in a;
    ChainFrame(m, m', s);
  }

  lemma RightKeeps(m: Links, m': Links, b: seq<nat>, p: int, x: nat)
    requires NoDup(b) && x !in b && p !in b
    requires Chain(m, b + [HEAD]) && Relinked(m, m', p, FirstKey(b), x)
    ensures Chain(m', b + [HEAD])
  {
    var t := b + [HEAD];
    assert forall i :: 0 <= i < |b| ==> t[i] == b[i] && t[i] in b;
    ChainFrame(m, m', t);
  }

  /** Two parts of the ring, apart from the links between them, survive a relinking at their ends. */
  lemma SidesKeep(m: Links, m': Links, a: seq<nat>, b: seq<nat>, x: nat)
    requires NoDup(a + b) && x !in a + b
    requires Chain(m, [HEAD] + a) && Chain(m, b + [HEAD])
    requires Relinked(m, m', LastKey(a), FirstKey(b), x)
    ensures Chain(m', [HEAD] + a) && Chain(m', b + [HEAD])
  {
    assert forall i :: 0 <= i < |a| ==> (a + b)[i] == a[i];
    assert forall i :: 0 <= i < |b| ==> (a + b)[|a| + i] == b[i];
    hide Chain, Relinked;
    LeftKeeps(m, m', a, FirstKey(b), x);
    RightKeeps(m, m', b, LastKey(a), x);
  }

  /** What the links of an entry of the ring name. */
  lemma RingAt(m: Links, a: seq<nat>, x: nat, b: seq<nat>)
    requires Ring(m, a + [x] + b)
    ensures At(m, x).next == FirstKey(b) && At(m, x).prev == LastKey(a)
    ensures Chain(m, [HEAD] + a) && Chain(m, b + [HEAD])
  {
    var s, t := [HEAD] + a, b + [HEAD];
    assert [HEAD] + (a + [x] + b) + [HEAD] == s + ([x] + t);
    ChainJoin(m, s, [x] + t);
    ChainJoin(m, [x], t);
  }

  /** Unlinking an entry by its two neighbours leaves the ring of the others. */
  lemma RingUnlink(m: Links, m': Links, a: seq<nat>, x: nat, b: seq<nat>)
    requires NoDup(a + [x] + b) && Ring(m, a + [x] + b)
    requires Relinked(m, m', LastKey(a), FirstKey(b), x)
    requires At(m', LastKey(a)).next == FirstKey(b) && At(m', FirstKey(b)).prev == LastKey(a)
    ensures Ring(m', a + b)
  {
    RingAt(m, a, x, b);
    var s, t := [HEAD] + a, b + [HEAD];
    NoDupMiddle(a, x, b);
    SidesKeep(m, m', a, b, x);
    ChainJoin(m', s, t);
    assert [HEAD] + (a + b) + [HEAD] == s + t;
  }

  /** Linking a new entry behind the header. */
  lemma RingInsert(m: Links, m': Links, x: nat, b: seq<nat>)
    requires NoDup(b) && x !in b && Ring(m, b)
    requires Relinked(m, m', HEAD, FirstKey(b), x)
    requires At(m', x) == FreeLink(FirstKey(b), HEAD) && At(m', HEAD).next == x && At(m', FirstKey(b)).prev == x
    ensures Ring(m', [x] + b)
  {
    var t := b + [HEAD];
    assert [HEAD] + b + [HEAD] == [HEAD] + t;
    ChainJoin(m, [HEAD], t);
    RightKeeps(m, m', b, HEAD, x);
    ChainJoin(m', [x], t);
    ChainJoin(m', [HEAD], [x] + t);
    assert [HEAD] + ([x] + b) + [HEAD] == [HEAD] + ([x] + t);
  }

  /** Following the forward links from the header visits the entries in order and returns. */
  lemma RingNth(m: Links, free: seq<nat>, i: nat)
    requires Ring(m, free) && i <= |free|
    ensures At(m, if i == 0 then HEAD else free[i - 1]).next == if i < |free| then free[i] else HEAD
  {
    if i == 0 {
      assert ([HEAD] + free + [HEAD])[1] == FirstKey(free);
    } else {
      assert free == free[..i - 1] + [free[i - 1]] + free[i..];
      RingAt(m, free[..i - 1], free[i - 1], free[i..]);
    }
  }
}
