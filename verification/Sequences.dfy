/** Sequences as the lists of the kernel: members without repetition, removal and running maxima. */
module Sequences {
  ghost predicate NoDup(ts: seq<nat>) {
    forall i, j :: 0 <= i < j < |ts| ==> ts[i] != ts[j]
  }

  /** Unlinking one member. */
  function Without(ts: seq<nat>, t: nat): seq<nat> {
    if ts == [] then [] else if ts[0] == t then ts[1..] else [ts[0]] + Without(ts[1..], t)
  }

  lemma {:induction false} WithoutMembers(ts: seq<nat>, t: nat)
    requires NoDup(ts)
    ensures NoDup(Without(ts, t)) && forall x :: x in Without(ts, t) <==> x in ts && x != t
    decreases |ts|
  {
    if ts != [] {
      assert ts == [ts[0]] + ts[1..];
      assert forall i :: 0 <= i < |ts[1..]| ==> ts[1..][i] == ts[i + 1];
      assert ts[0] !in ts[1..];
      if ts[0] != t { WithoutMembers(ts[1..], t); }
    }
  }

  /** Where the removed member stood, the two sides meet. */
  lemma {:induction false} WithoutAt(ts: seq<nat>, t: nat, i: nat)
    requires i < |ts| && ts[i] == t && forall j :: 0 <= j < i ==> ts[j] != t
    ensures Without(ts, t) == ts[..i] + ts[i + 1..]
    decreases |ts|
  {
    if i > 0 { WithoutAt(ts[1..], t, i - 1); }
  }

  lemma NoDupMiddle(a: seq<nat>, x: nat, b: seq<nat>)
    requires NoDup(a + [x] + b)
    ensures NoDup(a + b) && x !in a + b && Without(a + [x] + b, x) == a + b
  {
    var w, v := a + [x] + b, a + b;
    assert forall i :: 0 <= i < |v| ==> v[i] == w[if i < |a| then i else i + 1];
    assert w[|a|] == x;
    WithoutAt(w, x, |a|);
  }

  /** The members before and after one of them. */
  lemma Sides(ts: seq<nat>, x: nat) returns (a: seq<nat>, b: seq<nat>)
    requires NoDup(ts) && x in ts
    ensures ts == a + [x] + b && NoDup(a + b) && x !in a + b && Without(ts, x) == a + b
  {
    var i :| 0 <= i < |ts| && ts[i] == x;
    a, b := ts[..i], ts[i + 1..];
    assert ts == a + [x] + b;
    NoDupMiddle(a, x, b);
  }

  lemma Assoc<T>(a: seq<T>, b: seq<T>, c: seq<T>)
    ensures a + (b + c) == (a + b) + c
  {
  }

  function Min(a: nat, b: nat): nat {
    if a < b then a else b
  }

  /** The largest of a number and some others. */
  function Max(a: int, s: seq<int>): int
    decreases |s|
  {
    if s == [] then a else Max(if a < s[0] then s[0] else a, s[1..])
  }

  lemma {:induction false} MaxConcat(a: int, s: seq<int>, t: seq<int>)
    ensures Max(a, s + t) == Max(Max(a, s), t)
    decreases |s|
  {
    if s == [] {
      assert s + t == t;
    } else {
      assert (s + t)[1..] == s[1..] + t;
      MaxConcat(if a < s[0] then s[0] else a, s[1..], t);
    }
  }
}
