/** The doubly linked free list of lab7/mm_v4.c as a property of the words of memory. */
module FreeList {
  import opened Memlib

  // A list is a sequence of nodes whose PRED word pair holds the node before it and whose
  // SUCC pair, 8 bytes further, the node after it, with 0 for NULL.

  const LINKS: nat := 16  // bytes of a free block that hold its two links

  ghost predicate SpreadAt(l: seq<nat>, size: nat, i: nat, j: nat)
    requires i < |l| && j < |l|
  {
    && 0 < l[i] && l[i] + LINKS <= size
    && (i != j ==> l[i] + LINKS <= l[j] || l[j] + LINKS <= l[i])
  }

  /** The link areas of the nodes lie in memory and do not overlap. */
  ghost predicate Spread(l: seq<nat>, size: nat) {
    forall i: nat, j: nat {:trigger SpreadAt(l, size, i, j)} | i < |l| && j < |l| :: SpreadAt(l, size, i, j)
  }

  function Before(l: seq<nat>, i: nat): nat
    requires i < |l|
  {
    if i == 0 then 0 else l[i - 1]
  }

  function After(l: seq<nat>, i: nat): nat
    requires i < |l|
  {
    if i + 1 < |l| then l[i + 1] else 0
  }

  function Head(l: seq<nat>): nat {
    if l == [] then 0 else l[0]
  }

  ghost predicate LinkedAt(s: Memory, l: seq<nat>, i: nat)
    requires i < |l|
  {
    && l[i] + LINKS <= |s|
    && GetAddr(s, l[i]) == Before(l, i)
    && GetAddr(s, l[i] + 8) == After(l, i)
  }

  ghost predicate Linked(s: Memory, l: seq<nat>) {
    forall i: nat {:trigger LinkedAt(s, l, i)} | i < |l| :: LinkedAt(s, l, i)
  }

  /** `q` is not a link word of any node. */
  ghost predicate Outside(l: seq<nat>, q: nat) {
    forall n | n in l :: q < n || n + LINKS <= q
  }

  ghost predicate SameOutside(s: Memory, t: Memory, l: seq<nat>) {
    |s| == |t| && forall q: nat | q < |s| && Outside(l, q) :: t[q] == s[q]
  }

  function Without(l: seq<nat>, k: nat): seq<nat>
    requires k < |l|
  {
    l[..k] + l[k + 1..]
  }

  // ----- what remove_node and add_node do to memory

  ghost function SetSucc(s: Memory, l: seq<nat>, k: nat): (t: Memory)
    requires Spread(l, |s|) && k < |l| && |s| <= MAX_HEAP
    ensures |t| == |s|
  {
    if k == 0 then s else
      assert SpreadAt(l, |s|, k - 1, k - 1);
      var a := After(l, k);
      assert a != 0 ==> SpreadAt(l, |s|, k + 1, k + 1);
      PutAddr(s, l[k - 1] + 8, a)
  }

  ghost function SetPred(s: Memory, l: seq<nat>, k: nat): (t: Memory)
    requires Spread(l, |s|) && k < |l| && |s| <= MAX_HEAP
    ensures |t| == |s|
  {
    if k + 1 == |l| then s else
      assert SpreadAt(l, |s|, k + 1, k + 1);
      var b := Before(l, k);
      assert k > 0 ==> SpreadAt(l, |s|, k - 1, k - 1);
      PutAddr(s, l[k + 1], b)
  }

  ghost function Cleared(s: Memory, n: nat): (t: Memory)
    requires n + LINKS <= |s|
    ensures |t| == |s| && forall q: nat | q < |s| && (q < n || n + LINKS <= q) :: t[q] == s[q]
  {
    PutAddr(PutAddr(s, n, 0), n + 8, 0)
  }

  /** The neighbours of node k point past it and its own links are cleared. */
  ghost function Unlinked(s: Memory, l: seq<nat>, k: nat): (t: Memory)
    requires Spread(l, |s|) && k < |l| && |s| <= MAX_HEAP
    ensures |t| == |s|
  {
    assert SpreadAt(l, |s|, k, k);
    Cleared(SetPred(SetSucc(s, l, k), l, k), l[k])
  }

  lemma UnlinkedFrame(s: Memory, l: seq<nat>, k: nat)
    requires Spread(l, |s|) && k < |l| && |s| <= MAX_HEAP
    ensures SameOutside(s, Unlinked(s, l, k), l)
  {
    assert SpreadAt(l, |s|, k, k);
    var t := Unlinked(s, l, k);
    forall q: nat | q < |s| && Outside(l, q) ensures t[q] == s[q] {
      assert l[k] in l;
      if k > 0 { assert l[k - 1] in l; }
      if k + 1 < |l| { assert l[k + 1] in l; }
    }
  }

  lemma SetSuccAt(s: Memory, l: seq<nat>, k: nat, j: nat)
    requires Spread(l, |s|) && k < |l| && j < |l| && |s| <= MAX_HEAP
    ensures l[j] + LINKS <= |s| && GetAddr(SetSucc(s, l, k), l[j]) == GetAddr(s, l[j])
    ensures GetAddr(SetSucc(s, l, k), l[j] + 8) == if j + 1 == k then After(l, k) else GetAddr(s, l[j] + 8)
  {
    assert SpreadAt(l, |s|, j, j);
    if k > 0 { assert SpreadAt(l, |s|, j, k - 1); }
  }

  lemma SetPredAt(s: Memory, l: seq<nat>, k: nat, j: nat)
    requires Spread(l, |s|) && k < |l| && j < |l| && |s| <= MAX_HEAP
    ensures l[j] + LINKS <= |s| && GetAddr(SetPred(s, l, k), l[j] + 8) == GetAddr(s, l[j] + 8)
    ensures GetAddr(SetPred(s, l, k), l[j]) == if j == k + 1 then Before(l, k) else GetAddr(s, l[j])
  {
    assert SpreadAt(l, |s|, j, j);
    if k + 1 < |l| { assert SpreadAt(l, |s|, j, k + 1); }
  }

  lemma UnlinkedAt(s: Memory, l: seq<nat>, k: nat, j: nat)
    requires Spread(l, |s|) && k < |l| && j < |l| && j != k && |s| <= MAX_HEAP
    ensures var t := Unlinked(s, l, k);
            && l[j] + LINKS <= |s|
            && GetAddr(t, l[j]) == (if j == k + 1 then Before(l, k) else GetAddr(s, l[j]))
            && GetAddr(t, l[j] + 8) == (if j + 1 == k then After(l, k) else GetAddr(s, l[j] + 8))
  {
    assert SpreadAt(l, |s|, j, k);
    SetSuccAt(s, l, k, j);
    SetPredAt(SetSucc(s, l, k), l, k, j);
  }

  lemma WithoutNeighbours(l: seq<nat>, k: nat, i: nat)
    requires k < |l| && i < |Without(l, k)|
    ensures var j := if i < k then i else i + 1;
            && Without(l, k)[i] == l[j]
            && Before(Without(l, k), i) == (if j == k + 1 then Before(l, k) else Before(l, j))
            && After(Without(l, k), i) == (if j + 1 == k then After(l, k) else After(l, j))
  {
  }

  lemma UnlinkedLinks(s: Memory, l: seq<nat>, k: nat)
    requires Spread(l, |s|) && Linked(s, l) && k < |l| && |s| <= MAX_HEAP
    ensures Linked(Unlinked(s, l, k), Without(l, k))
  {
    var w, t := Without(l, k), Unlinked(s, l, k);
    forall i: nat | i < |w| ensures LinkedAt(t, w, i) {
      var j := if i < k then i else i + 1;
      assert LinkedAt(s, l, j);
      UnlinkedAt(s, l, k, j);
      WithoutNeighbours(l, k, i);
    }
  }

  /** The old head points back to the new node, which becomes the head. */
  ghost function Pushed(s: Memory, l: seq<nat>, n: nat): (t: Memory)
    requires Spread([n] + l, |s|) && |s| <= MAX_HEAP
    ensures |t| == |s|
  {
    assert SpreadAt([n] + l, |s|, 0, 0);
    if l == [] then
      PutAddr(PutAddr(s, n + 8, 0), n, 0)
    else
      assert SpreadAt([n] + l, |s|, 1, 1);
      PutAddr(PutAddr(PutAddr(s, l[0], n), n + 8, l[0]), n, 0)
  }

  lemma PushedFrame(s: Memory, l: seq<nat>, n: nat)
    requires Spread([n] + l, |s|) && |s| <= MAX_HEAP
    ensures SameOutside(s, Pushed(s, l, n), [n] + l)
  {
    assert SpreadAt([n] + l, |s|, 0, 0);
    assert n in [n] + l;
    if l != [] { assert l[0] in [n] + l && SpreadAt([n] + l, |s|, 1, 1); }
  }

  lemma PushedLinks(s: Memory, l: seq<nat>, n: nat)
    requires Spread([n] + l, |s|) && Linked(s, l) && |s| <= MAX_HEAP
    ensures Linked(Pushed(s, l, n), [n] + l)
  {
    var w := [n] + l;
    var t := Pushed(s, l, n);
    assert SpreadAt(w, |s|, 0, 0);
    forall i: nat | i < |w| ensures LinkedAt(t, w, i) {
      assert SpreadAt(w, |s|, i, 0);
      if l != [] { assert SpreadAt(w, |s|, i, 1) && SpreadAt(w, |s|, 1, 0); }
      if i > 0 { assert LinkedAt(s, l, i - 1); }
    }
  }
}
