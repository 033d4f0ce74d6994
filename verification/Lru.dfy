/** Least-recently-used replacement as move-to-front lists, and what follows from it
    for whole traces. */
module Lru {
  import opened Bits
  import opened Seqs

  // ----- one set

  /** The list without its first `t`. */
  function Drop(l: seq<int>, t: int): seq<int> {
    if l == [] then [] else if l[0] == t then l[1..] else [l[0]] + Drop(l[1..], t)
  }

  /** Move to front, or insert there. */
  function Touch(l: seq<int>, t: int): seq<int> {
    [t] + Drop(l, t)
  }

  /** All tags of a history, the most recently used first. */
  function Recency(hist: seq<int>): seq<int> {
    if hist == [] then [] else Touch(Recency(hist[..|hist| - 1]), hist[|hist| - 1])
  }

  function Take(n: nat, l: seq<int>): (r: seq<int>) {
    if n < |l| then l[..n] else l
  }

  /** How many lines a set has. */
  type Ways = w: nat | w > 0 witness 1

  /** One access to a set of `ways` lines: a hit moves the tag to the front, a miss
      puts it there and, when the set is full, throws out the last. */
  function Access(ways: Ways, l: seq<int>, t: int): seq<int> {
    if t in l then Touch(l, t)
    else if |l| < ways then [t] + l
    else [t] + l[..ways - 1]
  }

  lemma ConsDistinct(x: int, l: seq<int>)
    requires Distinct(l) && x !in l
    ensures Distinct([x] + l)
  {
  }

  lemma {:induction false} DropFacts(l: seq<int>, t: int)
    requires Distinct(l)
    ensures Distinct(Drop(l, t)) && |Drop(l, t)| == |l| - (if t in l then 1 else 0)
    ensures forall x :: x in Drop(l, t) <==> x in l && x != t
  {
    if l != [] {
      assert l == [l[0]] + l[1..];
      assert l[0] !in l[1..];
      if l[0] != t {
        DropFacts(l[1..], t);
        ConsDistinct(l[0], Drop(l[1..], t));
      }
    }
  }

  lemma {:induction false} RecencyFacts(hist: seq<int>)
    ensures Distinct(Recency(hist))
    ensures forall x :: x in Recency(hist) <==> x in hist
  {
    if hist != [] {
      var h := hist[..|hist| - 1];
      RecencyFacts(h);
      DropFacts(Recency(h), hist[|hist| - 1]);
      assert hist == h + [hist[|hist| - 1]];
    }
  }

  lemma {:induction false} DropAbsent(l: seq<int>, t: int)
    requires t !in l
    ensures Drop(l, t) == l
  {
    if l != [] { DropAbsent(l[1..], t); }
  }

  lemma {:induction false} DropTake(l: seq<int>, n: nat, t: int)
    requires n <= |l|
    ensures t in l[..n] ==> |Drop(l, t)| == |l| - 1 && Drop(l, t)[..n - 1] == Drop(l[..n], t)
    ensures t !in l[..n] ==> |Drop(l, t)| >= n && Drop(l, t)[..n] == l[..n]
  {
    if n > 0 {
      var m := l[..n];
      assert m == [l[0]] + m[1..] && m[1..] == l[1..][..n - 1];
      DropTake(l[1..], n - 1, t);
      if l[0] != t && t in m[1..] {
        assert Drop(l, t)[..n - 1] == [l[0]] + Drop(l[1..], t)[..n - 2];
      }
    }
  }

  /** A set of `ways` lines holds the `ways` most recently used tags: bounding the list
      commutes with accessing it. */
  lemma AccessTake(ways: Ways, l: seq<int>, t: int)
    requires Distinct(l)
    ensures Access(ways, Take(ways, l), t) == Take(ways, Touch(l, t))
  {
    var n := if ways < |l| then ways else |l|;
    assert Take(ways, l) == l[..n];
    DropTake(l, n, t);
    DropFacts(l, t);
    if t in l[..n] {
      assert Touch(l[..n], t) == [t] + Drop(l, t)[..n - 1];
    } else if n < ways {
      assert l[..n] == l;
    } else {
      DropTake(l, ways - 1, t);
      assert t !in l[..ways - 1] by { assert l[..ways - 1] == l[..n][..ways - 1]; }
      assert l[..n][..ways - 1] == Drop(l, t)[..ways - 1];
    }
  }

  // ----- whole traces

  /** 2^s sets of blocks of 2^b bytes. */
  datatype Geometry = Geometry(s: nat, b: nat) {
    function Sets(): (n: nat)
      ensures n > 0
    {
      Pow2(s)
    }

    function Index(addr: nat): (i: nat)
      ensures i < Sets()
    {
      addr / Pow2(b) % Pow2(s)
    }

    function Tag(addr: nat): int {
      addr / Pow2(b + s)
    }
  }

  /** A line of a trace; instruction fetches are ignored. */
  datatype Op = Fetch | Load(addr: nat) | Store(addr: nat) | Modify(addr: nat)

  datatype Stats = Stats(sets: seq<seq<int>>, hits: nat, misses: nat, evicts: nat)

  function Start(g: Geometry): Stats {
    Stats(seq(g.Sets(), i => []), 0, 0, 0)
  }

  function Refer(ways: Ways, st: Stats, i: nat, t: int): Stats
    requires i < |st.sets|
  {
    var l := st.sets[i];
    Stats(st.sets[i := Access(ways, l, t)],
          st.hits + (if t in l then 1 else 0),
          st.misses + (if t in l then 0 else 1),
          st.evicts + (if t in l || |l| < ways then 0 else 1))
  }

  /** A modify is an access and one more hit. */
  function Step(g: Geometry, ways: Ways, st: Stats, op: Op): (r: Stats)
    requires |st.sets| == g.Sets()
    ensures |r.sets| == g.Sets()
  {
    match op
    case Fetch => st
    case Load(a) => Refer(ways, st, g.Index(a), g.Tag(a))
    case Store(a) => Refer(ways, st, g.Index(a), g.Tag(a))
    case Modify(a) => var r := Refer(ways, st, g.Index(a), g.Tag(a)); r.(hits := r.hits + 1)
  }

  function Run(g: Geometry, ways: Ways, trace: seq<Op>): (r: Stats)
    ensures |r.sets| == g.Sets()
  {
    if trace == [] then Start(g)
    else Step(g, ways, Run(g, ways, trace[..|trace| - 1]), trace[|trace| - 1])
  }

  /** The tags a trace brings to set i, in order. */
  function SetHistory(g: Geometry, trace: seq<Op>, i: nat): seq<int> {
    if trace == [] then [] else
      var op, h := trace[|trace| - 1], SetHistory(g, trace[..|trace| - 1], i);
      if op.Fetch? || g.Index(op.addr) != i then h else h + [g.Tag(op.addr)]
  }

  /** Whatever the trace, each set holds its most recently used tags. */
  lemma {:induction false} RunIsStack(g: Geometry, ways: Ways, trace: seq<Op>, i: nat)
    requires i < g.Sets()
    ensures Run(g, ways, trace).sets[i] == Take(ways, Recency(SetHistory(g, trace, i)))
  {
    if trace != [] {
      var before, op := trace[..|trace| - 1], trace[|trace| - 1];
      RunIsStack(g, ways, before, i);
      var h := SetHistory(g, before, i);
      if !op.Fetch? && g.Index(op.addr) == i {
        RecencyFacts(h);
        AccessTake(ways, Recency(h), g.Tag(op.addr));
        assert (h + [g.Tag(op.addr)])[..|h|] == h;
      }
    }
  }

  ghost predicate Prefix(a: seq<int>, b: seq<int>) {
    |a| <= |b| && a == b[..|a|]
  }

  lemma StacksNest(g: Geometry, ways: Ways, trace: seq<Op>, i: nat)
    requires i < g.Sets()
    ensures Prefix(Run(g, ways, trace).sets[i], Run(g, ways + 1, trace).sets[i])
  {
    RunIsStack(g, ways, trace, i);
    RunIsStack(g, ways + 1, trace, i);
  }

  /** LRU inclusion: with one more way per set every set still holds what it held, so
      hits do not fall and misses do not rise. */
  lemma {:induction false} Inclusion(g: Geometry, ways: Ways, trace: seq<Op>)
    ensures forall i: nat | i < g.Sets() :: Prefix(Run(g, ways, trace).sets[i], Run(g, ways + 1, trace).sets[i])
    ensures Run(g, ways, trace).hits <= Run(g, ways + 1, trace).hits
    ensures Run(g, ways, trace).misses >= Run(g, ways + 1, trace).misses
    ensures Run(g, ways, trace).hits + Run(g, ways, trace).misses
            == Run(g, ways + 1, trace).hits + Run(g, ways + 1, trace).misses
  {
    forall i: nat | i < g.Sets() ensures Prefix(Run(g, ways, trace).sets[i], Run(g, ways + 1, trace).sets[i]) {
      StacksNest(g, ways, trace, i);
    }
    if trace != [] {
      var before, op := trace[..|trace| - 1], trace[|trace| - 1];
      Inclusion(g, ways, before);
      if !op.Fetch? {
        StacksNest(g, ways, before, g.Index(op.addr));
      }
    }
  }

  /** Every M line replaced by a load and a store of the same address. */
  function Expanded(trace: seq<Op>): seq<Op> {
    if trace == [] then [] else
      var op, e := trace[|trace| - 1], Expanded(trace[..|trace| - 1]);
      if op.Modify? then e + [Load(op.addr), Store(op.addr)] else e + [op]
  }

  lemma ReferTwice(ways: Ways, st: Stats, i: nat, t: int)
    requires i < |st.sets|
    ensures var r := Refer(ways, st, i, t); Refer(ways, r, i, t) == r.(hits := r.hits + 1)
  {
    var r := Refer(ways, st, i, t);
    var l := r.sets[i];
    assert l[0] == t && Touch(l, t) == l;
    assert r.sets[i := l] == r.sets;
  }

  lemma RunStep(g: Geometry, ways: Ways, before: seq<Op>, op: Op)
    ensures Run(g, ways, before + [op]) == Step(g, ways, Run(g, ways, before), op)
  {
    assert (before + [op])[..|before|] == before;
  }

  lemma ExpandedStep(before: seq<Op>, op: Op)
    ensures Expanded(before + [op]) ==
            if op.Modify? then Expanded(before) + [Load(op.addr)] + [Store(op.addr)] else Expanded(before) + [op]
  {
    assert (before + [op])[..|before|] == before;
  }

  /** A modify counts as two accesses. */
  lemma {:induction false} ModifyIsTwo(g: Geometry, ways: Ways, trace: seq<Op>)
    ensures Run(g, ways, Expanded(trace)) == Run(g, ways, trace)
  {
    hide Run, Refer, Expanded;
    if trace == [] {
      NoneExpanded();
    } else {
      var before, op := trace[..|trace| - 1], trace[|trace| - 1];
      var e := Expanded(before);
      assert trace == before + [op];
      ModifyIsTwo(g, ways, before);
      ExpandedStep(before, op);
      RunStep(g, ways, before, op);
      if op.Modify? {
        RunStep(g, ways, e, Load(op.addr));
        RunStep(g, ways, e + [Load(op.addr)], Store(op.addr));
        ReferTwice(ways, Run(g, ways, e), g.Index(op.addr), g.Tag(op.addr));
      } else {
        RunStep(g, ways, e, op);
      }
    }
  }

  lemma NoneExpanded()
    ensures Expanded([]) == []
  {
  }

  function Occupied(sets: seq<seq<int>>): nat {
    if sets == [] then 0 else |sets[0]| + Occupied(sets[1..])
  }

  lemma {:induction false} OccupiedUpdate(sets: seq<seq<int>>, i: nat, l: seq<int>)
    requires i < |sets|
    ensures Occupied(sets[i := l]) == Occupied(sets) - |sets[i]| + |l|
  {
    var u := sets[i := l];
    if i > 0 {
      assert u[1..] == sets[1..][i - 1 := l];
      OccupiedUpdate(sets[1..], i - 1, l);
    } else {
      assert u[1..] == sets[1..];
    }
  }

  lemma {:induction false} OccupiedStart(sets: seq<seq<int>>)
    requires forall i | 0 <= i < |sets| :: sets[i] == []
    ensures Occupied(sets) == 0
  {
    if sets != [] { OccupiedStart(sets[1..]); }
  }

  /** Every miss fills a line or evicts one: what is evicted is what was missed less
      what is there at the end. */
  lemma {:induction false} EvictionsBalance(g: Geometry, ways: Ways, trace: seq<Op>)
    ensures var r := Run(g, ways, trace); r.evicts == r.misses - Occupied(r.sets)
  {
    if trace == [] {
      OccupiedStart(Start(g).sets);
    } else {
      var before, op := trace[..|trace| - 1], trace[|trace| - 1];
      EvictionsBalance(g, ways, before);
      var r := Run(g, ways, before);
      if !op.Fetch? {
        var i, t := g.Index(op.addr), g.Tag(op.addr);
        RunIsStack(g, ways, before, i);
        RecencyFacts(SetHistory(g, before, i));
        TakeDistinct(ways, Recency(SetHistory(g, before, i)));
        DropFacts(r.sets[i], t);
        OccupiedUpdate(r.sets, i, Access(ways, r.sets[i], t));
      }
    }
  }

  lemma TakeDistinct(n: nat, l: seq<int>)
    requires Distinct(l)
    ensures Distinct(Take(n, l)) && |Take(n, l)| <= n
  {
  }
}
