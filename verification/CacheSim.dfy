/** lab8/csim.c: a cache whose lines count their ages, shown to keep the move-to-front lists of Lru. */
module CacheSim {
  import opened Bits
  import opened Seqs
  import IndexBits
  import opened Lru

  /** The three consecutive words of a line: tag, counter and valid bit. */
  datatype Line = Line(tag: int, count: nat, valid: bool)

  const EMPTY := Line(0, 0, false)

  function Older(l: Line): Line {
    l.(count := l.count + 1)
  }

  // ----- what the counters mean

  /** One plus the accesses since the last use of t. */
  function Age(hist: seq<int>, t: int): (a: nat)
    requires t in hist
    ensures a > 0
  {
    var n := |hist| - 1;
    if hist[n] == t then 1 else
      assert hist == hist[..n] + [hist[n]];
      1 + Age(hist[..n], t)
  }

  ghost predicate LineAt(lines: seq<Line>, hist: seq<int>, held: seq<int>, j: nat)
    requires j < |lines|
  {
    if j < |held| then
      && lines[j].valid && lines[j].tag in held && lines[j].tag in hist
      && lines[j].count == Age(hist, lines[j].tag)
    else lines[j] == EMPTY
  }

  ghost predicate Holder(lines: seq<Line>, n: nat, t: int) {
    exists j: nat :: j < n && j < |lines| && lines[j].tag == t
  }

  ghost predicate DistinctTags(lines: seq<Line>, n: nat) {
    forall i: nat, j: nat | i < j < n && j < |lines| :: lines[i].tag != lines[j].tag
  }

  /** The lines of a set after `hist`: the used ones come first, hold the most recently
      used tags, each once, and count their ages; the others are untouched. */
  ghost predicate LinesOk(lines: seq<Line>, hist: seq<int>) {
    var held := Take(|lines|, Recency(hist));
    && (forall j: nat {:trigger LineAt(lines, hist, held, j)} | j < |lines| :: LineAt(lines, hist, held, j))
    && DistinctTags(lines, |held|)
    && forall t {:trigger Holder(lines, |held|, t)} | t in held :: Holder(lines, |held|, t)
  }

  // ----- ages and recency

  lemma AgeStep(hist: seq<int>, t: int, x: int)
    requires x in hist || x == t
    ensures Age(hist + [t], x) == if x == t then 1 else 1 + Age(hist, x)
  {
    assert (hist + [t])[..|hist|] == hist;
  }

  lemma {:induction false} DropOrder(l: seq<int>, t: int, i: nat, k: nat) returns (a: nat, b: nat)
    requires Distinct(l) && i < k < |Drop(l, t)|
    ensures a < b < |l| && l[a] == Drop(l, t)[i] && l[b] == Drop(l, t)[k]
  {
    if l[0] == t {
      a, b := i + 1, k + 1;
    } else if i == 0 {
      a := 0;
      DropFacts(l[1..], t);
      assert Drop(l[1..], t)[k - 1] in Drop(l[1..], t);
      var c :| 0 <= c < |l[1..]| && l[1..][c] == Drop(l[1..], t)[k - 1];
      b := c + 1;
    } else {
      assert Distinct(l[1..]);
      var c, d := DropOrder(l[1..], t, i - 1, k - 1);
      a, b := c + 1, d + 1;
    }
  }

  /** In the recency list ages strictly increase; so they are distinct, and the last of
      a prefix is the least recently used of it. */
  lemma {:induction false} AgesIncrease(hist: seq<int>, i: nat, k: nat)
    requires i < k < |Recency(hist)|
    ensures Recency(hist)[i] in hist && Recency(hist)[k] in hist
    ensures Age(hist, Recency(hist)[i]) < Age(hist, Recency(hist)[k])
    decreases |hist|, 1
  {
    var h, t := hist[..|hist| - 1], hist[|hist| - 1];
    var d := Drop(Recency(h), t);
    assert Recency(hist) == [t] + d;
    DropAges(h, t, if i == 0 then 0 else i - 1, k - 1);
    AgesStep(h, t, Recency(hist)[i], Recency(hist)[k]);
    assert hist == h + [t];
  }

  lemma {:induction false} DropAges(h: seq<int>, t: int, i: nat, k: nat)
    requires i <= k < |Drop(Recency(h), t)|
    ensures var x, y := Drop(Recency(h), t)[i], Drop(Recency(h), t)[k];
            x in h && y in h && x != t && y != t && (i < k ==> Age(h, x) < Age(h, y))
    decreases |h|, 2
  {
    var r, d := Recency(h), Drop(Recency(h), t);
    RecencyFacts(h);
    DropFacts(r, t);
    assert d[i] in d && d[k] in d;
    if i < k {
      var a, b := DropOrder(r, t, i, k);
      AgesIncrease(h, a, b);
    }
  }

  /** An access makes its tag the youngest and keeps the order of the others. */
  lemma AgesStep(h: seq<int>, t: int, x: int, y: int)
    requires y in h && y != t && (x == t || (x in h && Age(h, x) < Age(h, y)))
    ensures x in h + [t] && y in h + [t] && Age(h + [t], x) < Age(h + [t], y)
  {
    AgeStep(h, t, x);
    AgeStep(h, t, y);
  }

  // ----- the three ways an access changes a set

  /** The first n counters one higher. */
  function Aged(lines: seq<Line>, n: nat): (r: seq<Line>)
    requires n <= |lines|
    ensures |r| == |lines|
    ensures forall j: nat | j < |lines| :: r[j] == if j < n then Older(lines[j]) else lines[j]
  {
    seq(|lines|, j requires 0 <= j < |lines| =>
      if j < n then Older(lines[j]) else lines[j])
  }

  /** A hit on line j. */
  function Hit(lines: seq<Line>, n: nat, j: nat): seq<Line>
    requires j < n <= |lines|
  {
    Aged(lines, n)[j := lines[j].(count := 1)]
  }

  /** A miss that takes the free line n. */
  function Filled(lines: seq<Line>, n: nat, t: int): seq<Line>
    requires n < |lines|
  {
    Aged(lines, n)[n := Line(t, 1, true)]
  }

  /** A miss that throws out line j of a full set. */
  function Evicted(lines: seq<Line>, j: nat, t: int): seq<Line>
    requires j < |lines|
  {
    Aged(lines, |lines|)[j := Line(t, 1, lines[j].valid)]
  }

  ghost function Held(lines: seq<Line>, hist: seq<int>): seq<int> {
    Take(|lines|, Recency(hist))
  }

  /** The tags held after one more access. */
  lemma HeldStep(ways: Ways, hist: seq<int>, t: int)
    ensures Take(ways, Recency(hist + [t])) == Access(ways, Take(ways, Recency(hist)), t)
    ensures Distinct(Take(ways, Recency(hist)))
  {
    RecencyFacts(hist);
    AccessTake(ways, Recency(hist), t);
    assert (hist + [t])[..|hist|] == hist;
  }

  lemma HitOk(lines: seq<Line>, hist: seq<int>, j: nat, t: int)
    requires LinesOk(lines, hist) && j < |Held(lines, hist)| <= |lines| && lines[j].tag == t
    ensures LinesOk(Hit(lines, |Held(lines, hist)|, j), hist + [t])
  {
    hide Age, Aged, Recency;
    var held := Held(lines, hist);
    var n, x, hist' := |held|, Hit(lines, |held|, j), hist + [t];
    var held' := Held(x, hist');
    HeldStep(|lines|, hist, t);
    DropFacts(held, t);
    assert LineAt(lines, hist, held, j);
    assert forall y :: y in held' <==> y in held;
    forall i: nat | i < |x| ensures LineAt(x, hist', held', i) {
      assert LineAt(lines, hist, held, i);
      if i < n { AgeStep(hist, t, lines[i].tag); }
      if i < j || (j < i < n) { assert lines[i].tag != t; }
    }
    forall y | y in held' ensures Holder(x, |held'|, y) {
      assert Holder(lines, n, y);
      var i: nat :| i < n && lines[i].tag == y;
      assert x[i].tag == y;
    }
  }

  lemma FilledOk(lines: seq<Line>, hist: seq<int>, t: int)
    requires LinesOk(lines, hist) && |Held(lines, hist)| < |lines| && t !in Held(lines, hist)
    ensures LinesOk(Filled(lines, |Held(lines, hist)|, t), hist + [t])
  {
    hide Age, Aged, Recency;
    var held := Held(lines, hist);
    var n, x, hist' := |held|, Filled(lines, |held|, t), hist + [t];
    var held' := Held(x, hist');
    HeldStep(|lines|, hist, t);
    assert held' == [t] + held;
    forall i: nat | i < |x| ensures LineAt(x, hist', held', i) {
      assert LineAt(lines, hist, held, i);
      if i < n { AgeStep(hist, t, lines[i].tag); }
      AgeStep(hist, t, t);
    }
    forall i: nat, k: nat | i < k < |held'| ensures x[i].tag != x[k].tag {
      assert LineAt(lines, hist, held, i);
    }
    forall y | y in held' ensures Holder(x, |held'|, y) {
      if y == t {
        assert x[n].tag == t;
      } else {
        assert Holder(lines, n, y);
        var i: nat :| i < n && lines[i].tag == y;
        assert x[i].tag == y;
      }
    }
  }

  /** The line with the largest counter holds the least recently used tag. */
  lemma VictimIsOldest(lines: seq<Line>, hist: seq<int>, j: nat)
    requires LinesOk(lines, hist) && j < |lines| == |Held(lines, hist)|
    requires forall i: nat | i < |lines| :: lines[i].count <= lines[j].count
    ensures lines[j].tag == Held(lines, hist)[|lines| - 1]
  {
    var held := Held(lines, hist);
    var n, r := |lines|, Recency(hist);
    assert held == r[..n];
    assert LineAt(lines, hist, held, j);
    assert held[n - 1] in held && Holder(lines, n, held[n - 1]);
    var i: nat :| i < n && lines[i].tag == held[n - 1];
    assert LineAt(lines, hist, held, i);
    var k :| 0 <= k < n && held[k] == lines[j].tag;
    if k < n - 1 {
      AgesIncrease(hist, k, n - 1);
      assert false;
    }
  }

  lemma EvictedOk(lines: seq<Line>, hist: seq<int>, j: nat, t: int)
    requires LinesOk(lines, hist) && j < |lines| == |Held(lines, hist)| && t !in Held(lines, hist)
    requires lines[j].tag == Held(lines, hist)[|lines| - 1]
    ensures LinesOk(Evicted(lines, j, t), hist + [t])
  {
    hide Age, Aged, Recency;
    var held := Held(lines, hist);
    var n, x, hist' := |lines|, Evicted(lines, j, t), hist + [t];
    var held' := Held(x, hist');
    HeldStep(n, hist, t);
    assert held' == [t] + held[..n - 1] && held == held[..n - 1] + [held[n - 1]];
    forall i: nat | i < n ensures LineAt(x, hist', held', i) {
      assert LineAt(lines, hist, held, i);
      AgeStep(hist, t, if i == j then t else lines[i].tag);
      if i != j { assert lines[i].tag != lines[j].tag; }
    }
    forall i: nat, k: nat | i < k < n ensures x[i].tag != x[k].tag {
      assert LineAt(lines, hist, held, i) && LineAt(lines, hist, held, k);
    }
    forall y | y in held' ensures Holder(x, n, y) {
      if y == t {
        assert x[j].tag == t;
      } else {
        assert Holder(lines, n, y);
        var i: nat :| i < n && lines[i].tag == y;
        assert x[i].tag == y;
      }
    }
  }

  /** A set as the loops see it: n lines in use, first, with counters; the rest free. */
  ghost predicate Shape(lines: seq<Line>, n: nat) {
    && n <= |lines|
    && (forall j: nat | j < n :: lines[j].valid && lines[j].count > 0)
    && (forall j: nat | n <= j < |lines| :: lines[j] == EMPTY)
  }

  lemma OkShape(lines: seq<Line>, hist: seq<int>)
    requires LinesOk(lines, hist)
    ensures Shape(lines, |Held(lines, hist)|)
  {
    var n := |Held(lines, hist)|;
    forall j: nat | j < |lines|
      ensures if j < n then lines[j].valid && lines[j].count > 0 else lines[j] == EMPTY
    {
      assert LineAt(lines, hist, Held(lines, hist), j);
    }
  }

  lemma EmptyOk(lines: seq<Line>)
    requires forall j: nat | j < |lines| :: lines[j] == EMPTY
    ensures LinesOk(lines, [])
  {
    assert Take(|lines|, Recency([])) == [];
  }

  /** A used line has the tag exactly when the set holds it. */
  lemma Lookup(lines: seq<Line>, hist: seq<int>, t: int)
    requires LinesOk(lines, hist)
    ensures t in Held(lines, hist) <==> exists j: nat :: j < |Held(lines, hist)| && j < |lines| && lines[j].tag == t
  {
    var held := Held(lines, hist);
    if t in held { assert Holder(lines, |held|, t); }
    forall j: nat | j < |held| && j < |lines| ensures lines[j].tag in held {
      assert LineAt(lines, hist, held, j);
    }
  }

  // ----- the flat array

  /** The array csim.c allocates has room for 2^b sets; the index runs over 2^s. */
  ghost predicate InBounds(ways: nat, g: Geometry) {
    forall addr: nat :: Times(ways, g.Index(addr)) + ways <= Times(ways, Pow2(g.b))
  }

  lemma {:induction false} PowMonotone(a: nat, b: nat)
    ensures a <= b ==> Pow2(a) <= Pow2(b)
    ensures a < b ==> Pow2(a) < Pow2(b)
    decreases b
  {
    if a < b { PowMonotone(a, b - 1); }
  }

  lemma SetFits(ways: nat, i: nat, n: nat)
    requires i < n
    ensures Times(ways, i) + ways <= Times(ways, n)
  {
    hide Times;
    TimesSucc(ways, i);
    TimesMonotone(ways, i + 1, n);
  }

  /** So the cells of every set are in the array exactly when s <= b. */
  lemma InBoundsIff(ways: Ways, g: Geometry)
    ensures InBounds(ways, g) <==> g.s <= g.b
  {
    PowMonotone(g.s, g.b);
    PowMonotone(g.b, g.s);
    if g.s <= g.b {
      forall addr: nat ensures Times(ways, g.Index(addr)) + ways <= Times(ways, Pow2(g.b)) {
        SetFits(ways, g.Index(addr), Pow2(g.b));
      }
    } else {
      var addr := AddressOf(g, Pow2(g.b), 0);
      assert g.Index(addr) == Pow2(g.b);
      assert Times(ways, Pow2(g.b)) + ways > Times(ways, Pow2(g.b));
    }
  }

  lemma AddressOf(g: Geometry, i: nat, t: nat) returns (addr: nat)
    requires i < g.Sets()
    ensures g.Index(addr) == i && g.Tag(addr) == t
  {
    var m, n := Pow2(g.b), Pow2(g.s);
    var block := t * n + i;
    addr := block * m;
    IndexBits.DivMod(addr, m, block, 0);
    IndexBits.DivMod(block, n, t, i);
    IndexBits.PowAdd(g.b, g.s);
    Shifted(t, n, i, m);
    IndexBits.DivMod(addr, m * n, t, i * m);
  }

  lemma Shifted(t: nat, n: nat, i: nat, m: nat)
    requires i < n && m > 0
    ensures (t * n + i) * m == t * (m * n) + i * m && 0 <= i * m < m * n
  {
    IndexBits.MulAtLeast(n - i, m);
    assert (n - i) * m == n * m - i * m;
  }

  // ----- what the hit loop reads

  /** How far into the array the lines reach that an access to `addr` looks at, after the
      trace `done`. The loop that ages the lines of a set on a hit tests the counter before
      the bound: it looks at the line behind those in use, also when that is the first one
      behind the set. */
  function Reach(ways: Ways, g: Geometry, done: seq<Op>, addr: nat): nat {
    var i := g.Index(addr);
    Times(ways, i) + SetReach(ways, SetHistory(g, done, i), g.Tag(addr))
  }

  function SetReach(ways: Ways, hist: seq<int>, t: int): nat {
    var held := Take(ways, Recency(hist));
    if t in held then |held| + 1 else ways
  }

  ghost predicate StaysInside(ways: Ways, g: Geometry) {
    forall done: seq<Op>, addr: nat :: Reach(ways, g, done, addr) <= Times(ways, Pow2(g.b))
  }

  /** A trace after which a set has used n lines. */
  lemma {:induction false} FillSet(g: Geometry, i: nat, n: nat) returns (done: seq<Op>)
    requires i < g.Sets()
    ensures var r := Recency(SetHistory(g, done, i)); |r| == n && forall t :: t in r <==> 0 <= t < n
  {
    if n == 0 {
      done := [];
    } else {
      var before := FillSet(g, i, n - 1);
      var addr := AddressOf(g, i, n - 1);
      done := before + [Load(addr)];
      var hist := SetHistory(g, before, i);
      HistoryStep(g, before, Load(addr), i);
      assert (hist + [n - 1])[..|hist|] == hist;
      DropAbsent(Recency(hist), n - 1);
    }
  }

  /** For every trace, no read leaves the array exactly when s < b. */
  lemma StaysInsideIff(ways: Ways, g: Geometry)
    ensures StaysInside(ways, g) <==> g.s < g.b
  {
    hide Times, Reach;
    PowMonotone(g.s, g.b);
    PowMonotone(g.b, g.s);
    if g.s < g.b {
      forall done: seq<Op>, addr: nat ensures Reach(ways, g, done, addr) <= Times(ways, Pow2(g.b)) {
        ReachIs(ways, g, done, addr);
        SetFits(ways, g.Index(addr), Pow2(g.s));
        SetFits(ways, Pow2(g.s), Pow2(g.b));
      }
    } else {
      var i := Pow2(g.s) - 1;
      var done := FillSet(g, i, ways);
      var addr := AddressOf(g, i, 0);
      ReachIs(ways, g, done, addr);
      TimesSucc(ways, i);
      TimesMonotone(ways, Pow2(g.b), Pow2(g.s));
      assert Reach(ways, g, done, addr) > Times(ways, Pow2(g.b));
    }
  }

  lemma ReachIs(ways: Ways, g: Geometry, done: seq<Op>, addr: nat)
    ensures var i, r := g.Index(addr), Recency(SetHistory(g, done, g.Index(addr)));
            && Reach(ways, g, done, addr) <= Times(ways, i) + ways + 1
            && (|r| == ways && g.Tag(addr) in r ==> Reach(ways, g, done, addr) == Times(ways, i) + ways + 1)
  {
  }

  lemma OneHeld()
    ensures SetReach(1, [0], 0) == 2
  {
    assert [0][..0] == [];
    assert Recency([0]) == [0];
  }

  lemma OneLoad(g: Geometry, addr: nat)
    ensures SetHistory(g, [Load(addr)], g.Index(addr)) == [g.Tag(addr)]
  {
    HistoryStep(g, [], Load(addr), g.Index(addr));
    assert [] + [Load(addr)] == [Load(addr)];
    assert SetHistory(g, [], g.Index(addr)) == [];
  }

  /** With two sets of one line and blocks of two bytes, which make six words, the second
      of two loads from address 2 reads word 7. */
  lemma OverreadExample()
    ensures Reach(1, Geometry(1, 1), [Load(2)], 2) == 3 && Times(1, Pow2(1)) == 2
  {
    hide SetHistory, SetReach;
    var g := Geometry(1, 1);
    assert Pow2(2) == 4 && g.Index(2) == 1 && g.Tag(2) == 0;
    OneLoad(g, 2);
    OneHeld();
  }

  class Cache {
    const g: Geometry
    const ways: Ways
    const lines: array<Line>
    var hits: nat
    var misses: nat
    var evicts: nat
    ghost var done: seq<Op>   // the trace so far

    ghost function SetLines(i: nat): (s: seq<Line>)
      requires i < g.Sets() && g.s <= g.b && lines.Length == Times(ways, Pow2(g.b))
      reads lines
      ensures Times(ways, i) + ways <= lines.Length && s == From(Times(ways, i))
    {
      PowMonotone(g.s, g.b);
      SetFits(ways, i, Pow2(g.b));
      From(Times(ways, i))
    }

    ghost predicate SetOk(i: nat)
      requires i < g.Sets() && g.s <= g.b && lines.Length == Times(ways, Pow2(g.b))
      reads this, lines
    {
      LinesOk(SetLines(i), SetHistory(g, done, i))
    }

    /** Every set holds what LRU would, and the counters are those of the LRU run. */
    ghost predicate Valid()
      reads this, lines
    {
      && g.s <= g.b && lines.Length == Times(ways, Pow2(g.b))
      && (forall i: nat {:trigger SetOk(i)} | i < g.Sets() :: SetOk(i))
      && var r := Run(g, ways, done); hits == r.hits && misses == r.misses && evicts == r.evicts
    }

    constructor (g: Geometry, ways: Ways)
      requires g.s <= g.b
      ensures Valid() && fresh(lines) && this.g == g && this.ways == ways && done == []
    {
      this.g, this.ways := g, ways;
      IndexBits.MulAtLeast(ways, Pow2(g.b));
      lines := new Line[Times(ways, Pow2(g.b))](_ => EMPTY);
      hits, misses, evicts := 0, 0, 0;
      done := [];
      new;
      assert forall l | 0 <= l < lines.Length :: lines[l] == EMPTY;
      forall i: nat | i < g.Sets() ensures SetOk(i) {
        EmptyOk(SetLines(i));
      }
    }

    /** The lines from `base` on as a sequence. */
    ghost function From(base: nat): (s: seq<Line>)
      requires base + ways <= lines.Length
      reads lines
      ensures |s| == ways && forall j: nat | j < ways :: s[j] == lines[base + j]
    {
      lines[base..base + ways]
    }

    /** The hit loop: on a match, age every line in use and make this one the newest. */
    method TryHit(base: nat, tag: int, ghost n: nat) returns (hit: bool, ghost j: nat, ghost behind: nat)
      requires base + ways <= lines.Length && Shape(From(base), n)
      modifies lines, `hits
      ensures hits == old(hits) + (if hit then 1 else 0)
      ensures hit ==> j < n && old(From(base))[j].tag == tag && From(base) == Hit(old(From(base)), n, j)
      ensures hit ==> behind == base + n  // the line that ends the ageing loop
      ensures !hit ==> lines[..] == old(lines[..]) && forall i: nat | i < n :: From(base)[i].tag != tag
      ensures forall l | 0 <= l < lines.Length && !(base <= l < base + ways) :: lines[l] == old(lines[l])
    {
      ghost var s := From(base);
      var it := base;
      while it < base + ways
        invariant base <= it <= base + ways && lines[..] == old(lines[..]) && hits == old(hits)
        invariant forall i: nat | i < it - base :: !(s[i].valid && s[i].tag == tag)
      {
        if tag == lines[it].tag && lines[it].valid {
          j := it - base;
          assert j < n;
          var k := base;
          while k < base + ways && lines[k].count != 0
            invariant base <= k <= base + n && hits == old(hits)
            invariant forall l | 0 <= l < lines.Length ::
                        lines[l] == if base <= l < k then Older(s[l - base]) else old(lines[l])
          {
            lines[k] := lines[k].(count := lines[k].count + 1);
            k := k + 1;
          }
          lines[it] := lines[it].(count := 1);
          hits := hits + 1;
          return true, j, k;
        }
        it := it + 1;
      }
      return false, 0, 0;
    }

    /** The inner aging loop of the miss paths. */
    method AgeLines(base: nat, n: nat)
      requires base + n <= lines.Length
      modifies lines
      ensures forall l | 0 <= l < lines.Length ::
                lines[l] == if base <= l < base + n then Older(old(lines[l])) else old(lines[l])
    {
      var m := base;
      while m < base + n
        invariant base <= m <= base + n
        invariant forall l | 0 <= l < lines.Length ::
                    lines[l] == if base <= l < m then Older(old(lines[l])) else old(lines[l])
      {
        lines[m] := lines[m].(count := lines[m].count + 1);
        m := m + 1;
      }
    }

    /** The miss loop: the first free line takes the tag, and every line up to it ages
        by one; without a free line, the largest counter is found. */
    method TryFill(base: nat, tag: int, ghost n: nat) returns (filled: bool, replace: nat, ghost w: nat)
      requires base + ways <= lines.Length && Shape(From(base), n)
      modifies lines
      ensures filled <==> n < ways
      ensures filled ==> From(base) == Filled(old(From(base)), n, tag)
      ensures !filled ==> lines[..] == old(lines[..])
      ensures !filled ==> forall i: nat | i < ways :: From(base)[i].count <= replace
      ensures !filled ==> w < ways && From(base)[w].count == replace
      ensures forall l | 0 <= l < lines.Length && !(base <= l < base + ways) :: lines[l] == old(lines[l])
    {
      ghost var s := From(base);
      replace, w := 0, 0;
      var l := base;
      while l < base + ways
        invariant base <= l <= base + n && lines[..] == old(lines[..])
        invariant forall i: nat | i < l - base :: s[i].count <= replace
        invariant if l > base then w < l - base && s[w].count == replace else replace == 0
      {
        if lines[l].tag == 0 && !lines[l].valid {
          lines[l] := Line(tag, lines[l].count, true);
          AgeLines(base, l - base + 1);
          return true, replace, w;
        }
        if replace < lines[l].count {
          replace, w := lines[l].count, l - base;
        }
        l := l + 1;
      }
      return false, replace, w;
    }

    /** The evict loops: the first line with that counter takes the tag, and every line
        of the set ages by one. */
    method Evict(base: nat, tag: int, replace: nat, ghost w: nat) returns (ghost j: nat)
      requires base + ways <= lines.Length && w < ways && From(base)[w].count == replace
      modifies lines, `evicts
      ensures evicts == old(evicts) + 1
      ensures j < ways && old(From(base))[j].count == replace && From(base) == Evicted(old(From(base)), j, tag)
      ensures forall l | 0 <= l < lines.Length && !(base <= l < base + ways) :: lines[l] == old(lines[l])
    {
      ghost var s := From(base);
      evicts := evicts + 1;
      var v := base;
      while v < base + ways && lines[v].count != replace
        invariant base <= v <= base + ways
        invariant forall i: nat | i < v - base :: s[i].count != replace
      {
        v := v + 1;
      }
      j := v - base;
      lines[v] := Line(tag, 0, lines[v].valid);
      AgeLines(base, ways);
    }

    // ----- one line of the trace

    /** Looks a tag up in the lines from `base` and updates them. */
    method UpdateSet(base: nat, tag: int, ghost h: seq<int>) returns (ghost reach: nat)
      requires base + ways <= lines.Length && LinesOk(From(base), h)
      modifies lines, `hits, `misses, `evicts
      ensures LinesOk(From(base), h + [tag])
      ensures forall l | 0 <= l < lines.Length && !(base <= l < base + ways) :: lines[l] == old(lines[l])
      ensures var held := Take(ways, Recency(h));
              && hits == old(hits) + (if tag in held then 1 else 0)
              && misses == old(misses) + (if tag in held then 0 else 1)
              && evicts == old(evicts) + (if tag in held || |held| < ways then 0 else 1)
      ensures reach == base + SetReach(ways, h, tag)
    {
      hide LinesOk, Recency, Take, Hit, Filled, Evicted;
      ghost var s := From(base);
      ghost var n := |Held(s, h)|;
      OkShape(s, h);
      Lookup(s, h, tag);
      var hit, j, behind := TryHit(base, tag, n);
      if hit {
        HitOk(s, h, j, tag);
        return behind + 1;
      }
      reach := base + ways;
      misses := misses + 1;
      var filled, replace, w := TryFill(base, tag, n);
      if filled {
        FilledOk(s, h, tag);
      } else {
        var v := Evict(base, tag, replace, w);
        VictimIsOldest(s, h, v);
        EvictedOk(s, h, v, tag);
      }
    }

    /** The access of one trace line. */
    method Touched(index: nat, tag: int) returns (ghost reach: nat)
      requires Valid() && index < g.Sets()
      modifies this, lines
      ensures done == old(done)
      ensures var r := Refer(ways, Run(g, ways, done), index, tag);
              hits == r.hits && misses == r.misses && evicts == r.evicts
      ensures forall i: nat | i < g.Sets() ::
                LinesOk(SetLines(i), SetHistory(g, done, i) + if i == index then [tag] else [])
      ensures reach == Times(ways, index) + SetReach(ways, SetHistory(g, done, index), tag)
    {
      hide Times, LinesOk, SetHistory, Run, Recency, Take, SetReach;
      assert SetOk(index);
      RunIsStack(g, ways, done, index);
      ghost var all := lines[..];
      var base := Times(ways, index);
      reach := UpdateSet(base, tag, SetHistory(g, done, index));
      forall i: nat | i < g.Sets()
        ensures LinesOk(SetLines(i), SetHistory(g, done, i) + if i == index then [tag] else [])
      {
        if i != index {
          assert old(SetOk(i));
          OtherSet(all, lines[..], ways, i, index);
          assert SetLines(i) == old(SetLines(i));
          assert SetHistory(g, done, i) + [] == SetHistory(g, done, i);
        }
      }
    }

    /** One trace line: an instruction fetch changes nothing, a modify counts a second,
        sure hit. The lines that csim.c looks at end at `reach`. */
    method SimLine(op: Op) returns (ghost reach: nat)
      requires Valid()
      modifies this, lines
      ensures Valid() && done == old(done) + [op]
      ensures reach == if op.Fetch? then 0 else Reach(ways, g, old(done), op.addr)
    {
      hide Times, LinesOk, SetHistory, Run, Refer;
      ghost var before := done;
      RunStep(g, ways, before, op);
      if op.Fetch? {
        done := before + [op];
        forall i: nat | i < g.Sets() ensures SetOk(i) {
          assert old(SetOk(i));
          HistoryStep(g, before, op, i);
        }
        return 0;
      }
      var index, tag := IndexBits.MaskedIndex(op.addr, g.s, g.b), IndexBits.Div(op.addr, Pow2(g.b + g.s));
      IndexBits.IndexIsMasked(g, op.addr);
      reach := Touched(index, tag);
      if op.Modify? {
        hits := hits + 1;
      }
      done := before + [op];
      forall i: nat | i < g.Sets() ensures SetOk(i) {
        HistoryStep(g, before, op, i);
      }
    }

    /** The whole trace: at the end the summary is that of the LRU run. */
    method Simulate(trace: seq<Op>)
      requires Valid() && done == []
      modifies this, lines
      ensures Valid() && done == trace
      ensures var r := Run(g, ways, trace); hits == r.hits && misses == r.misses && evicts == r.evicts
    {
      var k := 0;
      while k < |trace|
        invariant 0 <= k <= |trace| && Valid() && done == trace[..k]
      {
        var _ := SimLine(trace[k]);
        assert trace[..k + 1] == trace[..k] + [trace[k]];
        k := k + 1;
      }
      assert trace[..k] == trace;
    }
  }

  lemma HistoryStep(g: Geometry, before: seq<Op>, op: Op, i: nat)
    ensures SetHistory(g, before + [op], i) ==
            if op.Fetch? then SetHistory(g, before, i)
            else SetHistory(g, before, i) + if i == g.Index(op.addr) then [g.Tag(op.addr)] else []
  {
    assert (before + [op])[..|before|] == before;
  }

  lemma OtherSet(s: seq<Line>, t: seq<Line>, ways: nat, i: nat, k: nat)
    requires |s| == |t| && i != k && Times(ways, i) + ways <= |s|
    requires forall l | 0 <= l < |s| && !(Times(ways, k) <= l < Times(ways, k) + ways) :: t[l] == s[l]
    ensures s[Times(ways, i)..Times(ways, i) + ways] == t[Times(ways, i)..Times(ways, i) + ways]
  {
    SetsApart(ways, i, k);
  }

  lemma SetsApart(ways: nat, i: nat, k: nat)
    requires i != k
    ensures Times(ways, i) + ways <= Times(ways, k) || Times(ways, k) + ways <= Times(ways, i)
  {
    if i < k { SetFits(ways, i, k); } else { SetFits(ways, k, i); }
  }
}
