/** Hits of lab8/csim.c in terms of the blocks of memory that a trace touches. */
module CacheBlocks {
  import opened Bits
  import IndexBits
  import opened Lru
  import opened Seqs

  /** The block of 2^b bytes an address lies in. */
  function Block(g: Geometry, addr: nat): nat {
    IndexBits.Div(addr, Pow2(g.b))
  }

  // ----- lines are blocks

  lemma BlockParts(g: Geometry, addr: nat)
    ensures Block(g, addr) == Times(g.Tag(addr), Pow2(g.s)) + g.Index(addr) && g.Tag(addr) >= 0
  {
    IndexBits.PowAdd(g.b, g.s);
    QuotientParts(addr, Pow2(g.b), Pow2(g.s));
  }

  lemma QuotientParts(x: nat, m: nat, n: nat)
    requires m > 0 && n > 0
    ensures m * n > 0 && x / (m * n) >= 0 && x / m == Times(x / (m * n), n) + x / m % n
  {
    IndexBits.MulAtLeast(m, n);
    var k, r := IndexBits.Parts(x, m);
    IndexBits.DivMod(x, m, k, r);
    var t, i := IndexBits.Parts(k, n);
    Nested(t, n, i, m, r);
    IndexBits.DivMod(x, m * n, t, i * m + r);
  }

  lemma Nested(t: nat, n: nat, i: nat, m: nat, r: nat)
    requires i < n && r < m
    ensures (t * n + i) * m + r == t * (m * n) + (i * m + r) && 0 <= i * m + r < m * n
  {
    IndexBits.MulAtLeast(n - i, m);
    assert (n - i) * m == n * m - i * m;
    assert (t * n + i) * m == t * n * m + i * m;
    assert t * n * m == t * (m * n);
  }

  lemma SameParts(n: nat, t: nat, i: nat, u: nat, k: nat)
    requires i < n && k < n && Times(t, n) + i == Times(u, n) + k
    ensures t == u && i == k
  {
    IndexBits.DivMod(t * n + i, n, t, i);
    IndexBits.DivMod(u * n + k, n, u, k);
  }

  /** Two addresses are looked up in the same set under the same tag exactly when they lie
      in the same block. */
  lemma SameLineIff(g: Geometry, a: nat, c: nat)
    ensures g.Index(a) == g.Index(c) && g.Tag(a) == g.Tag(c) <==> a / Pow2(g.b) == c / Pow2(g.b)
    ensures g.Index(a) == g.Index(c) && g.Tag(a) == g.Tag(c) <==> Block(g, a) == Block(g, c)
  {
    hide Times;
    BlockParts(g, a);
    BlockParts(g, c);
    if Block(g, a) == Block(g, c) { SameParts(Pow2(g.s), g.Tag(a), g.Index(a), g.Tag(c), g.Index(c)); }
  }

  // ----- how many tags lie between two uses

  /** The distinct tags after the last use of t. */
  function Since(hist: seq<int>, t: int): set<int>
    requires t in hist
  {
    var n := |hist| - 1;
    if hist[n] == t then {} else
      assert hist == hist[..n] + [hist[n]];
      Since(hist[..n], t) + {hist[n]}
  }

  /** They are those in front of it in the recency list. */
  lemma {:induction false} Position(hist: seq<int>, t: int) returns (p: nat)
    requires t in hist
    ensures p < |Recency(hist)| && Recency(hist)[p] == t
    ensures forall x :: x in Recency(hist)[..p] <==> x in Since(hist, t)
  {
    var n := |hist| - 1;
    var h, u := hist[..n], hist[n];
    assert hist == h + [u];
    var r := Recency(h);
    if u == t {
      p := 0;
    } else {
      var q := Position(h, t);
      RecencyFacts(h);
      InFront(r, q, u);
      p := if u in r[..q] then q else q + 1;
    }
  }

  /** Moving another to the front. */
  lemma InFront(r: seq<int>, q: nat, u: int)
    requires Distinct(r) && q < |r| && u != r[q]
    ensures var p := if u in r[..q] then q else q + 1;
            && p < |Touch(r, u)| && Touch(r, u)[p] == r[q]
            && forall x :: x in Touch(r, u)[..p] <==> x in r[..q] || x == u
  {
    var d := Drop(r, u);
    DropTake(r, q, u);
    DropTake(r, q + 1, u);
    assert r[..q + 1] == r[..q] + [r[q]];
    if u in r[..q] {
      assert d[..q - 1] == Drop(r[..q], u);
      DropFacts(r[..q], u);
      assert d[..q] == Drop(r[..q + 1], u);
      DropLast(r[..q], r[q], u);
      assert Touch(r, u)[..q] == [u] + d[..q - 1];
    } else {
      assert d[..q + 1] == r[..q + 1];
      assert d[..q] == r[..q];
      assert Touch(r, u)[..q + 1] == [u] + d[..q];
    }
  }

  lemma {:induction false} DropLast(l: seq<int>, y: int, u: int)
    requires u in l
    ensures Drop(l + [y], u) == Drop(l, u) + [y]
  {
    assert (l + [y])[1..] == l[1..] + [y];
    if l[0] != u { DropLast(l[1..], y, u); }
  }

  lemma {:induction false} DistinctCount(l: seq<int>, a: set<int>)
    requires Distinct(l) && forall x :: x in l <==> x in a
    ensures |l| == |a|
  {
    if l == [] {
      assert forall x | x in a :: x in l;
    } else {
      assert l == [l[0]] + l[1..] && l[0] !in l[1..];
      DistinctCount(l[1..], a - {l[0]});
    }
  }

  /** A tag is held exactly when fewer distinct tags than there are lines came since. */
  lemma HeldIff(ways: Ways, hist: seq<int>, t: int)
    ensures t in Take(ways, Recency(hist)) <==> t in hist && |Since(hist, t)| < ways
  {
    RecencyFacts(hist);
    var r := Recency(hist);
    if t in hist {
      var p := Position(hist, t);
      DistinctCount(r[..p], Since(hist, t));
      if p < ways {
        assert Take(ways, r)[p] == t;
      } else {
        assert forall k | 0 <= k < ways :: r[k] != t;
      }
    } else {
      assert forall x | x in Take(ways, r) :: x in r;
    }
  }

  // ----- the blocks between two uses

  predicate Touches(g: Geometry, op: Op, block: nat) {
    !op.Fetch? && Block(g, op.addr) == block
  }

  /** The last access to the block of `addr` in a trace is the one at k. */
  ghost predicate LastUse(g: Geometry, trace: seq<Op>, addr: nat, k: nat) {
    && k < |trace| && Touches(g, trace[k], Block(g, addr))
    && forall j | k < j < |trace| :: !Touches(g, trace[j], Block(g, addr))
  }

  /** The blocks of set i that are accessed at position k of a trace or later. */
  function Blocks(g: Geometry, trace: seq<Op>, i: nat, k: nat): set<nat> {
    set j | k <= j < |trace| && !trace[j].Fetch? && g.Index(trace[j].addr) == i :: Block(g, trace[j].addr)
  }

  /** The block is among the `ways` most recently used ones of its set: it was accessed
      before, and fewer than that many other blocks of the set were since. */
  ghost predicate Recent(g: Geometry, ways: Ways, trace: seq<Op>, addr: nat) {
    exists k: nat :: LastUse(g, trace, addr, k) && |Blocks(g, trace, g.Index(addr), k + 1)| < ways
  }

  lemma SinceStep(h: seq<int>, u: int, t: int)
    requires t in h || u == t
    ensures t in h + [u] && Since(h + [u], t) == if u == t then {} else Since(h, t) + {u}
  {
    assert (h + [u])[..|h|] == h && (h + [u])[|h|] == u;
  }

  lemma UseStep(g: Geometry, before: seq<Op>, op: Op, addr: nat, k: nat)
    ensures LastUse(g, before + [op], addr, k) <==>
            if Touches(g, op, Block(g, addr)) then k == |before| else LastUse(g, before, addr, k)
  {
    var trace := before + [op];
    assert trace[|before|] == op;
    assert forall j | 0 <= j < |before| :: trace[j] == before[j];
    if LastUse(g, trace, addr, k) && k < |before| { assert !Touches(g, trace[|before|], Block(g, addr)); }
    if !Touches(g, op, Block(g, addr)) && LastUse(g, before, addr, k) {
      forall j | k < j < |trace| ensures !Touches(g, trace[j], Block(g, addr)) {
        if j < |before| { assert trace[j] == before[j]; }
      }
    }
    if LastUse(g, trace, addr, k) && k < |before| {
      forall j | k < j < |before| ensures !Touches(g, before[j], Block(g, addr)) { assert trace[j] == before[j]; }
    }
  }

  lemma BlocksStep(g: Geometry, before: seq<Op>, op: Op, i: nat, k: nat)
    requires k <= |before|
    ensures var x := Blocks(g, before, i, k);
            Blocks(g, before + [op], i, k) ==
              if !op.Fetch? && g.Index(op.addr) == i then x + {Block(g, op.addr)} else x
  {
    hide Block, g.Index;
    var trace := before + [op];
    assert trace[|before|] == op;
    forall b | b in Blocks(g, before, i, k) ensures b in Blocks(g, trace, i, k) {
      var j :| k <= j < |before| && !before[j].Fetch? && g.Index(before[j].addr) == i && Block(g, before[j].addr) == b;
      assert trace[j] == before[j];
    }
  }

  /** Tags of set i and blocks that lie in set i, matched one to one. */
  ghost predicate Matched(g: Geometry, tags: set<int>, blocks: set<nat>, i: nat) {
    && |tags| == |blocks|
    && forall c: nat | g.Index(c) == i :: g.Tag(c) in tags <==> Block(g, c) in blocks
  }

  lemma Inserted<T>(s: set<T>, x: T)
    ensures |s + {x}| == |s| + if x in s then 0 else 1
  {
    if x in s { assert s + {x} == s; }
  }

  lemma MatchedStep(g: Geometry, tags: set<int>, blocks: set<nat>, a: nat)
    requires Matched(g, tags, blocks, g.Index(a))
    ensures Matched(g, tags + {g.Tag(a)}, blocks + {Block(g, a)}, g.Index(a))
  {
    hide g.Tag, g.Index, Block;
    assert g.Tag(a) in tags <==> Block(g, a) in blocks;
    Inserted(tags, g.Tag(a));
    Inserted(blocks, Block(g, a));
    forall c: nat | g.Index(c) == g.Index(a)
      ensures g.Tag(c) in tags + {g.Tag(a)} <==> Block(g, c) in blocks + {Block(g, a)}
    {
      SameLineIff(g, c, a);
    }
  }

  function Elements(l: seq<int>): set<int> {
    set t | t in l
  }

  /** The tags since the last use of a line are the blocks accessed since. */
  lemma {:induction false} SinceMatched(g: Geometry, trace: seq<Op>, addr: nat, k: nat)
    requires LastUse(g, trace, addr, k)
    ensures var i := g.Index(addr);
            var h := SetHistory(g, trace, i);
            g.Tag(addr) in h && Matched(g, Since(h, g.Tag(addr)), Blocks(g, trace, i, k + 1), i)
  {
    hide Since, Blocks, Block, g.Tag, g.Index, Matched;
    var before, op := trace[..|trace| - 1], trace[|trace| - 1];
    assert trace == before + [op];
    var h, i, t := SetHistory(g, before, g.Index(addr)), g.Index(addr), g.Tag(addr);
    UseStep(g, before, op, addr, k);
    if !op.Fetch? { SameLineIff(g, op.addr, addr); }
    if Touches(g, op, Block(g, addr)) {
      SinceStep(h, t, t);
      NoneMatched(g, trace, i);
    } else {
      SinceMatched(g, before, addr, k);
      BlocksStep(g, before, op, i, k + 1);
      if !op.Fetch? && g.Index(op.addr) == i {
        SinceStep(h, g.Tag(op.addr), t);
        MatchedStep(g, Since(h, t), Blocks(g, before, i, k + 1), op.addr);
      }
    }
  }

  lemma NoneMatched(g: Geometry, trace: seq<Op>, i: nat)
    ensures Matched(g, {}, Blocks(g, trace, i, |trace|), i)
  {
    assert Blocks(g, trace, i, |trace|) == {};
  }

  /** The tags of a set's history are the blocks of the set that were accessed. */
  lemma {:induction false} HistoryMatched(g: Geometry, trace: seq<Op>, i: nat)
    ensures Matched(g, Elements(SetHistory(g, trace, i)), Blocks(g, trace, i, 0), i)
  {
    hide Blocks, Block, g.Tag, g.Index, Matched;
    if trace == [] {
      NoneMatched(g, trace, i);
      assert Elements([]) == {};
    } else {
      var before, op := trace[..|trace| - 1], trace[|trace| - 1];
      assert trace == before + [op];
      HistoryMatched(g, before, i);
      BlocksStep(g, before, op, i, 0);
      if !op.Fetch? && g.Index(op.addr) == i {
        var h := SetHistory(g, before, i);
        assert Elements(h + [g.Tag(op.addr)]) == Elements(h) + {g.Tag(op.addr)};
        MatchedStep(g, Elements(h), Blocks(g, before, i, 0), op.addr);
      }
    }
  }

  lemma {:induction false} WasUsed(g: Geometry, trace: seq<Op>, addr: nat) returns (k: nat)
    requires g.Tag(addr) in SetHistory(g, trace, g.Index(addr))
    ensures LastUse(g, trace, addr, k)
  {
    hide Block, g.Tag, g.Index, LastUse;
    var before, op := trace[..|trace| - 1], trace[|trace| - 1];
    assert trace == before + [op];
    if !op.Fetch? { SameLineIff(g, op.addr, addr); }
    if Touches(g, op, Block(g, addr)) {
      k := |before|;
    } else {
      k := WasUsed(g, before, addr);
    }
    UseStep(g, before, op, addr, k);
  }

  /** An address is found in its set exactly when its block is among the recent ones. */
  lemma FoundIff(g: Geometry, ways: Ways, trace: seq<Op>, addr: nat)
    ensures g.Tag(addr) in Run(g, ways, trace).sets[g.Index(addr)] <==> Recent(g, ways, trace, addr)
  {
    hide Blocks, LastUse, SetHistory, Since, g.Tag, Matched;
    var i, t := g.Index(addr), g.Tag(addr);
    var h := SetHistory(g, trace, i);
    RunIsStack(g, ways, trace, i);
    HeldIff(ways, h, t);
    forall k: nat | LastUse(g, trace, addr, k)
      ensures t in h && |Since(h, t)| == |Blocks(g, trace, i, k + 1)|
    {
      SinceMatched(g, trace, addr, k);
      SameCount(g, Since(h, t), Blocks(g, trace, i, k + 1), i);
    }
    if t in h { var k := WasUsed(g, trace, addr); }
  }

  lemma SameCount(g: Geometry, tags: set<int>, blocks: set<nat>, i: nat)
    requires Matched(g, tags, blocks, i)
    ensures |tags| == |blocks|
  {
  }

  /** A set is full exactly when at least as many of its blocks as it has lines were accessed. */
  lemma FullIff(g: Geometry, ways: Ways, trace: seq<Op>, i: nat)
    requires i < g.Sets()
    ensures |Run(g, ways, trace).sets[i]| < ways <==> |Blocks(g, trace, i, 0)| < ways
  {
    hide Blocks, Run, SetHistory, Recency;
    var h := SetHistory(g, trace, i);
    RunIsStack(g, ways, trace, i);
    RecencyFacts(h);
    DistinctCount(Recency(h), Elements(h));
    HistoryMatched(g, trace, i);
  }

  /** What a line of the trace adds to the three counts, said of blocks alone: an access
      hits when its block is one of the `ways` most recently used of its set, and otherwise
      misses, evicting when that many blocks of the set were accessed before. */
  lemma CountsAre(g: Geometry, ways: Ways, trace: seq<Op>, op: Op)
    ensures var st, r := Run(g, ways, trace), Run(g, ways, trace + [op]);
            if op.Fetch? then r == st
            else
              var hit := Recent(g, ways, trace, op.addr);
              var full := |Blocks(g, trace, g.Index(op.addr), 0)| >= ways;
              && r.hits == st.hits + (if hit then 1 else 0) + (if op.Modify? then 1 else 0)
              && r.misses == st.misses + (if hit then 0 else 1)
              && r.evicts == st.evicts + (if !hit && full then 1 else 0)
  {
    hide Recent, Blocks, Run, g.Index, g.Tag;
    RunStep(g, ways, trace, op);
    if !op.Fetch? {
      FoundIff(g, ways, trace, op.addr);
      FullIff(g, ways, trace, g.Index(op.addr));
    }
  }

  /** Nothing is counted before the first line. */
  lemma CountsStart(g: Geometry, ways: Ways)
    ensures var r := Run(g, ways, []); r.hits == 0 && r.misses == 0 && r.evicts == 0
  {
  }

  /** The same set means the same block number modulo the number of sets. */
  lemma BlocksAre(g: Geometry, trace: seq<Op>, i: nat, k: nat, block: nat)
    ensures block in Blocks(g, trace, i, k) <==>
            exists j :: k <= j < |trace| && Touches(g, trace[j], block) && block % Pow2(g.s) == i
  {
  }
}
