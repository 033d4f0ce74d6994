/** The job list of lab9/tsh.c: a table of slots, of which those with pid 0 are free. */
module JobTable {

  const MAXJOBS: nat := 16

  datatype Status = UNDEF | FG | BG | ST

  datatype Job = Job(pid: nat, jid: nat, status: Status)

  const CLEARED := Job(0, 0, UNDEF)

  // ----- the table as a value

  /** The first slot from k on with this pid, or the length of the table. */
  function Find(t: seq<Job>, pid: nat, k: nat): (i: nat)
    requires k <= |t|
    ensures k <= i <= |t| && (i < |t| ==> t[i].pid == pid) && forall j | k <= j < i :: t[j].pid != pid
    decreases |t| - k
  {
    if k == |t| || t[k].pid == pid then k else Find(t, pid, k + 1)
  }

  function MaxJid(t: seq<Job>): (m: nat)
    ensures forall j | 0 <= j < |t| :: t[j].jid <= m
    ensures m == 0 || exists j :: 0 <= j < |t| && t[j].jid == m
  {
    if t == [] then 0 else
      var n := |t| - 1;
      var m := MaxJid(t[..n]);
      assert forall j | 0 <= j < n :: t[..n][j] == t[j];
      if t[n].jid > m then t[n].jid else m
  }

  predicate Listed(t: seq<Job>, pid: nat) {
    pid != 0 && Find(t, pid, 0) < |t|
  }

  /** A slot is free or holds a job with a state; no two jobs share a pid. */
  ghost predicate Sound(t: seq<Job>) {
    && (forall i | 0 <= i < |t| :: t[i].pid == 0 <==> t[i].status == UNDEF)
    && (forall i, j | 0 <= i < j < |t| && t[i].pid != 0 :: t[i].pid != t[j].pid)
  }

  function Added(t: seq<Job>, jid: nat, pid: nat, status: Status): seq<Job> {
    var i := Find(t, 0, 0);
    if i < |t| then t[i := Job(pid, jid, status)] else t
  }

  function Deleted(t: seq<Job>, pid: nat): seq<Job> {
    if Listed(t, pid) then t[Find(t, pid, 0) := CLEARED] else t
  }

  function Marked(t: seq<Job>, pid: nat, status: Status): seq<Job> {
    if Listed(t, pid) then var i := Find(t, pid, 0); t[i := t[i].(status := status)] else t
  }

  /** The pid of the first foreground job, or 0. */
  function FgPid(t: seq<Job>, k: nat): nat
    requires k <= |t|
    decreases |t| - k
  {
    if k == |t| then 0 else if t[k].status == FG then t[k].pid else FgPid(t, k + 1)
  }

  // ----- membership after each change

  lemma ListedIff(t: seq<Job>, pid: nat)
    ensures Listed(t, pid) <==> pid != 0 && exists i :: 0 <= i < |t| && t[i].pid == pid
  {
  }

  ghost predicate Has(t: seq<Job>, pid: nat, status: Status) {
    pid != 0 && exists i :: 0 <= i < |t| && t[i].pid == pid && t[i].status == status
  }

  lemma AddedFacts(t: seq<Job>, jid: nat, pid: nat, status: Status)
    requires Sound(t) && pid != 0 && !Listed(t, pid) && status != UNDEF
    ensures Sound(Added(t, jid, pid, status)) && |Added(t, jid, pid, status)| == |t|
    ensures forall p: nat, q :: Has(Added(t, jid, pid, status), p, q) <==>
              Has(t, p, q) || (Find(t, 0, 0) < |t| && p == pid && q == status)
  {
    var i, a := Find(t, 0, 0), Added(t, jid, pid, status);
    if i < |t| {
      forall p: nat, q | Has(t, p, q) ensures Has(a, p, q) {
        var j :| 0 <= j < |t| && t[j].pid == p && t[j].status == q;
        assert a[j] == t[j];
      }
      assert a[i].pid == pid;
    }
  }

  lemma DeletedFacts(t: seq<Job>, pid: nat)
    requires Sound(t)
    ensures Sound(Deleted(t, pid)) && |Deleted(t, pid)| == |t|
    ensures forall p: nat, q :: Has(Deleted(t, pid), p, q) <==> Has(t, p, q) && p != pid
  {
    var d := Deleted(t, pid);
    ListedIff(t, pid);
    forall p: nat, q | Has(t, p, q) && p != pid ensures Has(d, p, q) {
      var j :| 0 <= j < |t| && t[j].pid == p && t[j].status == q;
      assert d[j] == t[j];
    }
  }

  lemma MarkedFacts(t: seq<Job>, pid: nat, status: Status)
    requires Sound(t) && status != UNDEF
    ensures Sound(Marked(t, pid, status)) && |Marked(t, pid, status)| == |t|
    ensures forall p: nat, q :: Has(Marked(t, pid, status), p, q) <==>
              if p == pid then Listed(t, p) && q == status else Has(t, p, q)
  {
    var m := Marked(t, pid, status);
    ListedIff(t, pid);
    forall p: nat, q | Has(t, p, q) && p != pid ensures Has(m, p, q) {
      var j :| 0 <= j < |t| && t[j].pid == p && t[j].status == q;
      assert m[j] == t[j];
    }
    if Listed(t, pid) { assert m[Find(t, pid, 0)].pid == pid; }
  }

  lemma ListedHas(t: seq<Job>, pid: nat)
    requires Sound(t)
    ensures Listed(t, pid) <==> Has(t, pid, FG) || Has(t, pid, BG) || Has(t, pid, ST)
  {
    ListedIff(t, pid);
    if Listed(t, pid) {
      var i := Find(t, pid, 0);
      assert t[i].status in {FG, BG, ST};
    }
  }

  lemma {:induction false} FgPidIs(t: seq<Job>, k: nat)
    requires Sound(t) && k <= |t|
    ensures FgPid(t, k) != 0 ==> Has(t, FgPid(t, k), FG)
    ensures FgPid(t, k) == 0 ==> forall i | k <= i < |t| :: t[i].status != FG
    decreases |t| - k
  {
    if k < |t| && t[k].status != FG { FgPidIs(t, k + 1); }
  }

  // ----- the table in place

  class Jobs {
    const slots: array<Job>
    var nextJid: nat

    constructor ()
      ensures fresh(slots) && slots.Length == MAXJOBS && nextJid == 1
      ensures forall i | 0 <= i < MAXJOBS :: slots[i] == CLEARED
    {
      slots := new Job[MAXJOBS](_ => CLEARED);
      nextJid := 1;
    }

    /** Takes the first free slot; refuses a bad pid or when there is none. */
    method AddJob(pid: int, status: Status) returns (ok: bool)
      modifies this, slots
      ensures ok <==> pid >= 1 && Find(old(slots[..]), 0, 0) < slots.Length
      ensures slots[..] == if ok then Added(old(slots[..]), old(nextJid), pid, status) else old(slots[..])
      ensures nextJid == if !ok then old(nextJid) else if old(nextJid) + 1 > MAXJOBS then 1 else old(nextJid) + 1
    {
      if pid < 1 {
        return false;
      }
      ghost var t := slots[..];
      for i := 0 to slots.Length
        invariant slots[..] == t && nextJid == old(nextJid)
        invariant Find(t, 0, 0) == Find(t, 0, i)
      {
        if slots[i].pid == 0 {
          slots[i] := Job(pid, nextJid, status);
          nextJid := nextJid + 1;
          if nextJid > MAXJOBS {
            nextJid := 1;
          }
          return true;
        }
      }
      return false;
    }

    method GreatestJid() returns (max: nat)
      ensures max == MaxJid(slots[..])
    {
      max := 0;
      for i := 0 to slots.Length
        invariant max == MaxJid(slots[..i])
      {
        assert slots[..i + 1][..i] == slots[..i];
        if slots[i].jid > max {
          max := slots[i].jid;
        }
      }
      assert slots[..slots.Length] == slots[..];
    }

    /** Clears the job's slot and restarts numbering after the greatest id left. */
    method DeleteJob(pid: int) returns (ok: bool)
      modifies this, slots
      ensures ok <==> pid >= 1 && Listed(old(slots[..]), pid)
      ensures slots[..] == if ok then Deleted(old(slots[..]), pid) else old(slots[..])
      ensures nextJid == if ok then MaxJid(slots[..]) + 1 else old(nextJid)
    {
      if pid < 1 {
        return false;
      }
      ghost var t := slots[..];
      for i := 0 to slots.Length
        invariant slots[..] == t && nextJid == old(nextJid)
        invariant Find(t, pid, 0) == Find(t, pid, i)
      {
        if slots[i].pid == pid {
          slots[i] := CLEARED;
          var m := GreatestJid();
          nextJid := m + 1;
          return true;
        }
      }
      return false;
    }

    method ForegroundPid() returns (pid: nat)
      ensures pid == FgPid(slots[..], 0)
    {
      for i := 0 to slots.Length
        invariant FgPid(slots[..], 0) == FgPid(slots[..], i)
      {
        if slots[i].status == FG {
          return slots[i].pid;
        }
      }
      return 0;
    }

    /** The slot of a pid, or -1 for NULL. */
    method GetJobPid(pid: int) returns (i: int)
      ensures if pid >= 1 && Listed(slots[..], pid) then i == Find(slots[..], pid, 0) else i == -1
    {
      if pid < 1 {
        return -1;
      }
      for k := 0 to slots.Length
        invariant Find(slots[..], pid, 0) == Find(slots[..], pid, k)
      {
        if slots[k].pid == pid {
          return k;
        }
      }
      return -1;
    }
  }
}
