/** The job ids of lab9/tsh.c: when they tell jobs apart. */
module JobIds {
  import opened JobTable
  import opened Shell
  import opened ShellRuns

  ghost predicate Used(t: seq<Job>, jid: nat) {
    exists i :: 0 <= i < |t| && t[i].pid != 0 && t[i].jid == jid
  }

  ghost predicate DistinctIds(t: seq<Job>) {
    forall i, j | 0 <= i < j < |t| && t[i].pid != 0 && t[j].pid != 0 :: t[i].jid != t[j].jid
  }

  // ----- one event

  /** The id a new job gets is in use. */
  ghost predicate Clashes(s: State, e: Event) {
    e.AddJob? && SlotFree(s) && Used(s.jobs, s.nextJid)
  }

  /** Only addjob can give an id twice, and does so exactly when the next id is in use. */
  lemma IdsStepIff(s: State, e: Event)
    requires Inv(s) && Enabled(s, e) && DistinctIds(s.jobs)
    ensures DistinctIds(Next(s, e).jobs) <==> !Clashes(s, e)
  {
    hide MaxJid, FgPid, Listed, ListedAlive, Accounted, OneForeground, StopsMarked, Noticed, Guarded, Sound, Has;
    var t := Next(s, e).jobs;
    if e.AddJob? {
      var i := Find(s.jobs, 0, 0);
      if SlotFree(s) {
        assert i < |s.jobs| && t[i].jid == s.nextJid;
        if Used(s.jobs, s.nextJid) {
          var j :| 0 <= j < |s.jobs| && s.jobs[j].pid != 0 && s.jobs[j].jid == s.nextJid;
          assert t[j] == s.jobs[j];
          PidIsSet(s);
        }
      }
    } else {
      ChangeKeeps(s, e);
    }
  }

  lemma PidIsSet(s: State)
    requires Inv(s) && Enabled(s, AddJob)
    ensures s.main.pid != 0
  {
  }

  lemma ChangeKeeps(s: State, e: Event)
    requires Enabled(s, e) && !e.AddJob?
    ensures |Next(s, e).jobs| == |s.jobs|
    ensures forall i | 0 <= i < |s.jobs| :: var n := Next(s, e).jobs[i];
              n.pid == 0 || (n.pid == s.jobs[i].pid && n.jid == s.jobs[i].jid)
  {
    hide MaxJid, FgPid;
  }

  // ----- whole runs

  /** Over a whole run no two jobs ever share an id exactly when no job was given one in use. */
  lemma {:induction false} IdsDistinctIff(r: Run, n: nat)
    requires r.Valid() && n <= |r.events|
    ensures (forall k | 0 <= k <= n :: DistinctIds(r.states[k].jobs)) <==>
            forall k | 0 <= k < n :: !Clashes(r.states[k], r.events[k])
  {
    hide DistinctIds, Clashes, Inv, Next, Enabled;
    if n == 0 {
      NoIds();
    } else {
      var k := n - 1;
      IdsDistinctIff(r, k);
      InvAlong(r, k);
      assert Step(r.states[k], r.events[k], r.states[k + 1]);
      if DistinctIds(r.states[k].jobs) { IdsStepIff(r.states[k], r.events[k]); }
    }
  }

  lemma NoIds()
    ensures DistinctIds(Start().jobs)
  {
  }

  /** All ids lie below the next one. */
  ghost predicate Below(s: State) {
    s.nextJid >= 1 && forall i | 0 <= i < |s.jobs| && s.jobs[i].pid != 0 :: s.jobs[i].jid < s.nextJid
  }

  lemma BelowStep(s: State, e: Event)
    requires Inv(s) && Enabled(s, e) && Below(s) && (e.AddJob? && SlotFree(s) ==> s.nextJid < MAXJOBS)
    ensures Below(Next(s, e))
  {
    hide MaxJid, FgPid, ListedAlive, Accounted, OneForeground, StopsMarked, Noticed, Guarded, Sound, Has, Listed;
    if e.AddJob? {
      assert !SlotFree(s) <==> Find(s.jobs, 0, 0) == |s.jobs|;
    } else {
      ChangeKeeps(s, e);
    }
  }

  /** So ids are distinct as long as no job has been given the id MAXJOBS, after which the
      numbering starts again at 1. */
  lemma {:induction false} BelowAlong(r: Run, n: nat)
    requires r.Valid() && n <= |r.events|
    requires forall k | 0 <= k < n && r.events[k].AddJob? && SlotFree(r.states[k]) :: r.states[k].nextJid < MAXJOBS
    ensures Below(r.states[n]) && DistinctIds(r.states[n].jobs)
  {
    hide DistinctIds, SlotFree, Inv, Next, Enabled;
    if n == 0 {
      NoIds();
    } else {
      var k := n - 1;
      BelowAlong(r, k);
      InvAlong(r, k);
      assert Step(r.states[k], r.events[k], r.states[k + 1]);
      BelowStep(r.states[k], r.events[k]);
      IdsStepIff(r.states[k], r.events[k]);
    }
  }

  // ----- a run in which two jobs share an id

  lemma OneMore(events: seq<Event>, r: State, e: Event, s: State) returns (all: seq<Event>)
    requires Reaches(events, r) && Step(r, e, s)
    ensures Reaches(all, s)
  {
    hide Step;
    all := events + [e];
    assert all[..|events|] == events;
  }

  /** A command with & typed while nothing is going on. */
  function Launched(s: State, pid: nat): State {
    s.(children := s.children[pid := Running],
       jobs := Added(s.jobs, s.nextJid, pid, BG),
       nextJid := if s.nextJid + 1 > MAXJOBS then 1 else s.nextJid + 1)
  }

  ghost predicate Quiet(s: State) {
    s.main.Prompt? && s.handler.Idle? && !s.blocked && !s.pending
  }

  lemma Launch(events: seq<Event>, s: State, pid: nat) returns (all: seq<Event>)
    requires Reaches(events, s) && Quiet(s) && SlotFree(s) && pid != 0 && pid !in s.children
    ensures Reaches(all, Launched(s, pid)) && Quiet(Launched(s, pid))
  {
    hide Reaches, Added;
    var s1 := s.(main := Blocking(true), blocked := true);
    var s2 := s1.(main := Forked(pid, true), children := s.children[pid := Running]);
    var s3 := s2.(main := Masked(pid, true));
    var s4 := Launched(s, pid).(main := Adding(pid, true), blocked := true);
    all := OneMore(events, s, Eval(true), s1);
    all := OneMore(all, s1, Fork(pid), s2);
    all := OneMore(all, s2, MaskAll, s3);
    all := OneMore(all, s3, AddJob, s4);
    all := OneMore(all, s4, Restore, Launched(s, pid));
  }

  function Children(n: nat): (m: map<nat, Child>)
    ensures forall p :: p in m <==> 1 <= p <= n
    ensures forall p | p in m :: m[p] == Running
  {
    if n == 0 then map[] else Children(n - 1)[n := Running]
  }

  function Listing(n: nat): (t: seq<Job>)
    ensures |t| == MAXJOBS
    ensures forall i | 0 <= i < |t| :: t[i] == if i < n then Job(i + 1, i + 1, BG) else CLEARED
  {
    seq(MAXJOBS, i requires 0 <= i => if i < n then Job(i + 1, i + 1, BG) else CLEARED)
  }

  /** n such commands, numbered from 1. */
  function Filled(n: nat): State {
    State(Listing(n), n + 1, Children(n), false, false, Prompt, Idle, {})
  }

  lemma {:induction false} Fill(n: nat) returns (events: seq<Event>)
    requires n < MAXJOBS
    ensures Reaches(events, Filled(n))
  {
    hide Reaches;
    if n == 0 {
      events := [];
      StartReached();
      assert Filled(0) == Start();
    } else {
      var before := Fill(n - 1);
      var s := Filled(n - 1);
      assert s.jobs[n - 1].pid == 0;
      events := Launch(before, s, n);
      assert Launched(s, n).jobs == Filled(n).jobs;
    }
  }

  lemma StartReached()
    ensures Reaches([], Start())
  {
  }

  lemma Fifth()
    ensures var t := Deleted(Listing(15), 5);
            Listed(Listing(15), 5) && t == Listing(15)[4 := CLEARED] && MaxJid(t) == 15
  {
    var f := Listing(15);
    assert f[4].pid == 5 && Find(f, 5, 0) == 4;
    var t := f[4 := CLEARED];
    assert t[14].jid == 15;
  }

  /** With fifteen jobs listed, job 5 ends ... */
  lemma EndFifth(events: seq<Event>) returns (all: seq<Event>)
    requires Reaches(events, Filled(15))
    ensures Reaches(all, Filled(15).(handler := Reaped(5), children := Children(15) - {5}))
  {
    hide Reaches, Children, Listing;
    var f := Filled(15);
    var f1 := f.(children := f.children[5 := Zombie], pending := true);
    var f2 := f1.(handler := Polling, pending := false);
    all := OneMore(events, f, ChildEnds(5), f1);
    all := OneMore(all, f1, Deliver, f2);
    assert f1.children - {5} == f.children - {5};
    all := OneMore(all, f2, WaitEnded(5), f2.(handler := Reaped(5), children := f.children - {5}));
  }

  /** ... and its slot is cleared. */
  lemma ClearFifth(events: seq<Event>) returns (all: seq<Event>, s: State)
    requires Reaches(events, Filled(15).(handler := Reaped(5), children := Children(15) - {5}))
    ensures Reaches(all, s) && Quiet(s) && s.nextJid == 16 && s.jobs == Listing(15)[4 := CLEARED]
    ensures s.children == Children(15) - {5}
  {
    hide Reaches, Children, Listing, Listed, Deleted, MaxJid, Find;
    var f := Filled(15).(handler := Reaped(5), children := Children(15) - {5});
    var g := f.(handler := Polling, jobs := f.jobs[4 := CLEARED], nextJid := 16);
    Fifth();
    all := OneMore(events, f, Delete, g);
    s := g.(handler := Idle);
    all := OneMore(all, g, WaitNone, s);
  }

  /** The job after it is given 16, and the next again 1, which job 1 still has. */
  lemma SharedIdExample() returns (events: seq<Event>, s: State)
    ensures Reaches(events, s)
    ensures |s.jobs| == MAXJOBS && s.jobs[0] == Job(1, 1, BG) && s.jobs[15] == Job(17, 1, BG)
  {
    hide Reaches, Quiet;
    events := Fill(15);
    events := EndFifth(events);
    events, s := ClearFifth(events);
    assert s.jobs[4].pid == 0 && Find(s.jobs, 0, 0) == 4;
    events := Launch(events, s, 16);
    s := Launched(s, 16);
    assert s.jobs[15].pid == 0 && Find(s.jobs, 0, 0) == 15;
    events := Launch(events, s, 17);
    s := Launched(s, 17);
  }
}
