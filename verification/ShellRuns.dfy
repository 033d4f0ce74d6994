/** How long a job of lab9/tsh.c keeps its state over a run, and how long the shell waits. */
module ShellRuns {
  import opened JobTable
  import opened Shell

  // ----- runs with all their states

  datatype Run = Run(states: seq<State>, events: seq<Event>) {
    ghost predicate Valid() {
      && |states| == |events| + 1 && states[0] == Start()
      && forall k | 0 <= k < |events| :: Step(states[k], events[k], states[k + 1])
    }
  }

  lemma {:induction false} InvAlong(r: Run, k: nat)
    requires r.Valid() && k <= |r.events|
    ensures Inv(r.states[k])
  {
    if k == 0 {
      StartInv();
    } else {
      InvAlong(r, k - 1);
      assert Step(r.states[k - 1], r.events[k - 1], r.states[k]);
      StepInv(r.states[k - 1], r.events[k - 1]);
    }
  }

  // ----- what one event does to the state of a job

  predicate Deletes(s: State, e: Event, p: nat) {
    e.Delete? && s.handler == Reaped(p)
  }

  predicate Stops(s: State, e: Event, p: nat) {
    e.MarkStopped? && s.handler == Stopped(p)
  }

  ghost predicate SlotFree(s: State) {
    exists i :: 0 <= i < |s.jobs| && s.jobs[i].pid == 0
  }

  /** eval lists the child it forked. */
  predicate Adds(s: State, e: Event, p: nat, bg: bool) {
    e.AddJob? && s.main == Masked(p, bg)
  }

  /** The status an event gives to job p, or gives back to it. */
  ghost predicate Becomes(s: State, e: Event, p: nat, q: Status) {
    || (Adds(s, e, p, false) && SlotFree(s) && q == FG)
    || (Adds(s, e, p, true) && SlotFree(s) && q == BG)
    || (e == BgFg(p, true) && q == FG)
    || (e == BgFg(p, false) && q == BG)
    || (Stops(s, e, p) && Listed(s.jobs, p) && q == ST)
  }

  lemma AddedStatus(s: State, p: nat, q: Status)
    requires Inv(s) && Enabled(s, AddJob)
    ensures Has(Next(s, AddJob).jobs, p, q) <==>
            if SlotFree(s) && p == s.main.pid then q == (if s.main.bg then BG else FG) else Has(s.jobs, p, q)
  {
    hide Has, Sound, Added, MaxJid, FgPid;
    var pid := s.main.pid;
    AddedFacts(s.jobs, s.nextJid, pid, if s.main.bg then BG else FG);
    NotYet(s.jobs, pid, q);
  }

  lemma NotYet(t: seq<Job>, pid: nat, q: Status)
    requires !Listed(t, pid)
    ensures !Has(t, pid, q)
  {
  }

  /** Afterwards a job has a status exactly when the event gave it, or it had it before and the
      event neither gave it another nor deleted it. */
  lemma StatusIff(s: State, e: Event, p: nat, q: Status)
    requires Inv(s) && Enabled(s, e)
    ensures Has(Next(s, e).jobs, p, q) <==>
            Becomes(s, e, p, q) || (Has(s.jobs, p, q) && !Deletes(s, e, p) && forall x :: !Becomes(s, e, p, x))
  {
    hide Listed, Has, Sound, Added, Deleted, Marked, MaxJid, FgPid, ListedAlive, Accounted, OneForeground,
      StopsMarked, Noticed, SlotFree;
    match e
    case AddJob =>
      AddedStatus(s, p, q);
      assert Becomes(s, e, p, if s.main.bg then BG else FG) <==> SlotFree(s) && p == s.main.pid;
    case BgFg(pid, fg) =>
      MarkedFacts(s.jobs, pid, if fg then FG else BG);
      assert Becomes(s, e, p, if fg then FG else BG) <==> p == pid;
    case Delete => DeletedFacts(s.jobs, s.handler.pid);
    case MarkStopped =>
      MarkedFacts(s.jobs, s.handler.pid, ST);
      assert Becomes(s, e, p, ST) <==> p == s.handler.pid && Listed(s.jobs, p);
      if !Listed(s.jobs, p) { NotYet(s.jobs, p, q); }
    case _ =>
  }

  // ----- how long a status lasts

  /** From state i to state n nothing gives p another status than q, and nothing deletes it. */
  ghost predicate Undisturbed(r: Run, i: nat, n: nat, p: nat, q: Status)
    requires n <= |r.events| < |r.states|
  {
    forall k | i <= k < n :: !Deletes(r.states[k], r.events[k], p) &&
                             forall x | Becomes(r.states[k], r.events[k], p, x) :: x == q
  }

  /** In every run a status lasts until another is given or the job is deleted. */
  lemma {:induction false} StatusLasts(r: Run, i: nat, n: nat, p: nat, q: Status)
    requires r.Valid() && i <= n <= |r.events|
    requires Has(r.states[i].jobs, p, q) && Undisturbed(r, i, n, p, q)
    ensures Has(r.states[n].jobs, p, q)
    decreases n
  {
    hide Has, Inv, Becomes, Next, Enabled;
    if i < n {
      var k := n - 1;
      StatusLasts(r, i, k, p, q);
      InvAlong(r, k);
      assert Step(r.states[k], r.events[k], r.states[k + 1]);
      StatusIff(r.states[k], r.events[k], p, q);
    }
  }

  /** A job started with & is listed BG, and stays so until it is continued in another state,
      reported stopped or deleted. */
  lemma BackgroundLasts(r: Run, i: nat, n: nat, p: nat)
    requires r.Valid() && i < n <= |r.events|
    requires Adds(r.states[i], r.events[i], p, true) && SlotFree(r.states[i])
    requires Undisturbed(r, i + 1, n, p, BG)
    ensures Has(r.states[n].jobs, p, BG)
  {
    hide Has, Inv, Next, Enabled, SlotFree;
    InvAlong(r, i);
    assert Step(r.states[i], r.events[i], r.states[i + 1]);
    StatusIff(r.states[i], r.events[i], p, BG);
    StatusLasts(r, i + 1, n, p, BG);
  }

  /** A listed job that the handler reports stopped is listed ST, until it is continued or deleted. */
  lemma StoppedLasts(r: Run, i: nat, n: nat, p: nat)
    requires r.Valid() && i < n <= |r.events|
    requires Stops(r.states[i], r.events[i], p) && Listed(r.states[i].jobs, p)
    requires Undisturbed(r, i + 1, n, p, ST)
    ensures Has(r.states[n].jobs, p, ST)
  {
    hide Has, Inv, Next, Enabled, Listed;
    InvAlong(r, i);
    assert Step(r.states[i], r.events[i], r.states[i + 1]);
    StatusIff(r.states[i], r.events[i], p, ST);
    StatusLasts(r, i + 1, n, p, ST);
  }

  // ----- how long the shell waits

  /** At event i the shell starts or continues p in the foreground, with p on its list. */
  ghost predicate Foregrounds(r: Run, i: nat, p: nat)
    requires i < |r.events| < |r.states|
  {
    (Adds(r.states[i], r.events[i], p, false) && SlotFree(r.states[i])) || r.events[i] == BgFg(p, true)
  }

  /** No later event before n takes p off the list or marks it stopped. */
  ghost predicate Unreported(r: Run, i: nat, n: nat, p: nat)
    requires n <= |r.events| < |r.states|
  {
    forall k | i < k < n :: !Deletes(r.states[k], r.events[k], p) && !Stops(r.states[k], r.events[k], p)
  }

  predicate WaitsFor(s: State, p: nat) {
    s.main == Adding(p, false) || s.main == Waiting(p)
  }

  lemma WaitStep(s: State, e: Event, p: nat)
    requires Inv(s) && Enabled(s, e) && WaitsFor(s, p) && Has(s.jobs, p, FG)
    requires !Deletes(s, e, p) && !Stops(s, e, p)
    ensures WaitsFor(Next(s, e), p) && Has(Next(s, e).jobs, p, FG)
  {
    hide Has, Listed, Added, Deleted, Marked, MaxJid, FgPid, ListedAlive, Accounted, StopsMarked, Noticed, SlotFree;
    StatusIff(s, e, p, FG);
    if e.Poll? { OnlyForeground(s, p); }
  }

  lemma OnlyForeground(s: State, p: nat)
    requires Inv(s) && WaitsFor(s, p) && Has(s.jobs, p, FG)
    ensures FgPid(s.jobs, 0) == p
  {
    FgPidIs(s.jobs, 0);
  }

  /** From the moment a job is put into the foreground until the handler reports it, it is the
      foreground job of the list and the shell waits for it: waitfg goes round its loop. */
  lemma {:induction false} ShellWaits(r: Run, i: nat, n: nat, p: nat)
    requires r.Valid() && i < n <= |r.events|
    requires Foregrounds(r, i, p) && Unreported(r, i, n, p)
    ensures Has(r.states[n].jobs, p, FG) && FgPid(r.states[n].jobs, 0) == p && WaitsFor(r.states[n], p)
    ensures Enabled(r.states[n], Poll) ==> Next(r.states[n], Poll) == r.states[n]
    decreases n
  {
    hide Has, Inv, FgPid, Listed, SlotFree, Added, Marked;
    var k := n - 1;
    var s, e := r.states[k], r.events[k];
    assert Step(s, e, r.states[n]);
    InvAlong(r, k);
    InvAlong(r, n);
    if i == k {
      StatusIff(s, e, p, FG);
    } else {
      ShellWaits(r, i, k, p);
      WaitStep(s, e, p);
    }
    OnlyForeground(r.states[n], p);
  }

  // ----- why it stops waiting

  /** waitpid reports p, as ended or as stopped. */
  predicate Reports(e: Event, p: nat) {
    e == WaitEnded(p) || e == WaitStopped(p)
  }

  /** The handler changes the entry of p only after waitpid reported p. */
  lemma {:induction false} NoReport(r: Run, i: nat, n: nat, p: nat)
    requires r.Valid() && i < n <= |r.events| && r.states[i + 1].handler.Idle?
    requires forall k | i < k < n :: !Reports(r.events[k], p)
    ensures r.states[n].handler != Reaped(p) && r.states[n].handler != Stopped(p)
    ensures Unreported(r, i, n, p)
    decreases n
  {
    hide Listed, Added, Deleted, Marked, MaxJid, FgPid;
    if i + 1 < n {
      NoReport(r, i, n - 1, p);
      assert Step(r.states[n - 1], r.events[n - 1], r.states[n]);
      assert !Reports(r.events[n - 1], p);
    }
  }

  /** Where a wait began. */
  lemma {:induction false} WaitBegan(r: Run, n: nat, p: nat) returns (i: nat)
    requires r.Valid() && n <= |r.events| && WaitsFor(r.states[n], p)
    ensures i < n && (Adds(r.states[i], r.events[i], p, false) || r.events[i] == BgFg(p, true))
    ensures forall k | i < k <= n :: WaitsFor(r.states[k], p)
    ensures r.states[i + 1].handler.Idle?
  {
    hide Listed, Added, Deleted, Marked, MaxJid, FgPid, Find;
    assert n > 0;
    i := n - 1;
    var s, e := r.states[i], r.events[i];
    assert Step(s, e, r.states[n]);
    if !(Adds(s, e, p, false) || e == BgFg(p, true)) { i := WaitBegan(r, i, p); }
  }

  /** The shell comes back from waitfg only when waitpid has reported the child since the wait
      began, or the child had found the job list full. */
  lemma WaitEnds(r: Run, n: nat, p: nat) returns (i: nat)
    requires r.Valid() && n < |r.events|
    requires r.states[n].main == Waiting(p) && r.states[n + 1].main == Prompt
    ensures i < n && (Adds(r.states[i], r.events[i], p, false) || r.events[i] == BgFg(p, true))
    ensures forall k | i < k <= n :: WaitsFor(r.states[k], p)
    ensures (r.events[i].AddJob? && !SlotFree(r.states[i])) || exists k :: i < k < n && Reports(r.events[k], p)
  {
    hide Listed, Added, Deleted, Marked, MaxJid, FgPid, SlotFree;
    i := WaitBegan(r, n, p);
    assert Step(r.states[n], r.events[n], r.states[n + 1]);
    if !(r.events[i].AddJob? && !SlotFree(r.states[i])) && forall k | i < k < n :: !Reports(r.events[k], p) {
      NoReport(r, i, n, p);
      ShellWaits(r, i, n, p);
    }
  }

  // ----- and the children

  predicate Resumes(e: Event, p: nat) {
    e == ChildContinues(p) || e == BgFg(p, true) || e == BgFg(p, false)
  }

  /** A child changes only by what the kernel does to it, by fork, by the SIGCONT of bg and
      fg, and by being reaped; the handler otherwise only notes what it has seen. */
  lemma ChildIff(s: State, e: Event, p: nat)
    requires Enabled(s, e)
    ensures var c := Next(s, e).children;
            && (p in c <==> e == Fork(p) || (p in s.children && e != WaitEnded(p)))
            && (p in c && c[p].Zombie? <==>
                e == ChildEnds(p) || (p in s.children && s.children[p].Zombie? && e != WaitEnded(p)))
            && (p in c && c[p].Halted? <==>
                e == ChildStops(p) || (p in s.children && s.children[p].Halted? && !Resumes(e, p) && e != ChildEnds(p)))
  {
    hide Listed, Added, Deleted, Marked, MaxJid, FgPid, Find;
  }
}
