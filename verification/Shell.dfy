/** lab9/tsh.c as a protocol of the main thread, its children and the SIGCHLD handler. */
module Shell {
  import opened JobTable

  // The handler interrupts the main thread whenever the signal is pending and not blocked.
  // A step is one event; a run is any sequence of enabled events.

  // ----- state

  /** An unreaped child.  `Halted` is stopped by a signal, and `seen` whether waitpid
      has reported that yet. */
  datatype Child = Running | Halted(seen: bool) | Zombie

  /** Where the main thread is. */
  datatype Main =
    | Prompt
    | Blocking(bg: bool)               // eval: SIGCHLD blocked, before fork
    | Forked(pid: nat, bg: bool)       // after fork
    | Masked(pid: nat, bg: bool)       // all signals blocked
    | Adding(pid: nat, bg: bool)       // after addjob, before the mask is restored
    | Waiting(pid: nat)                // waitfg
    | Exited

  /** Where the handler is: not running, before waitpid, or between a waitpid that
      reported a child and the change of the job list it calls for. */
  datatype Handler = Idle | Polling | Reaped(pid: nat) | Stopped(pid: nat)

  datatype State = State(
    jobs: seq<Job>, nextJid: nat,
    children: map<nat, Child>,
    blocked: bool, pending: bool,      // SIGCHLD
    main: Main, handler: Handler,
    refused: set<nat>)                 // children that found the job list full

  datatype Event =
    | Eval(bg: bool) | Fork(pid: nat) | ForkFails | MaskAll | AddJob | Restore | Poll
    | BgFg(pid: nat, fg: bool) | Quit
    | ChildEnds(pid: nat) | ChildStops(pid: nat) | ChildContinues(pid: nat)
    | Deliver | WaitEnded(pid: nat) | WaitStopped(pid: nat) | WaitNone | Delete | MarkStopped

  function Start(): State {
    State(seq(MAXJOBS, i => CLEARED), 1, map[], false, false, Prompt, Idle, {})
  }

  // ----- steps

  /** The main thread runs only while no handler does. */
  predicate Enabled(s: State, e: Event) {
    match e
    case Eval(_) => s.handler.Idle? && s.main.Prompt?
    case Fork(pid) => s.handler.Idle? && s.main.Blocking? && pid != 0 && pid !in s.children
    case ForkFails => s.handler.Idle? && s.main.Blocking?
    case MaskAll => s.handler.Idle? && s.main.Forked?
    case AddJob => s.handler.Idle? && s.main.Masked?
    case Restore => s.handler.Idle? && s.main.Adding?
    case Poll => s.handler.Idle? && s.main.Waiting?
    case BgFg(pid, _) => s.handler.Idle? && s.main.Prompt? && Listed(s.jobs, pid)
    case Quit => s.handler.Idle? && s.main.Prompt?
    case ChildEnds(pid) => pid in s.children && !s.children[pid].Zombie?
    case ChildStops(pid) => pid in s.children && s.children[pid].Running?
    case ChildContinues(pid) => pid in s.children && s.children[pid].Halted?
    case Deliver => s.handler.Idle? && s.pending && !s.blocked && !s.main.Exited?
    case WaitEnded(pid) => s.handler.Polling? && pid in s.children && s.children[pid].Zombie?
    case WaitStopped(pid) => s.handler.Polling? && pid in s.children && s.children[pid] == Halted(false)
    case WaitNone => s.handler.Polling? && forall p | p in s.children :: !Reportable(s.children[p])
    case Delete => s.handler.Reaped?
    case MarkStopped => s.handler.Stopped?
  }

  /** What waitpid(-1, ..., WNOHANG | WUNTRACED) would return at once. */
  predicate Reportable(c: Child) {
    c.Zombie? || c == Halted(false)
  }

  function Next(s: State, e: Event): State
    requires Enabled(s, e)
  {
    match e
    case Eval(bg) => s.(main := Blocking(bg), blocked := true)
    case Fork(pid) => s.(main := Forked(pid, s.main.bg), children := s.children[pid := Running])
    case ForkFails => s.(main := Exited)
    case MaskAll => s.(main := Masked(s.main.pid, s.main.bg))
    case AddJob =>
      var pid, full := s.main.pid, Find(s.jobs, 0, 0) == |s.jobs|;
      s.(main := Adding(pid, s.main.bg),
         jobs := Added(s.jobs, s.nextJid, pid, if s.main.bg then BG else FG),
         nextJid := if full then s.nextJid else if s.nextJid + 1 > MAXJOBS then 1 else s.nextJid + 1,
         refused := if full then s.refused + {pid} else s.refused)
    case Restore => s.(main := if s.main.bg then Prompt else Waiting(s.main.pid), blocked := false)
    case Poll => if s.main.pid == FgPid(s.jobs, 0) then s else s.(main := Prompt)
    case BgFg(pid, fg) =>
      s.(main := if fg then Waiting(pid) else Prompt,
         jobs := Marked(s.jobs, pid, if fg then FG else BG),
         children := if pid in s.children && s.children[pid].Halted? then s.children[pid := Running] else s.children)
    case Quit => s.(main := Exited)
    case ChildEnds(pid) => s.(children := s.children[pid := Zombie], pending := true)
    case ChildStops(pid) => s.(children := s.children[pid := Halted(false)], pending := true)
    case ChildContinues(pid) => s.(children := s.children[pid := Running], pending := true)
    case Deliver => s.(handler := Polling, pending := false)
    case WaitEnded(pid) => s.(handler := Reaped(pid), children := s.children - {pid}, refused := s.refused - {pid})
    case WaitStopped(pid) => s.(handler := Stopped(pid), children := s.children[pid := Halted(true)])
    case WaitNone => s.(handler := Idle)
    case Delete =>
      var t := Deleted(s.jobs, s.handler.pid);
      s.(handler := Polling, jobs := t,
         nextJid := if Listed(s.jobs, s.handler.pid) then MaxJid(t) + 1 else s.nextJid)
    case MarkStopped => s.(handler := Polling, jobs := Marked(s.jobs, s.handler.pid, ST))
  }

  // ----- the invariant

  /** The child eval has forked and not yet tried to list. */
  ghost predicate Launching(s: State, pid: nat) {
    (s.main.Forked? || s.main.Masked?) && s.main.pid == pid
  }

  /** A listed job is an unreaped child, except while the handler that has just reaped
      it is about to delete it; a child being launched is not listed yet. */
  ghost predicate ListedAlive(s: State) {
    forall p: nat | Listed(s.jobs, p) ::
      (p in s.children || s.handler == Reaped(p)) && !Launching(s, p)
  }

  /** An unreaped child is listed, or being launched, or was refused a slot. */
  ghost predicate Accounted(s: State) {
    forall p | p in s.children :: Listed(s.jobs, p) || Launching(s, p) || p in s.refused
  }

  /** SIGCHLD is blocked exactly from before fork until after addjob, and no handler
      runs meanwhile. */
  ghost predicate Guarded(s: State) {
    && (!s.main.Exited? ==> (s.blocked <==> s.main.Blocking? || s.main.Forked? || s.main.Masked? || s.main.Adding?))
    && (!s.handler.Idle? ==> s.main.Prompt? || s.main.Waiting?)
    && 0 !in s.children && ((s.main.Waiting? || s.main.Adding?) ==> s.main.pid != 0)
    && (s.handler.Reaped? ==> s.handler.pid !in s.children && s.handler.pid != 0)
    && ((s.main.Forked? || s.main.Masked?) ==>
          && s.main.pid != 0 && s.main.pid in s.children && s.children[s.main.pid] != Halted(true))
  }

  /** Only the job the shell is waiting for, or about to, is in the foreground. */
  ghost predicate OneForeground(s: State) {
    forall p: nat | Has(s.jobs, p, FG) :: s.main == Adding(p, false) || s.main == Waiting(p)
  }

  /** A foreground job whose stop has been reported is about to be marked. */
  ghost predicate StopsMarked(s: State) {
    forall p: nat | Has(s.jobs, p, FG) && p in s.children && s.children[p] == Halted(true) ::
      s.handler == Stopped(p)
  }

  /** No report is lost: while there is one, the signal is pending or a handler polls. */
  ghost predicate Noticed(s: State) {
    (exists p :: p in s.children && Reportable(s.children[p])) ==> s.pending || !s.handler.Idle?
  }

  ghost predicate Inv(s: State) {
    && |s.jobs| == MAXJOBS && Sound(s.jobs)
    && ListedAlive(s) && Accounted(s) && Guarded(s) && OneForeground(s) && StopsMarked(s) && Noticed(s)
  }

  lemma StartInv()
    ensures Inv(Start())
  {
    forall p: nat ensures !Listed(Start().jobs, p) { ListedIff(Start().jobs, p); }
  }

  // ----- every step keeps the invariant

  // The steps of the main thread that leave the job list alone ...

  lemma MainStep(s: State, e: Event)
    requires Inv(s) && Enabled(s, e)
    requires e.Eval? || e.Fork? || e.ForkFails? || e.MaskAll? || e.Restore? || e.Quit?
    ensures Inv(Next(s, e))
  {
    hide Listed, Has, Sound, Added, Deleted, Marked, MaxJid, FgPid;
  }

  /** waitfg leaves its loop only when nothing is in the foreground. */
  lemma PollStep(s: State)
    requires Inv(s) && Enabled(s, Poll)
    ensures Inv(Next(s, Poll))
  {
    forall p: nat | Has(s.jobs, p, FG) ensures FgPid(s.jobs, 0) == s.main.pid {
      FgPidIs(s.jobs, 0);
    }
  }

  // ... the steps of the children ...

  lemma ChildStep(s: State, e: Event)
    requires Inv(s) && Enabled(s, e) && (e.ChildEnds? || e.ChildStops? || e.ChildContinues?)
    ensures Inv(Next(s, e))
  {
    hide Listed, Has, Sound, Added, Deleted, Marked, MaxJid, FgPid;
  }

  // ... and those of the handler.

  lemma HandlerStep(s: State, e: Event)
    requires Inv(s) && Enabled(s, e) && (e.Deliver? || e.WaitEnded? || e.WaitStopped? || e.WaitNone?)
    ensures Inv(Next(s, e))
  {
    hide Listed, Has, Sound, Added, Deleted, Marked, MaxJid, FgPid;
  }

  lemma AddJobStep(s: State)
    requires Inv(s) && Enabled(s, AddJob)
    ensures Inv(Next(s, AddJob))
  {
    hide Listed, Has, Sound, Added, Deleted, Marked, MaxJid, FgPid;
    var n, pid := Next(s, AddJob), s.main.pid;
    var q := if s.main.bg then BG else FG;
    AddedFacts(s.jobs, s.nextJid, pid, q);
    forall p: nat ensures Listed(n.jobs, p) <==> Listed(s.jobs, p) || (Find(s.jobs, 0, 0) < |s.jobs| && p == pid) {
      ListedHas(s.jobs, p);
      ListedHas(n.jobs, p);
    }
  }

  lemma BgFgStep(s: State, pid: nat, fg: bool)
    requires Inv(s) && Enabled(s, BgFg(pid, fg))
    ensures Inv(Next(s, BgFg(pid, fg)))
  {
    hide Listed, Has, Sound, Added, Deleted, Marked, MaxJid, FgPid;
    var n, q := Next(s, BgFg(pid, fg)), if fg then FG else BG;
    MarkedFacts(s.jobs, pid, q);
    forall p: nat ensures Listed(n.jobs, p) <==> Listed(s.jobs, p) {
      ListedHas(s.jobs, p);
      ListedHas(n.jobs, p);
    }
  }

  lemma DeleteStep(s: State)
    requires Inv(s) && Enabled(s, Delete)
    ensures Inv(Next(s, Delete))
  {
    var n, pid := Next(s, Delete), s.handler.pid;
    DeletedFacts(s.jobs, pid);
    forall p: nat ensures Listed(n.jobs, p) <==> Listed(s.jobs, p) && p != pid {
      ListedHas(s.jobs, p);
      ListedHas(n.jobs, p);
    }
  }

  lemma MarkStoppedStep(s: State)
    requires Inv(s) && Enabled(s, MarkStopped)
    ensures Inv(Next(s, MarkStopped))
  {
    hide Listed, Has, Sound, Added, Deleted, Marked, MaxJid, FgPid;
    var n, pid := Next(s, MarkStopped), s.handler.pid;
    MarkedFacts(s.jobs, pid, ST);
    forall p: nat ensures Listed(n.jobs, p) <==> Listed(s.jobs, p) {
      ListedHas(s.jobs, p);
      ListedHas(n.jobs, p);
    }
  }

  lemma StepInv(s: State, e: Event)
    requires Inv(s) && Enabled(s, e)
    ensures Inv(Next(s, e))
  {
    match e
    case AddJob => AddJobStep(s);
    case BgFg(pid, fg) => BgFgStep(s, pid, fg);
    case Delete => DeleteStep(s);
    case MarkStopped => MarkStoppedStep(s);
    case Poll => PollStep(s);
    case ChildEnds(_) => ChildStep(s, e);
    case ChildStops(_) => ChildStep(s, e);
    case ChildContinues(_) => ChildStep(s, e);
    case Deliver => HandlerStep(s, e);
    case WaitEnded(_) => HandlerStep(s, e);
    case WaitStopped(_) => HandlerStep(s, e);
    case WaitNone => HandlerStep(s, e);
    case _ => MainStep(s, e);
  }

  // ----- runs

  predicate Step(r: State, e: Event, s: State) {
    Enabled(r, e) && s == Next(r, e)
  }

  /** `s` is reached by the events, from the start. */
  ghost predicate Reaches(events: seq<Event>, s: State)
    decreases |events|, 0
  {
    if events == [] then s == Start()
    else ReachesBy(events[..|events| - 1], events[|events| - 1], s)
  }

  ghost predicate ReachesBy(before: seq<Event>, e: Event, s: State)
    decreases |before|, 1
  {
    exists r: State :: Reaches(before, r) && Step(r, e, s)
  }

  /** The invariant holds after every run, that is, under every interleaving. */
  lemma {:induction false} RunInv(events: seq<Event>, s: State)
    requires Reaches(events, s)
    ensures Inv(s)
  {
    if events == [] {
      StartInv();
    } else {
      var before, e := events[..|events| - 1], events[|events| - 1];
      var r: State :| Reaches(before, r) && Step(r, e, s);
      RunInv(before, r);
      StepInv(r, e);
    }
  }

  /** Whatever the interleaving: a listed job is an unreaped child, but for one the
      running handler is deleting at this moment; at most one job is in the
      foreground, and none while the shell is at its prompt; and from before fork until
      after addjob SIGCHLD is blocked and no handler runs. */
  lemma JobListSafe(events: seq<Event>, s: State)
    requires Reaches(events, s)
    ensures forall p: nat | Listed(s.jobs, p) :: p in s.children || s.handler == Reaped(p)
    ensures forall i, j | 0 <= i < j < |s.jobs| :: !(s.jobs[i].status == FG && s.jobs[j].status == FG)
    ensures s.main.Prompt? ==> forall i | 0 <= i < |s.jobs| :: s.jobs[i].status != FG
    ensures s.main.Blocking? || s.main.Forked? || s.main.Masked? || s.main.Adding? ==>
              s.blocked && s.handler.Idle?
  {
    RunInv(events, s);
    forall i | 0 <= i < |s.jobs| && s.jobs[i].status == FG ensures Has(s.jobs, s.jobs[i].pid, FG) {
    }
  }

  /** At rest (no signal pending, no handler) no child is left unreaped or unreported,
      the list is exactly the children that got a slot, and a job still in the
      foreground is running: so waitfg does not wait for one that ended or stopped. */
  lemma AtRest(events: seq<Event>, s: State)
    requires Reaches(events, s) && s.handler.Idle? && !s.pending
    ensures forall p | p in s.children :: !s.children[p].Zombie?
    ensures forall p: nat | Listed(s.jobs, p) :: p in s.children
    ensures forall p | p in s.children :: Listed(s.jobs, p) || Launching(s, p) || p in s.refused
    ensures forall p: nat | Has(s.jobs, p, FG) :: p in s.children && s.children[p] == Running
    ensures s.main.Waiting? && (s.main.pid !in s.children || s.children[s.main.pid] != Running) ==>
              FgPid(s.jobs, 0) != s.main.pid
  {
    RunInv(events, s);
    forall p: nat | Has(s.jobs, p, FG) ensures p in s.children && s.children[p] == Running {
      ListedHas(s.jobs, p);
      assert !Reportable(s.children[p]);
    }
    FgPidIs(s.jobs, 0);
  }
}
