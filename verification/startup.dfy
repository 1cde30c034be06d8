/** The start-up handshake: what each process does to its copy of the worker manager and to its
    descriptors, and the parent and the workers as one step system over eventfds. */
module Startup {
  import opened Wire

  datatype Kind = Parent | Child
  datatype Code = Ok | InvalidParam | ForkError | EventfdError

  /** One process's view of the eventfds: which descriptor is which worker's eventfd, the ones
      this process has closed, and how often it closed a descriptor that was not open. */
  datatype Table = Table(open: map<int, nat>, closed: seq<nat>, bad: nat)

  /** A process: its manager (`eventfds[j]` is 0 when never set and -1 when marked closed; the
      whole array is gone after clean-up), its descriptors, and the CPU it is pinned to. */
  datatype Proc = Proc(kind: Kind, current: int, eventfds: seq<int>, table: Table, pinned: Option<int>)

  datatype Setup = Setup(cpuIds: seq<int>, affinity: bool)

  function CloseFd(t: Table, fd: int): Table {
    if fd in t.open then Table(t.open - {fd}, t.closed + [t.open[fd]], t.bad) else t.(bad := t.bad + 1)
  }

  function Close(p: Proc, fd: int): Proc {
    p.(table := CloseFd(p.table, fd))
  }

  /** A process whose manager has just been initialised. */
  function Fresh(n: nat): Proc {
    Proc(Parent, -1, seq(n, _ => 0), Table(map[], [], 0), None)
  }

  // ----- worker_manager_fork_workers, branch by branch -----

  /** `eventfd` returns a descriptor that is not in use. */
  function Create(p: Proc, i: nat, efd: int): Proc {
    p.(table := p.table.(open := p.table.open[efd := i]))
  }

  /** The child's copy; what its parent closed before is not its own doing. */
  function ForkedFrom(p: Proc): Proc {
    p.(table := Table(p.table.open, [], 0))
  }

  function ParentStores(p: Proc, i: nat, efd: int): Proc
    requires i < |p.eventfds|
  {
    p.(eventfds := p.eventfds[i := efd])
  }

  /** After `eventfd_read`: a failed read leaves the entry as it is. */
  function ParentReads(p: Proc, i: nat, efd: int, readOk: bool): Proc
    requires i < |p.eventfds|
  {
    var q := Close(p, efd);
    if readOk then q.(eventfds := q.eventfds[i := -1]) else q
  }

  /** Closes the entries j..i that still hold a descriptor. */
  function CloseEarlier(p: Proc, j: nat, i: nat): (q: Proc)
    requires j <= i <= |p.eventfds|
    ensures |q.eventfds| == |p.eventfds|
    decreases i - j
  {
    if j == i then p
    else if p.eventfds[j] > 0 then CloseEarlier(Close(p, p.eventfds[j]).(eventfds := p.eventfds[j := -1]), j + 1, i)
    else CloseEarlier(p, j + 1, i)
  }

  function ChildSetUp(u: Setup, p: Proc, i: nat, efd: int, pinOk: bool): (r: (Proc, Code))
    requires i < |p.eventfds| == |u.cpuIds|
    ensures |r.0.eventfds| == |p.eventfds|
  {
    var q := p.(kind := Child, current := i);
    if u.affinity && !pinOk then (Close(q, efd), InvalidParam)
    else
      var pinned := if u.affinity then Some(u.cpuIds[i]) else q.pinned;
      (CloseEarlier(q.(pinned := pinned, eventfds := q.eventfds[i := efd]), 0, i), Ok)
  }

  // ----- worker_manager_signal_ready and worker_manager_cleanup -----

  /** The new state, the code, and whether the eventfd was written. */
  function SignalReady(p: Proc, writeOk: bool): (r: (Proc, Code, bool)) {
    if p.kind != Child || !(0 <= p.current < |p.eventfds|) || p.eventfds[p.current] <= 0 then (p, InvalidParam, false)
    else if !writeOk then (p, EventfdError, false)
    else (Close(p, p.eventfds[p.current]).(eventfds := p.eventfds[p.current := -1]), Ok, true)
  }

  /** Closes whatever is still held from entry j on. */
  function CloseHeld(p: Proc, j: nat): Proc
    requires j <= |p.eventfds|
    decreases |p.eventfds| - j
  {
    if j == |p.eventfds| then p
    else CloseHeld(if p.eventfds[j] > 0 then Close(p, p.eventfds[j]) else p, j + 1)
  }

  function Cleanup(p: Proc): Proc {
    CloseHeld(p, 0).(kind := Parent, current := 0, eventfds := [])
  }

  // ----- the step system -----

  /** What a worker is about to do: set itself up, open its listener, signal, loop, clean up. */
  datatype Stage = Forked | Started | Listening | Running | GaveUp | CleanedUp

  /** `counter` is the value of the worker's eventfd, `signals` how often it was written. */
  datatype Worker = Worker(stage: Stage, proc: Proc, efd: int, listened: bool, signals: nat, counter: nat)

  datatype Why = AllReady | NoEventfd | NoFork | ReadFailed(efd: int)

  /** Where the parent is in its loop; `Gone` is after clean-up. */
  datatype At = Top(i: nat) | Created(i: nat, efd: int) | Waiting(i: nat, efd: int) | Returned(why: Why)
      | Gone(why: Why)

  datatype System = System(parent: Proc, at: At, workers: seq<Worker>)

  function CodeOf(why: Why): Code {
    match why
    case AllReady => Ok
    case NoFork => ForkError
    case _ => EventfdError
  }

  datatype Step =
    | ParentCreates(efd: Option<int>)
    | ParentForks(ok: bool)
    | ParentHears(ok: bool)
    | ParentReturns
    | ParentCleansUp
    | WorkerSetsUp(j: nat, pinOk: bool)
    | WorkerListens(j: nat, ok: bool)
    | WorkerSignals(j: nat, writeOk: bool)
    | WorkerCleansUp(j: nat)

  ghost predicate Init(u: Setup, s: System) {
    s == System(Fresh(|u.cpuIds|), Top(0), [])
  }

  ghost predicate Enabled(u: Setup, s: System, e: Step) {
    match e
    case ParentCreates(efd) =>
        s.at.Top? && s.at.i < |u.cpuIds| && (efd.Some? ==> efd.value >= 0 && efd.value !in s.parent.table.open)
    case ParentForks(_) => s.at.Created? && s.at.i < |s.parent.eventfds|
    // a read that succeeds needs a signal to take
    case ParentHears(ok) => s.at.Waiting? && s.at.i < |s.parent.eventfds| && s.at.i < |s.workers|
        && (ok ==> s.workers[s.at.i].counter > 0)
    case ParentReturns => s.at.Top? && s.at.i == |u.cpuIds|
    case ParentCleansUp => s.at.Returned?
    case WorkerSetsUp(j, _) =>
        j < |s.workers| && s.workers[j].stage == Forked && j < |u.cpuIds| == |s.workers[j].proc.eventfds|
    case WorkerListens(j, _) => j < |s.workers| && s.workers[j].stage == Started
    case WorkerSignals(j, _) => j < |s.workers| && s.workers[j].stage == Listening
    case WorkerCleansUp(j) => j < |s.workers| && s.workers[j].stage in {Running, GaveUp}
  }

  function SetUpWorker(u: Setup, w: Worker, j: nat, pinOk: bool): Worker
    requires j < |w.proc.eventfds| == |u.cpuIds|
  {
    var (p, code) := ChildSetUp(u, w.proc, j, w.efd, pinOk);
    w.(proc := p, stage := if code == Ok then Started else GaveUp)
  }

  /** The listener fails or opens; without one the worker leaves before signalling. */
  function ListenWorker(w: Worker, ok: bool): Worker {
    w.(listened := ok, stage := if ok then Listening else GaveUp)
  }

  /** The worker enters its event loop whatever the signal returned. */
  function SignalWorker(w: Worker, writeOk: bool): Worker {
    var (p, _, wrote) := SignalReady(w.proc, writeOk);
    var more := if wrote then 1 else 0;
    w.(proc := p, stage := Running, signals := w.signals + more, counter := w.counter + more)
  }

  function CleanWorker(w: Worker): Worker {
    w.(proc := Cleanup(w.proc), stage := CleanedUp)
  }

  /** EFD_SEMAPHORE: a read takes one. */
  function Heard(w: Worker): Worker {
    w.(counter := if w.counter == 0 then 0 else w.counter - 1)
  }

  function ForkStep(s: System, ok: bool): System
    requires s.at.Created? && s.at.i < |s.parent.eventfds|
  {
    var at := s.at;
    if !ok then s.(parent := Close(s.parent, at.efd), at := Returned(NoFork))
    else System(ParentStores(s.parent, at.i, at.efd), Waiting(at.i, at.efd),
                s.workers + [Worker(Forked, ForkedFrom(s.parent), at.efd, false, 0, 0)])
  }

  function HearStep(s: System, ok: bool): System
    requires s.at.Waiting? && s.at.i < |s.parent.eventfds| && s.at.i < |s.workers|
  {
    var at := s.at;
    System(ParentReads(s.parent, at.i, at.efd, ok),
           if ok then Top(at.i + 1) else Returned(ReadFailed(at.efd)),
           if ok then s.workers[at.i := Heard(s.workers[at.i])] else s.workers)
  }

  ghost function Apply(u: Setup, s: System, e: Step): System
    requires Enabled(u, s, e)
  {
    match e
    case ParentCreates(efd) =>
      if efd.None? then s.(at := Returned(NoEventfd))
      else s.(parent := Create(s.parent, s.at.i, efd.value), at := Created(s.at.i, efd.value))
    case ParentForks(ok) => ForkStep(s, ok)
    case ParentHears(ok) => HearStep(s, ok)
    case ParentReturns => s.(at := Returned(AllReady))
    case ParentCleansUp => s.(parent := Cleanup(s.parent), at := Gone(s.at.why))
    case WorkerSetsUp(j, pinOk) => s.(workers := s.workers[j := SetUpWorker(u, s.workers[j], j, pinOk)])
    case WorkerListens(j, ok) => s.(workers := s.workers[j := ListenWorker(s.workers[j], ok)])
    case WorkerSignals(j, writeOk) => s.(workers := s.workers[j := SignalWorker(s.workers[j], writeOk)])
    case WorkerCleansUp(j) => s.(workers := s.workers[j := CleanWorker(s.workers[j])])
  }

  // ----- what is true in every reachable state -----

  ghost predicate Held(t: Table, j: nat, efd: int) {
    t.open == map[efd := j] && t.closed == []
  }

  ghost predicate Shut(t: Table, j: nat) {
    t.open == map[] && t.closed == [j]
  }

  /** Entry j is `v`; no other entry holds a descriptor. */
  ghost predicate OnlyEntry(eventfds: seq<int>, j: nat, v: int, n: nat) {
    |eventfds| == n && j < n && eventfds[j] == v && forall k :: 0 <= k < n && k != j ==> eventfds[k] <= 0
  }

  /** A worker has its eventfd open or has closed it, once; it has signalled only if it listens
      and then has closed it; its entry never holds a closed descriptor. */
  ghost predicate WorkerInv(u: Setup, j: nat, w: Worker) {
    && j < |u.cpuIds|
    && w.efd >= 0 && w.proc.table.bad == 0
    && (Held(w.proc.table, j, w.efd) || Shut(w.proc.table, j))
    && w.counter <= w.signals <= 1
    && (w.signals == 1 ==>
          && w.efd > 0 && w.listened && Shut(w.proc.table, j)
          && (u.affinity ==> w.proc.pinned == Some(u.cpuIds[j])))
    && match w.stage
       case Forked =>
         Held(w.proc.table, j, w.efd) && OnlyEntry(w.proc.eventfds, j, 0, |u.cpuIds|) && w.signals == 0
       case Started => Ready(u, j, w)
       case Listening => Ready(u, j, w) && w.listened
       case Running =>
         if w.signals == 0 then Ready(u, j, w)
         else OnlyEntry(w.proc.eventfds, j, -1, |u.cpuIds|)
       case GaveUp =>
         w.signals == 0 && (Ready(u, j, w) || (Shut(w.proc.table, j) && OnlyEntry(w.proc.eventfds, j, 0, |u.cpuIds|)))
       case CleanedUp => w.proc.eventfds == [] && (Shut(w.proc.table, j) || w.efd == 0)
  }

  ghost predicate Ready(u: Setup, j: nat, w: Worker) {
    && w.signals == 0
    && Held(w.proc.table, j, w.efd) && OnlyEntry(w.proc.eventfds, j, w.efd, |u.cpuIds|)
    && w.proc.kind == Child && w.proc.current == j
    && (u.affinity ==> w.proc.pinned == Some(u.cpuIds[j]))
  }

  /** The parent has closed eventfds 0..i, each once and in order, and marked all of them;
      `open` is what it still has open. */
  ghost predicate ParentClosed(p: Proc, i: nat, open: map<int, nat>, bad: nat) {
    && p.table.open == open && p.table.bad == bad && |p.table.closed| == i
    && forall k :: 0 <= k < i ==> p.table.closed[k] == k
  }

  ghost predicate Marked(eventfds: seq<int>, i: nat, n: nat) {
    && |eventfds| == n && i <= n
    && (forall k :: 0 <= k < i ==> eventfds[k] == -1)
    && (forall k :: i <= k < n ==> eventfds[k] == 0)
  }

  ghost predicate ParentInv(u: Setup, s: System) {
    var n, p, f := |u.cpuIds|, s.parent, |s.workers|;
    match s.at
    case Top(i) => i == f <= n && Marked(p.eventfds, i, n) && ParentClosed(p, i, map[], 0)
    case Created(i, efd) => i == f < n && efd >= 0 && Marked(p.eventfds, i, n) && ParentClosed(p, i, map[efd := i], 0)
    case Waiting(i, efd) =>
      i + 1 == f <= n && efd >= 0 && OnlyEntry(p.eventfds, i, efd, n) && Marked(p.eventfds[i := 0], i, n)
          && ParentClosed(p, i, map[efd := i], 0)
    case Returned(AllReady) => f == n && Marked(p.eventfds, n, n) && ParentClosed(p, n, map[], 0)
    case Returned(NoEventfd) => f < n && Marked(p.eventfds, f, n) && ParentClosed(p, f, map[], 0)
    case Returned(NoFork) => f < n && Marked(p.eventfds, f, n) && ParentClosed(p, f + 1, map[], 0)
    case Returned(ReadFailed(efd)) =>
        1 <= f <= n && efd >= 0 && OnlyEntry(p.eventfds, f - 1, efd, n) && ParentClosed(p, f, map[], 0)
    case Gone(AllReady) => f == n && p.eventfds == [] && ParentClosed(p, n, map[], 0)
    case Gone(NoEventfd) => p.eventfds == [] && ParentClosed(p, f, map[], 0)
    case Gone(NoFork) => p.eventfds == [] && ParentClosed(p, f + 1, map[], 0)
    case Gone(ReadFailed(efd)) => efd >= 0 && p.eventfds == [] && ParentClosed(p, f, map[], if efd > 0 then 1 else 0)
  }

  /** How many workers the parent has heard from; the next one, if forked, is still awaited. */
  ghost function HeardFrom(s: System): int {
    match s.at
    case Waiting(i, _) => i
    case Returned(ReadFailed(_)) => |s.workers| - 1
    case Gone(ReadFailed(_)) => |s.workers| - 1
    case _ => |s.workers|
  }

  /** The descriptor the parent reads, or read in vain, is the last worker's. */
  ghost predicate Awaits(at: At, workers: seq<Worker>) {
    var efd := match at
      case Waiting(_, efd) => Some(efd)
      case Returned(ReadFailed(efd)) => Some(efd)
      case Gone(ReadFailed(efd)) => Some(efd)
      case _ => None;
    efd.Some? ==> workers != [] && workers[|workers| - 1].efd == efd.value
  }

  ghost predicate WorkersInv(u: Setup, s: System) {
    && Awaits(s.at, s.workers)
    && (forall j: nat :: j < |s.workers| ==> WorkerInv(u, j, s.workers[j]))
    && (forall j: nat :: j < HeardFrom(s) && j < |s.workers| ==> s.workers[j].signals == 1 && s.workers[j].counter == 0)
    && (forall j: nat :: HeardFrom(s) <= j < |s.workers| ==> s.workers[j].counter == s.workers[j].signals)
  }

  ghost predicate Inv(u: Setup, s: System) {
    ParentInv(u, s) && WorkersInv(u, s)
  }

  // ----- the worker's functions on a worker that keeps the invariant -----

  lemma {:induction false} NothingEarlier(p: Proc, j: nat, i: nat)
    requires j <= i <= |p.eventfds| && forall k :: j <= k < i ==> p.eventfds[k] <= 0
    ensures CloseEarlier(p, j, i) == p
    decreases i - j
  {
    if j < i {
      NothingEarlier(p, j + 1, i);
    }
  }

  lemma {:induction false} NothingHeld(p: Proc, j: nat)
    requires j <= |p.eventfds| && forall k :: j <= k < |p.eventfds| ==> p.eventfds[k] <= 0
    ensures CloseHeld(p, j) == p
    decreases |p.eventfds| - j
  {
    if j < |p.eventfds| {
      NothingHeld(p, j + 1);
    }
  }

  /** Clean-up closes the one descriptor that is still stored, if there is one. */
  lemma {:induction false} OneHeld(p: Proc, j: nat, i: nat)
    requires j <= i < |p.eventfds| && forall k :: j <= k < |p.eventfds| && k != i ==> p.eventfds[k] <= 0
    ensures CloseHeld(p, j) == if p.eventfds[i] > 0 then Close(p, p.eventfds[i]) else p
    decreases |p.eventfds| - j
  {
    if j < i {
      OneHeld(p, j + 1, i);
    } else {
      NothingHeld(if p.eventfds[j] > 0 then Close(p, p.eventfds[j]) else p, j + 1);
    }
  }

  lemma ClosingHeld(t: Table, j: nat, efd: int)
    requires Held(t, j, efd)
    ensures Shut(CloseFd(t, efd), j) && CloseFd(t, efd).bad == t.bad
  {
  }

  lemma SetUpKeeps(u: Setup, j: nat, w: Worker, pinOk: bool)
    requires WorkerInv(u, j, w) && w.stage == Forked
    ensures WorkerInv(u, j, SetUpWorker(u, w, j, pinOk))
  {
    ClosingHeld(w.proc.table, j, w.efd);
    var q := w.proc.(kind := Child, current := j);
    var pinned := if u.affinity then Some(u.cpuIds[j]) else q.pinned;
    NothingEarlier(q.(pinned := pinned, eventfds := q.eventfds[j := w.efd]), 0, j);
  }

  lemma ListenKeeps(u: Setup, j: nat, w: Worker, ok: bool)
    requires WorkerInv(u, j, w) && w.stage == Started
    ensures WorkerInv(u, j, ListenWorker(w, ok))
  {
  }

  lemma SignalKeeps(u: Setup, j: nat, w: Worker, writeOk: bool)
    requires WorkerInv(u, j, w) && w.stage == Listening
    ensures WorkerInv(u, j, SignalWorker(w, writeOk))
  {
    ClosingHeld(w.proc.table, j, w.efd);
  }

  lemma CleanKeeps(u: Setup, j: nat, w: Worker)
    requires WorkerInv(u, j, w) && w.stage in {Running, GaveUp}
    ensures WorkerInv(u, j, CleanWorker(w))
  {
    OneHeld(w.proc, 0, j);
    if Held(w.proc.table, j, w.efd) {
      ClosingHeld(w.proc.table, j, w.efd);
    }
  }

  lemma WorkerStepKeeps(u: Setup, s: System, j: nat, w: Worker)
    requires Inv(u, s) && j < |s.workers| && WorkerInv(u, j, w)
    requires w.efd == s.workers[j].efd && w.signals - s.workers[j].signals == w.counter - s.workers[j].counter >= 0
    ensures Inv(u, s.(workers := s.workers[j := w]))
  {
  }

  // ----- the parent's steps -----

  lemma ForkKeeps(u: Setup, s: System, ok: bool)
    requires Inv(u, s) && s.at.Created?
    ensures Inv(u, ForkStep(s, ok))
  {
    var r, i, efd := ForkStep(s, ok), s.at.i, s.at.efd;
    if ok {
      assert OnlyEntry(s.parent.eventfds, i, 0, |u.cpuIds|);
      assert Held(ForkedFrom(s.parent).table, i, efd);
      assert WorkerInv(u, i, r.workers[i]);
      assert s.parent.eventfds[i := efd][i := 0] == s.parent.eventfds;
    }
  }

  lemma HearKeeps(u: Setup, s: System, ok: bool)
    requires Inv(u, s) && s.at.Waiting? && (ok ==> s.workers[s.at.i].counter > 0)
    ensures Inv(u, HearStep(s, ok))
  {
    var i, p := s.at.i, s.parent.eventfds;
    assert forall k :: 0 <= k < |p| && k != i ==> p[k] == p[i := 0][k];
    assert WorkerInv(u, i, s.workers[i]);
    assert WorkerInv(u, i, Heard(s.workers[i]));
  }

  lemma ParentCleanupKeeps(u: Setup, s: System)
    requires Inv(u, s) && s.at.Returned?
    ensures Inv(u, s.(parent := Cleanup(s.parent), at := Gone(s.at.why)))
  {
    if s.at.why.ReadFailed? {
      OneHeld(s.parent, 0, |s.workers| - 1);
    } else {
      NothingHeld(s.parent, 0);
    }
  }

  lemma StepInv(u: Setup, s: System, e: Step)
    requires Inv(u, s) && Enabled(u, s, e)
    ensures Inv(u, Apply(u, s, e))
  {
    match e
    case ParentCreates(_) =>
    case ParentForks(ok) => ForkKeeps(u, s, ok);
    case ParentHears(ok) => HearKeeps(u, s, ok);
    case ParentReturns =>
    case ParentCleansUp => ParentCleanupKeeps(u, s);
    case WorkerSetsUp(j, pinOk) =>
      SetUpKeeps(u, j, s.workers[j], pinOk);
      WorkerStepKeeps(u, s, j, SetUpWorker(u, s.workers[j], j, pinOk));
    case WorkerListens(j, ok) =>
      ListenKeeps(u, j, s.workers[j], ok);
      WorkerStepKeeps(u, s, j, ListenWorker(s.workers[j], ok));
    case WorkerSignals(j, writeOk) =>
      SignalKeeps(u, j, s.workers[j], writeOk);
      WorkerStepKeeps(u, s, j, SignalWorker(s.workers[j], writeOk));
    case WorkerCleansUp(j) =>
      CleanKeeps(u, j, s.workers[j]);
      WorkerStepKeeps(u, s, j, CleanWorker(s.workers[j]));
  }

  ghost predicate IsRun(u: Setup, run: seq<System>, steps: seq<Step>) {
    && |run| == |steps| + 1 && Init(u, run[0])
    && forall i :: 0 <= i < |steps| ==> Enabled(u, run[i], steps[i]) && run[i + 1] == Apply(u, run[i], steps[i])
  }

  lemma {:induction false} RunInv(u: Setup, run: seq<System>, steps: seq<Step>, n: nat)
    requires IsRun(u, run, steps) && n < |run|
    ensures Inv(u, run[n])
  {
    if n > 0 {
      RunInv(u, run, steps, n - 1);
      StepInv(u, run[n - 1], steps[n - 1]);
    }
  }

  // ----- the promises, for every interleaving -----

  /** At most one worker is forked but not ready, and it is the last one forked. */
  lemma OneWorkerAtATime(u: Setup, run: seq<System>, steps: seq<Step>, n: nat, j: nat)
    requires IsRun(u, run, steps) && n < |run| && j < |run[n].workers| && run[n].workers[j].signals == 0
    ensures j == |run[n].workers| - 1
  {
    RunInv(u, run, steps, n);
  }

  /** A worker is forked only when every earlier one has listened and signalled. */
  lemma ForkedInOrder(u: Setup, run: seq<System>, steps: seq<Step>, n: nat, j: nat)
    requires IsRun(u, run, steps) && n < |steps| && j < |run[n].workers|
    requires |run[n + 1].workers| > |run[n].workers|
    ensures run[n].workers[j].listened && run[n].workers[j].signals == 1
  {
    RunInv(u, run, steps, n);
    assert WorkerInv(u, j, run[n].workers[j]);
  }

  /** The parent gets OK only when all N workers have opened their listener and signalled exactly
      once, each on its own CPU if affinity is on. */
  lemma OkMeansAllReady(u: Setup, run: seq<System>, steps: seq<Step>, n: nat)
    requires IsRun(u, run, steps) && n < |run|
    requires run[n].at.Returned? && CodeOf(run[n].at.why) == Ok
    ensures |run[n].workers| == |u.cpuIds|
    ensures forall w <- run[n].workers :: w.listened && w.signals == 1
    ensures u.affinity ==> forall j: nat :: j < |u.cpuIds| ==> run[n].workers[j].proc.pinned == Some(u.cpuIds[j])
  {
    RunInv(u, run, steps, n);
    forall j: nat | j < |u.cpuIds|
      ensures run[n].workers[j].listened && run[n].workers[j].signals == 1
      ensures u.affinity ==> run[n].workers[j].proc.pinned == Some(u.cpuIds[j])
    {
      assert WorkerInv(u, j, run[n].workers[j]);
    }
  }

  /** The manager takes descriptor 0 for "not set": a worker whose eventfd is descriptor 0 never
      signals, and the parent never gets past it. */
  lemma DescriptorZeroBlocks(u: Setup, run: seq<System>, steps: seq<Step>, n: nat, j: nat)
    requires IsRun(u, run, steps) && n < |run| && j < |run[n].workers| && run[n].workers[j].efd == 0
    ensures run[n].workers[j].signals == 0 && j == |run[n].workers| - 1
    ensures run[n].at == Waiting(j, 0) || run[n].at in {Returned(ReadFailed(0)), Gone(ReadFailed(0))}
  {
    RunInv(u, run, steps, n);
    assert WorkerInv(u, j, run[n].workers[j]);
  }

  /** The code says whether the eventfd was written: OK exactly then, and the descriptor is closed
      and marked so that a second signal is refused; a refused or failed signal changes nothing,
      and a parent's is always refused. */
  lemma SignalTwice(p: Proc, writeOk: bool, again: bool)
    ensures var (q, code, wrote) := SignalReady(p, writeOk);
            && (code == Ok <==> wrote) && code in {Ok, InvalidParam, EventfdError}
            && (code == EventfdError ==> !writeOk) && (p.kind == Parent ==> code == InvalidParam)
            && (wrote ==> 0 <= p.current < |p.eventfds| && q == Close(p, p.eventfds[p.current])
                  .(eventfds := p.eventfds[p.current := -1]) && SignalReady(q, again) == (q, InvalidParam, false))
            && (!wrote ==> q == p)
  {
  }

  /** A listening worker whose write succeeds signals if and only if its eventfd is positive. */
  lemma SignalsExactly(u: Setup, run: seq<System>, steps: seq<Step>, n: nat, j: nat)
    requires IsRun(u, run, steps) && n < |run| && j < |run[n].workers| && run[n].workers[j].stage == Listening
    ensures SignalWorker(run[n].workers[j], true).signals == 1 <==> run[n].workers[j].efd > 0
    ensures var w := run[n].workers[j];
            && SignalReady(w.proc, true).1 == (if w.efd > 0 then Ok else InvalidParam)
            && SignalReady(w.proc, false).1 == (if w.efd > 0 then EventfdError else InvalidParam)
  {
    RunInv(u, run, steps, n);
    assert WorkerInv(u, j, run[n].workers[j]);
  }

  lemma ExtendRun(u: Setup, run: seq<System>, steps: seq<Step>, e: Step)
    requires IsRun(u, run, steps) && Enabled(u, run[|steps|], e)
    ensures IsRun(u, run + [Apply(u, run[|steps|], e)], steps + [e])
  {
  }

  /** The first worker forked over this descriptor. */
  lemma FirstFork(u: Setup, s: System, efd: int) returns (run: seq<System>, steps: seq<Step>)
    requires Init(u, s) && u.cpuIds != [] && efd >= 0
    ensures IsRun(u, run, steps) && run[0] == s && |steps| == 2
    ensures var r := run[2];
            && r.at == Waiting(0, efd) && |r.workers| == 1 && r.workers[0].stage == Forked && r.workers[0].efd == efd
            && r.workers[0].signals == 0
  {
    run, steps := [s], [];
    ExtendRun(u, run, steps, ParentCreates(Some(efd)));
    run, steps := run + [Apply(u, s, ParentCreates(Some(efd)))], steps + [ParentCreates(Some(efd))];
    ExtendRun(u, run, steps, ParentForks(true));
    run, steps := run + [ForkStep(run[1], true)], steps + [ParentForks(true)];
  }

  /** With descriptor 0 free when the parent starts, a worker that sets itself up, listens and
      whose write would succeed is in its event loop unheard, and the parent waits for it. */
  lemma DescriptorZeroRun(u: Setup, s: System) returns (run: seq<System>, steps: seq<Step>)
    requires Init(u, s) && u.cpuIds != []
    ensures IsRun(u, run, steps) && run[0] == s && |steps| == 5 && steps[4] == WorkerSignals(0, true)
    ensures var r := run[5];
            r.at == Waiting(0, 0) && |r.workers| == 1 && r.workers[0].stage == Running && r.workers[0].signals == 0
  {
    run, steps := FirstFork(u, s, 0);
    RunInv(u, run, steps, 2);
    assert WorkerInv(u, 0, run[2].workers[0]);
    run, steps := WorkerRun(u, run, steps);
    RunInv(u, run, steps, 4);
    assert WorkerInv(u, 0, run[4].workers[0]);
    ExtendRun(u, run, steps, WorkerSignals(0, true));
    run, steps := run + [Apply(u, run[4], WorkerSignals(0, true))], steps + [WorkerSignals(0, true)];
  }

  /** The last worker sets itself up and opens its listener. */
  lemma WorkerRun(u: Setup, run: seq<System>, steps: seq<Step>) returns (run': seq<System>, steps': seq<Step>)
    requires IsRun(u, run, steps) && |run[|steps|].workers| == 1 && run[|steps|].workers[0].stage == Forked
    ensures IsRun(u, run', steps') && run <= run' && |steps'| == |steps| + 2
    ensures var s, r := run[|steps|], run'[|steps'|];
            && r.at == s.at && |r.workers| == 1 && r.workers[0].stage == Listening
            && r.workers[0].efd == s.workers[0].efd && r.workers[0].signals == s.workers[0].signals
  {
    RunInv(u, run, steps, |steps|);
    var s := run[|steps|];
    assert WorkerInv(u, 0, s.workers[0]);
    ExtendRun(u, run, steps, WorkerSetsUp(0, true));
    run', steps' := run + [Apply(u, s, WorkerSetsUp(0, true))], steps + [WorkerSetsUp(0, true)];
    var t := run'[|steps'|];
    ExtendRun(u, run', steps', WorkerListens(0, true));
    run', steps' := run' + [Apply(u, t, WorkerListens(0, true))], steps' + [WorkerListens(0, true)];
  }

  /** Once start-up has succeeded, the parent and every worker have closed their copy of each
      eventfd exactly once, and no later clean-up closes one again. */
  lemma EventfdsAreClosedOnce(u: Setup, run: seq<System>, steps: seq<Step>, n: nat)
    requires IsRun(u, run, steps) && n < |run|
    requires run[n].at in {Returned(AllReady), Gone(AllReady)}
    ensures run[n].parent.table == Table(map[], seq(|u.cpuIds|, k => k), 0)
    ensures forall j: nat :: j < |run[n].workers| ==> run[n].workers[j].proc.table == Table(map[], [j], 0)
  {
    RunInv(u, run, steps, n);
    forall j: nat | j < |run[n].workers| ensures run[n].workers[j].proc.table == Table(map[], [j], 0) {
      assert WorkerInv(u, j, run[n].workers[j]);
    }
  }

  /** At every moment of every run, a worker has closed nothing but its own eventfd, at most
      once, and has never closed a descriptor that was not open. */
  lemma WorkersCloseOnlyTheirOwn(u: Setup, run: seq<System>, steps: seq<Step>, n: nat, j: nat)
    requires IsRun(u, run, steps) && n < |run| && j < |run[n].workers|
    ensures var t := run[n].workers[j].proc.table;
            t.bad == 0 && (t.closed == [] || (t.closed == [j] && t.open == map[]))
  {
    RunInv(u, run, steps, n);
    assert WorkerInv(u, j, run[n].workers[j]);
  }

  /** The parent closes a descriptor twice exactly when it cleans up after a failed read: the
      failing branch closes the eventfd and leaves its entry in place. */
  lemma DoubleCloseExactly(u: Setup, run: seq<System>, steps: seq<Step>, n: nat)
    requires IsRun(u, run, steps) && n < |run|
    ensures run[n].parent.table.bad > 0 <==> run[n].at.Gone? && run[n].at.why.ReadFailed? && run[n].at.why.efd > 0
    ensures run[n].parent.table.bad <= 1
  {
    RunInv(u, run, steps, n);
  }

  /** Such a run: the first eventfd, a fork, a read that fails, clean-up. */
  lemma DoubleCloseRun(u: Setup, s: System) returns (run: seq<System>, steps: seq<Step>)
    requires Init(u, s) && u.cpuIds != []
    ensures IsRun(u, run, steps) && run[0] == s && |steps| == 4 && run[4].parent.table.bad == 1
  {
    run, steps := FirstFork(u, s, 5);
    RunInv(u, run, steps, 2);
    ExtendRun(u, run, steps, ParentHears(false));
    run, steps := run + [HearStep(run[2], false)], steps + [ParentHears(false)];
    ExtendRun(u, run, steps, ParentCleansUp);
    run, steps := run + [Apply(u, run[3], ParentCleansUp)], steps + [ParentCleansUp];
    DoubleCloseExactly(u, run, steps, 4);
  }
}
