/** The worker manager as an object that `fork_workers`, `signal_ready` and clean-up update. */
module WorkerManagement {
  import opened Wire
  import opened Startup

  datatype Fork = Failed | InParent | InChild(pinOk: bool)

  /** What the operating system answers in one turn of the fork loop. */
  datatype Turn = Turn(efd: Option<int>, fork: Fork, readOk: bool)

  /** `worker_manager_fork_workers` from index i on, in the process it runs in. */
  function ForkLoop(u: Setup, p: Proc, i: nat, env: seq<Turn>): (Proc, Code)
    requires i <= |u.cpuIds| == |p.eventfds| == |env|
    decreases |u.cpuIds| - i
  {
    if i == |u.cpuIds| then (p, Ok)
    else if env[i].efd.None? then (p, EventfdError)
    else
      var efd := env[i].efd.value;
      var q := Create(p, i, efd);
      match env[i].fork
      case Failed => (Close(q, efd), ForkError)
      case InChild(pinOk) => ChildSetUp(u, ForkedFrom(q), i, efd, pinOk)
      case InParent =>
        var r := ParentReads(ParentStores(q, i, efd), i, efd, env[i].readOk);
        if env[i].readOk then ForkLoop(u, r, i + 1, env) else (r, EventfdError)
  }

  /** The process is the parent until turn n, and every earlier turn goes well. */
  ghost predicate ParentUntil(env: seq<Turn>, n: nat) {
    n <= |env| && forall k :: 0 <= k < n ==> env[k].efd.Some? && env[k].fork == InParent && env[k].readOk
  }

  /** A child that returns OK has an inherited manager in which every earlier eventfd is marked
      closed, holds exactly its own and has closed nothing. */
  lemma {:induction false} ChildInherits(u: Setup, p: Proc, i: nat, env: seq<Turn>, n: nat, pinOk: bool)
    requires i <= n < |u.cpuIds| == |p.eventfds| == |env| && ParentUntil(env, n)
    requires Marked(p.eventfds, i, |u.cpuIds|) && p.table.open == map[]
    requires env[n].efd.Some? && env[n].fork == InChild(pinOk) && (u.affinity ==> pinOk)
    ensures var (q, code) := ForkLoop(u, p, i, env); var efd := env[n].efd.value;
            && code == Ok && q.kind == Child && q.current == n && Held(q.table, n, efd)
            && q.eventfds == seq(|u.cpuIds|, k => if k < n then -1 else if k == n then efd else 0)
            && (u.affinity ==> q.pinned == Some(u.cpuIds[n]))
    decreases n - i
  {
    var efd := env[i].efd.value;
    if i < n {
      var r := ParentReads(ParentStores(Create(p, i, efd), i, efd), i, efd, true);
      assert r.eventfds == p.eventfds[i := -1];
      ChildInherits(u, r, i + 1, env, n, pinOk);
    } else {
      var c := ForkedFrom(Create(p, n, efd)).(kind := Child, current := n);
      var pinned := if u.affinity then Some(u.cpuIds[n]) else c.pinned;
      NothingEarlier(c.(pinned := pinned, eventfds := c.eventfds[n := efd]), 0, n);
    }
  }

  /** The parent gets OK exactly when no turn fails, and has then closed eventfds i.. in order. */
  lemma {:induction false} ParentOutcome(u: Setup, p: Proc, i: nat, env: seq<Turn>)
    requires i <= |u.cpuIds| == |p.eventfds| == |env| && p.table.open == map[]
    requires forall k :: i <= k < |env| ==> !env[k].fork.InChild?
    ensures var (q, code) := ForkLoop(u, p, i, env);
            && (code == Ok <==>
                  forall k :: i <= k < |env| ==> env[k].efd.Some? && env[k].fork == InParent && env[k].readOk)
            && q.kind == p.kind && q.table.open == map[] && q.table.bad == p.table.bad
            && (code == Ok ==> q.table.closed == p.table.closed + seq(|env| - i, k => i + k)
                               && q.eventfds == p.eventfds[..i] + seq(|env| - i, _ => -1))
    decreases |env| - i
  {
    if i < |u.cpuIds| && env[i].efd.Some? {
      var efd := env[i].efd.value;
      var q := Create(p, i, efd);
      assert CloseFd(q.table, efd) == Table(map[], p.table.closed + [i], p.table.bad);
      if env[i].fork == InParent && env[i].readOk {
        var r := ParentReads(ParentStores(q, i, efd), i, efd, true);
        assert r.eventfds == p.eventfds[..i] + [-1] + p.eventfds[i + 1..];
        ParentOutcome(u, r, i + 1, env);
        Associative(p.table.closed, [i], seq(|env| - (i + 1), k => i + 1 + k));
        assert [i] + seq(|env| - (i + 1), k => i + 1 + k) == seq(|env| - i, k => i + k);
        assert [-1] + seq(|env| - (i + 1), _ => -1) == seq(|env| - i, _ => -1);
        Associative(p.eventfds[..i], [-1], seq(|env| - (i + 1), _ => -1));
      }
    } else {
      assert p.eventfds[..i] + seq(|env| - i, _ => -1) == p.eventfds || i < |u.cpuIds|;
    }
  }

  /** Turns 0 to n - 1 are done and marked; the entry of worker n is `entry`. */
  ghost predicate FailsAt(p: Proc, q: Proc, n: nat, closed: seq<nat>, entry: int) {
    && n < |p.eventfds| && q.table == Table(map[], closed, p.table.bad)
    && q.eventfds == seq(|p.eventfds|, k => if k < n then -1 else if k == n then entry else 0)
  }

  /** Turn n is the first that does not go well, in the parent or because the child cannot be
      pinned: which code it gives, which eventfds have been closed, and what the entry of the
      worker still holds. */
  lemma {:induction false} FirstFailure(u: Setup, p: Proc, i: nat, env: seq<Turn>, n: nat)
    requires i <= n < |u.cpuIds| == |p.eventfds| == |env| && ParentUntil(env, n)
    requires Marked(p.eventfds, i, |u.cpuIds|) && p.table.open == map[] && p.table.closed == seq(i, k => k)
    ensures var (q, code), t := ForkLoop(u, p, i, env), env[n];
            && (t.efd.None? ==> code == EventfdError && FailsAt(p, q, n, seq(n, k => k), 0))
            && (t.efd.Some? && t.fork.Failed? ==> code == ForkError && FailsAt(p, q, n, seq(n + 1, k => k), 0))
            && (t.efd.Some? && t.fork.InParent? && !t.readOk ==>
                  code == EventfdError && FailsAt(p, q, n, seq(n + 1, k => k), t.efd.value))
            && (t.efd.Some? && t.fork == InChild(false) && u.affinity ==>
                  code == InvalidParam && q.kind == Child && q.current == n && q.table == Table(map[], [n], 0))
    decreases n - i
  {
    if i < n {
      var efd := env[i].efd.value;
      var r := ParentReads(ParentStores(Create(p, i, efd), i, efd), i, efd, true);
      assert r.eventfds == p.eventfds[i := -1];
      assert r.table == Table(map[], p.table.closed + [i], p.table.bad);
      assert p.table.closed + [i] == seq(i + 1, k => k);
      FirstFailure(u, r, i + 1, env, n);
    } else if env[n].efd.Some? {
      var q := Create(p, n, env[n].efd.value);
      assert CloseFd(q.table, env[n].efd.value) == Table(map[], p.table.closed + [n], p.table.bad);
      assert p.table.closed + [n] == seq(n + 1, k => k);
    }
  }

  // ----- the loop is the parent of the step system -----

  ghost predicate StaysParent(env: seq<Turn>) {
    forall k :: 0 <= k < |env| ==> !env[k].fork.InChild?
  }

  /** The system's answers to the parent are those of `env`. */
  ghost predicate Follows(env: seq<Turn>, at: At, e: Step) {
    match e
    case ParentCreates(efd) => at.Top? && at.i < |env| && efd == env[at.i].efd
    case ParentForks(ok) => at.Created? && at.i < |env| && ok == (env[at.i].fork == InParent)
    case ParentHears(ok) => at.Waiting? && at.i < |env| && ok == env[at.i].readOk
    case ParentCleansUp => false
    case _ => true
  }

  ghost function Awaiting(u: Setup, p: Proc, i: nat, efd: int, env: seq<Turn>): (Proc, Code)
    requires i < |p.eventfds| == |u.cpuIds| == |env|
  {
    var r := ParentReads(p, i, efd, env[i].readOk);
    if env[i].readOk then ForkLoop(u, r, i + 1, env) else (r, EventfdError)
  }

  /** What the loop still has to do makes of the parent at this point. */
  ghost function Remaining(u: Setup, p: Proc, at: At, env: seq<Turn>): (Proc, Code)
    requires |p.eventfds| == |u.cpuIds| == |env|
  {
    match at
    case Top(i) => if i <= |env| then ForkLoop(u, p, i, env) else (p, Ok)
    case Created(i, efd) =>
      if i >= |env| then (p, Ok)
      else if env[i].fork != InParent then (Close(p, efd), ForkError)
      else Awaiting(u, ParentStores(p, i, efd), i, efd, env)
    case Waiting(i, efd) => if i < |env| then Awaiting(u, p, i, efd, env) else (p, Ok)
    case Returned(why) => (p, CodeOf(why))
    case Gone(_) => (p, Ok)
  }

  lemma StepFollows(u: Setup, s: System, e: Step, env: seq<Turn>)
    requires Inv(u, s) && Enabled(u, s, e) && Follows(env, s.at, e)
    requires |s.parent.eventfds| == |u.cpuIds| == |env| && StaysParent(env)
    ensures var r := Apply(u, s, e);
            |r.parent.eventfds| == |env| && Remaining(u, r.parent, r.at, env) == Remaining(u, s.parent, s.at, env)
  {
  }

  lemma {:induction false} RunFollows(u: Setup, run: seq<System>, steps: seq<Step>, n: nat, env: seq<Turn>)
    requires IsRun(u, run, steps) && n < |run| && |env| == |u.cpuIds| && StaysParent(env)
    requires forall k :: 0 <= k < n ==> Follows(env, run[k].at, steps[k])
    ensures |run[n].parent.eventfds| == |env|
    ensures Remaining(u, run[n].parent, run[n].at, env) == ForkLoop(u, Fresh(|env|), 0, env)
  {
    if n > 0 {
      RunFollows(u, run, steps, n - 1, env);
      RunInv(u, run, steps, n - 1);
      StepFollows(u, run[n - 1], steps[n - 1], env);
    }
  }

  /** However the workers' steps are interleaved, the parent returns in the state and with the
      code of the sequential loop. */
  lemma ParentIsTheLoop(u: Setup, run: seq<System>, steps: seq<Step>, n: nat, env: seq<Turn>)
    requires IsRun(u, run, steps) && n < |run| && |env| == |u.cpuIds| && StaysParent(env) && run[n].at.Returned?
    requires forall k :: 0 <= k < n ==> Follows(env, run[k].at, steps[k])
    ensures (run[n].parent, CodeOf(run[n].at.why)) == ForkLoop(u, Fresh(|env|), 0, env)
  {
    RunFollows(u, run, steps, n, env);
  }

  /** The manager's copy of the CPU list: none, one that has been freed, or the list. */
  datatype Ids = Null | Freed | Points(ids: seq<int>)

  class WorkerManager {
    var kind: Kind
    var current: int
    var workerCount: int
    var affinity: bool
    var cpuIds: Ids
    var eventfds: array?<int>
    var table: Table            // the process's descriptors
    var pinned: Option<int>     // the CPU the process may run on

    function Value(): Proc
      reads this, eventfds
    {
      Proc(kind, current, if eventfds == null then [] else eventfds[..], table, pinned)
    }

    function Config(): Setup
      reads this
    {
      Setup(if cpuIds.Points? then cpuIds.ids else [], affinity)
    }

    /** Zeroed, or initialised with both arrays in place. */
    ghost predicate Valid()
      reads this
    {
      if workerCount == 0 then eventfds == null && cpuIds == Null
      else eventfds != null && cpuIds.Points? && workerCount == eventfds.Length == |cpuIds.ids|
    }

    /** A zeroed manager. */
    constructor ()
      ensures Valid() && Value() == Proc(Parent, 0, [], Table(map[], [], 0), None) && Config() == Setup([], false)
    {
      kind, current, workerCount, affinity, cpuIds, eventfds := Parent, 0, 0, false, Null, null;
      table, pinned := Table(map[], [], 0), None;
    }

    /** `worker_manager_init`: `list` is None for a null pointer, and covers the workers; `memory`
        says which of the two allocations succeed. A failed one leaves the count without arrays,
        the second one also a pointer to freed memory. */
    method Init(count: int, list: Option<seq<int>>, affinity: bool, memory: (bool, bool)) returns (code: Code)
      requires list.Some? ==> count <= |list.value|
      modifies this`kind, this`current, this`workerCount, this`affinity, this`cpuIds, this`eventfds
      ensures code == if count <= 0 || list.None? || !memory.0 || !memory.1 then InvalidParam else Ok
      ensures count <= 0 || list.None? ==> unchanged(this)
      ensures count > 0 && list.Some? ==> workerCount == count && this.affinity == affinity && kind == Parent
      ensures count > 0 && list.Some? && code != Ok ==>
                eventfds == null && cpuIds == (if memory.0 then Freed else Null) && current == 0
      ensures code == Ok ==> current == -1 && eventfds != null && eventfds[..] == seq(count, _ => 0)
      ensures code == Ok ==> Config() == Setup(list.value[..count], affinity) && Valid() && fresh(eventfds)
                             && Value() == Fresh(count).(table := old(table), pinned := old(pinned))
    {
      if count <= 0 || list.None? {
        return InvalidParam;
      }
      kind, current, cpuIds, eventfds := Parent, 0, Null, null;
      workerCount, this.affinity := count, affinity;
      if !memory.0 {
        return InvalidParam;
      }
      cpuIds := Points(list.value[..count]);
      if !memory.1 {
        cpuIds := Freed;
        return InvalidParam;
      }
      eventfds := new int[count](_ => 0);
      current, code := -1, Ok;
      assert eventfds[..] == seq(count, _ => 0);
    }

    method CloseDescriptor(fd: int)
      modifies this`table
      ensures table == CloseFd(old(table), fd)
    {
      table := CloseFd(table, fd);
    }

    /** The child's branch of the fork loop. */
    method BecomeWorker(i: nat, efd: int, pinOk: bool) returns (code: Code)
      requires Valid() && i < workerCount
      modifies this`kind, this`current, this`table, this`pinned, eventfds
      ensures Valid()
      ensures (Value(), code) == ChildSetUp(Config(), old(Value()), i, efd, pinOk)
    {
      kind, current := Child, i;
      if affinity {
        if !pinOk {
          CloseDescriptor(efd);
          return InvalidParam;
        }
        pinned := Some(cpuIds.ids[i]);
      }
      eventfds[i] := efd;
      ghost var p := Value();
      for j := 0 to i
        invariant |p.eventfds| == eventfds.Length && CloseEarlier(Value(), j, i) == CloseEarlier(p, 0, i)
      {
        if eventfds[j] > 0 {
          CloseDescriptor(eventfds[j]);
          eventfds[j] := -1;
        }
      }
      code := Ok;
    }

    /** The parent's branch: store, wait, close, mark. */
    method AwaitWorker(i: nat, efd: int, readOk: bool)
      requires Valid() && i < workerCount
      modifies this`table, eventfds
      ensures Value() == ParentReads(ParentStores(old(Value()), i, efd), i, efd, readOk)
    {
      eventfds[i] := efd;
      CloseDescriptor(efd);
      if readOk {
        eventfds[i] := -1;
      }
    }

    /** `worker_manager_fork_workers`. */
    method ForkWorkers(env: seq<Turn>) returns (code: Code)
      requires Valid() && |env| == workerCount
      modifies this`kind, this`current, this`table, this`pinned, eventfds
      ensures Valid()
      ensures (Value(), code) == ForkLoop(Config(), old(Value()), 0, env)
    {
      for i := 0 to workerCount
        invariant Valid()
        invariant ForkLoop(Config(), Value(), i, env) == ForkLoop(Config(), old(Value()), 0, env)
      {
        if env[i].efd.None? {
          return EventfdError;
        }
        var efd := env[i].efd.value;
        table := table.(open := table.open[efd := i]);
        match env[i].fork {
          case Failed =>
            CloseDescriptor(efd);
            return ForkError;
          case InChild(pinOk) =>
            table := Table(table.open, [], 0);
            code := BecomeWorker(i, efd, pinOk);
            return;
          case InParent =>
            AwaitWorker(i, efd, env[i].readOk);
            if !env[i].readOk {
              return EventfdError;
            }
        }
      }
      code := Ok;
    }

    /** `worker_manager_signal_ready`. */
    method SignalReady(writeOk: bool) returns (code: Code, wrote: bool)
      requires kind == Child ==> Valid()
      modifies this`table, eventfds
      ensures (Value(), code, wrote) == Startup.SignalReady(old(Value()), writeOk)
    {
      wrote := false;
      if kind != Child {
        return InvalidParam, false;
      }
      if current < 0 || current >= workerCount {
        return InvalidParam, false;
      }
      var efd := eventfds[current];
      if efd <= 0 {
        return InvalidParam, false;
      }
      if !writeOk {
        return EventfdError, false;
      }
      CloseDescriptor(efd);
      eventfds[current] := -1;
      return Ok, true;
    }

    /** `worker_manager_cleanup`, also after a failed allocation that left no freed pointer. */
    method CleanUp()
      requires Valid() || (eventfds == null && cpuIds == Null)
      modifies this
      ensures Valid() && workerCount == 0 && Value() == Cleanup(old(Value()))
      ensures kind == Parent && current == 0 && !affinity && eventfds == null && cpuIds == Null
    {
      if eventfds != null {
        for i := 0 to workerCount
          invariant Valid() && eventfds == old(eventfds) && workerCount == old(workerCount)
          invariant CloseHeld(Value(), i) == CloseHeld(old(Value()), 0)
        {
          if eventfds[i] > 0 {
            CloseDescriptor(eventfds[i]);
          }
        }
      }
      kind, current, workerCount, affinity, cpuIds, eventfds := Parent, 0, 0, false, Null, null;
    }
  }
}
