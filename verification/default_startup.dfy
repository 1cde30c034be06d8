/** The default configuration: what a start with one worker for every CPU of the process's set
    comes to, including the fall-back when the CPUs cannot be had. */
module DefaultStartup {
  import opened Wire
  import Startup
  import CpuSet
  import opened WorkerManagement

  /** What the manager of a default start holds: the CPUs of the set when they could be queried
      and copied, and nothing when the fall-back of one worker without a list was refused. */
  function DefaultSetup(mask: seq<bool>, affinityOk: bool, memory: bool): Startup.Setup {
    var ids := CpuSet.Members(mask, |mask|);
    if affinityOk && memory && ids != [] then Startup.Setup(ids, true) else Startup.Setup([], false)
  }

  /** Configuration, manager and fork loop in sequence; the result of the initialisation is not
      looked at. The code is None when an allocation of the initialisation failed with workers
      to start: the loop would then go over arrays that are not there. */
  method DefaultStart(mask: CpuSet.Cpus, affinityOk: bool, memory: bool, initMemory: (bool, bool), env: seq<Turn>)
    returns (m: WorkerManager, code: Option<Startup.Code>)
    requires |env| == |DefaultSetup(mask, affinityOk, memory).cpuIds|
    ensures var u := DefaultSetup(mask, affinityOk, memory);
            if u.cpuIds == [] then
              m.Config() == u && m.Value() == Startup.Fresh(0).(current := 0) && code == Some(Startup.Ok)
            else if !initMemory.0 || !initMemory.1 then
              code == None
            else
              m.Config() == u && code.Some?
              && (m.Value(), code.value) == ForkLoop(u, Startup.Fresh(|u.cpuIds|), 0, env)
  {
    m := new WorkerManager();
    assert Startup.Fresh(0).eventfds == [];
    var count, ids := CpuSet.DefaultWorkers(mask, affinityOk, memory);
    var _ := m.Init(count, ids, true, initMemory);
    assert ids.Some? ==> ids.value[..count] == ids.value;
    if m.workerCount > 0 && m.eventfds == null {
      code := None;
    } else {
      var c := m.ForkWorkers(env);
      code := Some(c);
    }
  }

  ghost predicate EachCpuHasOne(mask: seq<bool>, ws: seq<Startup.Worker>) {
    && (forall w <- ws :: w.proc.pinned.Some? && 0 <= w.proc.pinned.value < |mask| && mask[w.proc.pinned.value])
    && (forall j, k :: 0 <= j < k < |ws| ==> ws[j].proc.pinned != ws[k].proc.pinned)
    && (forall c: nat :: c < |mask| && mask[c] ==> exists w <- ws :: w.proc.pinned == Some(c))
  }

  /** When a default start answers OK, there are workers, each pinned to its own CPU of the set
      and every CPU of the set with one, if and only if the set is not empty and could be
      queried and copied; otherwise there is no worker at all. */
  lemma EveryCpuHasItsWorker(mask: seq<bool>, affinityOk: bool, memory: bool, u: Startup.Setup,
                             run: seq<Startup.System>, steps: seq<Startup.Step>, n: nat)
    requires u == DefaultSetup(mask, affinityOk, memory)
    requires Startup.IsRun(u, run, steps) && n < |run|
    requires run[n].at.Returned? && Startup.CodeOf(run[n].at.why) == Startup.Ok
    ensures run[n].workers != [] && EachCpuHasOne(mask, run[n].workers)
            <==> affinityOk && memory && exists c: nat :: c < |mask| && mask[c]
    ensures !(affinityOk && memory && exists c: nat :: c < |mask| && mask[c]) ==> run[n].workers == []
  {
    var ids, ws := CpuSet.Members(mask, |mask|), run[n].workers;
    CpuSet.MembersAreTheSet(mask, |mask|);
    Startup.OkMeansAllReady(u, run, steps, n);
    if ids != [] {
      assert ids[0] in ids;
      if affinityOk && memory {
        OnePerCpu(mask, ids, ws);
      }
    } else {
      forall c: nat | c < |mask| ensures !mask[c] {
        assert c !in ids;
      }
    }
  }

  lemma OnePerCpu(mask: seq<bool>, ids: seq<nat>, ws: seq<Startup.Worker>)
    requires CpuSet.Increasing(ids) && |ws| == |ids| && forall j: nat :: j < |ids| ==> ws[j].proc.pinned == Some(ids[j])
    requires forall c: int :: c in ids <==> 0 <= c < |mask| && mask[c]
    ensures EachCpuHasOne(mask, ws)
  {
    forall j: nat | j < |ids| ensures ids[j] in ids && ws[j].proc.pinned == Some(ids[j]) {
    }
    forall c: nat | c < |mask| && mask[c] ensures exists w <- ws :: w.proc.pinned == Some(c) {
      var j :| 0 <= j < |ids| && ids[j] == c;
      assert ws[j] in ws;
    }
  }

  /** The failing input: the affinity query fails. The parent is at once told that all is well,
      whatever CPUs there are, and waits for workers that were never forked. */
  lemma FallBackStartsNothing(mask: seq<bool>, memory: bool, s: Startup.System)
    requires Startup.Init(DefaultSetup(mask, false, memory), s)
    ensures var u := DefaultSetup(mask, false, memory); var run := [s, s.(at := Startup.Returned(Startup.AllReady))];
            && Startup.IsRun(u, run, [Startup.ParentReturns])
            && Startup.CodeOf(run[1].at.why) == Startup.Ok && run[1].workers == []
  {
  }
}
