/** The depth the pipelined client reports and the depth it keeps: when submissions are given up. */
module PipelineDepth {
  import opened LoadgenCore
  import opened SendPool
  import opened Pipeline
  import opened PipelineProof
  import opened PipelineTheorems

  // ----- when nothing is given up -----

  predicate AllGot(got: seq<bool>) {
    forall g <- got :: g
  }

  /** A submission entry is always available, and the completion of a send is handled before
      its reply is. */
  predicate Orderly(u: Setup, s: System, step: Step)
    requires Enabled(u, s, step)
  {
    match step
    case Seed(got, _) => AllGot(got)
    case Complete(i, got, _) =>
      UdOp(s.client.ring[i].ud) == OP_SEND ||
      var cid := UdCid(s.client.ring[i].ud);
      AllGot(got) && s.client.conns[cid].completed + |got| <= s.links[cid].acked
    case _ => true
  }

  ghost predicate NothingLost(s: System) {
    forall c: nat :: c < |s.links| && c < |s.client.conns| ==>
      s.links[c].lost == 0 && s.client.conns[c].completed <= s.links[c].acked
  }

  function SumSends(ring: seq<Op>, n: nat): nat {
    if n == 0 then 0 else SumSends(ring, n - 1) + CountOps(ring, SendsOf(n - 1))
  }

  lemma {:induction false} SumPush(ring: seq<Op>, op: Op, n: nat)
    ensures SumSends(ring + [op], n) == SumSends(ring, n) + (if op.Send? && op.conn < n then 1 else 0)
  {
    if n > 0 {
      SumPush(ring, op, n - 1);
      CountPush(ring, op, SendsOf(n - 1));
    }
  }

  lemma {:induction false} SumOfNothing(n: nat)
    ensures SumSends([], n) == 0
  {
    if n > 0 {
      SumOfNothing(n - 1);
    }
  }

  lemma {:induction false} SumIsAll(ring: seq<Op>, n: nat)
    requires forall op <- ring :: op.Send? ==> op.conn < n
    ensures SumSends(ring, n) == CountOps(ring, AnySend)
  {
    if ring == [] {
      SumOfNothing(n);
    } else {
      var init, last := ring[..|ring| - 1], ring[|ring| - 1];
      assert ring == init + [last];
      SumIsAll(init, n);
      SumPush(init, last, n);
    }
  }

  /** If no connection holds more than `depth` sends and one holds `slack` less, so does the total. */
  lemma {:induction false} SumBound(ring: seq<Op>, n: nat, depth: nat, cid: nat, slack: nat)
    requires forall c: nat :: c < n ==> CountOps(ring, SendsOf(c)) <= depth
    requires cid < n ==> CountOps(ring, SendsOf(cid)) + slack <= depth
    ensures SumSends(ring, n) + (if cid < n then slack else 0) <= n * depth
  {
    if n > 0 {
      SumBound(ring, n - 1, depth, cid, slack);
      assert n * depth == (n - 1) * depth + depth;
      assert CountOps(ring, SendsOf(n - 1)) <= depth;
    }
  }

  /** Sends in the ring never exceed the depth while nothing is lost and sends are acknowledged
      before their replies are counted. */
  lemma FewSends(u: Setup, s: System, c: nat)
    requires Inv(u, s) && NothingLost(s) && c < u.conns
    ensures CountOps(s.client.ring, SendsOf(c)) + s.links[c].acked
         == (if c < s.seeded then u.depth else 0) + s.client.conns[c].completed
    ensures CountOps(s.client.ring, SendsOf(c)) <= u.depth
  {
    assert ConnOk(u, s, c);
  }

  /** Enough free slots for the refills still to come of one connection. */
  lemma EnoughSlots(u: Setup, s: System, cid: nat, slack: nat)
    requires Inv(u, s) && NothingLost(s) && u.conns * u.depth <= SEND_POOL_SIZE
    requires cid < u.conns && CountOps(s.client.ring, SendsOf(cid)) + slack <= u.depth
    ensures |s.client.free| >= slack
  {
    forall c: nat | c < u.conns ensures CountOps(s.client.ring, SendsOf(c)) <= u.depth {
      FewSends(u, s, c);
    }
    SumBound(s.client.ring, u.conns, u.depth, cid, slack);
    forall op <- s.client.ring ensures op.Send? ==> op.conn < u.conns {
      assert SendOk(u, s.client.pool, op);
    }
    SumIsAll(s.client.ring, u.conns);
  }

  lemma {:induction false} NoFailures(u: Setup, c: Client, cid: nat, got: seq<bool>)
    requires Shaped(c) && cid < |c.conns| && AllGot(got) && |c.free| >= |got|
    ensures Failures(u, c, cid, got) == 0
    decreases |got|
  {
    if got != [] {
      assert got[0] in got && forall g <- got[1..] :: g in got;
      NoFailures(u, SubmitOne(u, c, cid, got[0]), cid, got[1..]);
    }
  }

  lemma OrderlySeed(u: Setup, s: System, got: seq<bool>, gotRecv: bool)
    requires Inv(u, s) && NothingLost(s) && u.conns * u.depth <= SEND_POOL_SIZE
    requires Enabled(u, s, Seed(got, gotRecv)) && AllGot(got)
    ensures NothingLost(SeedConn(u, s, got, gotRecv))
  {
    var cid := s.seeded;
    assert ConnOk(u, s, cid);
    EnoughSlots(u, s, cid, u.depth);
    NoFailures(u, s.client, cid, got);
    RefillEffect(u, s.client, cid, got);
    SubmitRecvEffect(u, Refill(u, s.client, cid, got), cid, gotRecv);
  }

  lemma OrderlyRecv(u: Setup, s: System, i: nat, got: seq<bool>, gotRecv: bool)
    requires Inv(u, s) && NothingLost(s) && u.conns * u.depth <= SEND_POOL_SIZE
    requires Enabled(u, s, Complete(i, got, gotRecv)) && s.client.ring[i].Recv?
    requires Orderly(u, s, Complete(i, got, gotRecv))
    ensures NothingLost(CompleteOp(u, s, i, got, gotRecv))
  {
    RecvTag(u, s, i);
    var cid := s.client.ring[i].conn;
    FewSends(u, s, cid);
    EnoughSlots(u, s, cid, |got|);
    NoFailures(u, Received(u, s.client, i), cid, got);
    var c3, failed := RecvStages(u, s, i, got, gotRecv);
  }

  lemma OrderlyStep(u: Setup, s: System, step: Step)
    requires Inv(u, s) && NothingLost(s) && u.conns * u.depth <= SEND_POOL_SIZE
    requires Enabled(u, s, step) && Orderly(u, s, step)
    ensures NothingLost(Apply(u, s, step))
  {
    match step {
      case Seed(got, gotRecv) => OrderlySeed(u, s, got, gotRecv);
      case Complete(i, got, gotRecv) =>
        if s.client.ring[i].Recv? {
          OrderlyRecv(u, s, i, got, gotRecv);
        } else {
          CompletionKeepsPool(u, s.client, i);
        }
      case _ =>
    }
  }

  /** `in_flight` is the depth, and as many requests are outstanding. */
  ghost predicate HasDepth(u: Setup, s: System, c: nat) {
    && c < |s.client.conns| && c < |s.links|
    && s.client.conns[c].inFlight == u.depth
    && Outstanding(CountOps(s.client.ring, Waiting(c)), s.client.conns[c], s.links[c]) == u.depth
  }

  /** With conns * depth <= 8192 slots and orderly completions no submission is ever given up:
      exactly `depth` requests are outstanding on every seeded connection at every moment. */
  lemma {:induction false} ExactDepth(u: Setup, run: seq<System>, steps: seq<Step>, n: nat)
    requires IsRun(u, run, steps) && n < |run| && u.conns * u.depth <= 8192
    requires forall i :: 0 <= i < |steps| ==> Enabled(u, run[i], steps[i]) && Orderly(u, run[i], steps[i])
    ensures NothingLost(run[n])
    ensures forall c: nat :: c < run[n].seeded ==> HasDepth(u, run[n], c)
  {
    if n > 0 {
      ExactDepth(u, run, steps, n - 1);
      RunInv(u, run, steps, n - 1);
      OrderlyStep(u, run[n - 1], steps[n - 1]);
    } else {
      assert forall l <- run[0].links :: l.lost == 0;
    }
    forall c: nat | c < run[n].seeded ensures HasDepth(u, run[n], c) {
      DepthAccounting(u, run, steps, n, c);
    }
  }

  // ----- when something is given up -----

  function Excess(a: nat, b: nat): nat {
    if a > b then a - b else 0
  }

  function TotalLost(links: seq<Link>): nat {
    if links == [] then 0 else TotalLost(links[..|links| - 1]) + links[|links| - 1].lost
  }

  lemma {:induction false} TotalLostUpdate(links: seq<Link>, i: nat, l: Link)
    requires i < |links|
    ensures TotalLost(links[i := l]) == TotalLost(links) - links[i].lost + l.lost
  {
    var n := |links| - 1;
    if i < n {
      assert links[i := l][..n] == links[..n][i := l];
      TotalLostUpdate(links[..n], i, l);
    } else {
      assert links[i := l][..n] == links[..n];
    }
  }

  lemma {:induction false} NoneLost(links: seq<Link>)
    ensures TotalLost(links) == 0 <==> forall c :: 0 <= c < |links| ==> links[c].lost == 0
  {
    if links != [] {
      var n := |links| - 1;
      NoneLost(links[..n]);
      assert forall c :: 0 <= c < n ==> links[..n][c] == links[c];
    }
  }

  /** With submission entries available, a refill gives up exactly what exceeds the free slots. */
  lemma {:induction false} FailuresExact(u: Setup, c: Client, cid: nat, got: seq<bool>)
    requires Shaped(c) && cid < |c.conns| && AllGot(got)
    ensures Failures(u, c, cid, got) == Excess(|got|, |c.free|)
    ensures |Refill(u, c, cid, got).free| == Excess(|c.free|, |got|)
    decreases |got|
  {
    if got != [] {
      assert got[0] in got && forall g <- got[1..] :: g in got;
      FailuresExact(u, SubmitOne(u, c, cid, got[0]), cid, got[1..]);
    }
  }

  lemma SeedLoss(u: Setup, s: System, got: seq<bool>, gotRecv: bool)
    requires Inv(u, s) && Enabled(u, s, Seed(got, gotRecv)) && AllGot(got)
    ensures var r := SeedConn(u, s, got, gotRecv);
            && r.seeded == s.seeded + 1 && |r.client.free| == Excess(|s.client.free|, u.depth)
            && TotalLost(r.links) == TotalLost(s.links) + Excess(u.depth, |s.client.free|)
  {
    var cid := s.seeded;
    var l := s.links[cid];
    FailuresExact(u, s.client, cid, got);
    SeedTakes(u, s, got, gotRecv, Failures(u, s.client, cid, got));
    TotalLostUpdate(s.links, cid, l.(lost := l.lost + Failures(u, s.client, cid, got)));
  }

  lemma SeedTakes(u: Setup, s: System, got: seq<bool>, gotRecv: bool, failed: nat)
    requires Inv(u, s) && Enabled(u, s, Seed(got, gotRecv)) && failed == Failures(u, s.client, s.seeded, got)
    ensures var r := SeedConn(u, s, got, gotRecv);
            && r.seeded == s.seeded + 1 && r.client.free == Refill(u, s.client, s.seeded, got).free
            && r.links == s.links[s.seeded := s.links[s.seeded].(lost := s.links[s.seeded].lost + failed)]
  {
  }

  lemma QuietLoss(u: Setup, s: System, step: Step)
    requires Enabled(u, s, step) && (step.Transmit? || step.Serve? || step.Land?)
    ensures var r := Apply(u, s, step);
            r.seeded == s.seeded && r.client.free == s.client.free && TotalLost(r.links) == TotalLost(s.links)
  {
    match step
    case Transmit(i) =>
      var c := s.client.ring[i].conn;
      TotalLostUpdate(s.links, c, TransmitOp(u, s, i).links[c]);
    case Serve(c, n) => TotalLostUpdate(s.links, c, ServeBytes(s.links[c], n));
    case Land(i, n) =>
      var c := s.client.ring[i].conn;
      TotalLostUpdate(s.links, c, LandOp(u, s, i, n).links[c]);
  }

  /** The seeding loop always finds a submission entry. */
  ghost predicate SeedsGot(u: Setup, run: seq<System>, steps: seq<Step>) {
    forall i :: 0 <= i < |steps| && steps[i].Seed? ==> AllGot(steps[i].got)
  }

  lemma ExcessNext(k: nat, depth: nat, slots: nat)
    ensures Excess(Excess(slots, k * depth), depth) == Excess(slots, (k + 1) * depth)
    ensures Excess(k * depth, slots) + Excess(depth, Excess(slots, k * depth)) == Excess((k + 1) * depth, slots)
  {
    assert (k + 1) * depth == k * depth + depth;
  }

  ghost predicate LossIsExcess(u: Setup, seeded: nat, free: nat, lost: nat) {
    free == Excess(SEND_POOL_SIZE, seeded * u.depth) && lost == Excess(seeded * u.depth, SEND_POOL_SIZE)
  }

  lemma SeedingLossNext(u: Setup, s: System, step: Step)
    requires Inv(u, s) && Enabled(u, s, step) && !step.Complete? && (step.Seed? ==> AllGot(step.got))
    requires LossIsExcess(u, s.seeded, |s.client.free|, TotalLost(s.links))
    ensures var r := Apply(u, s, step); LossIsExcess(u, r.seeded, |r.client.free|, TotalLost(r.links))
  {
    if step.Seed? {
      SeedLoss(u, s, step.got, step.gotRecv);
      ExcessNext(s.seeded, u.depth, SEND_POOL_SIZE);
    } else {
      QuietLoss(u, s, step);
    }
  }

  /** Before the first completion is handled exactly the requests beyond the 8192 slots have
      been given up. */
  lemma {:induction false} SeedingLoss(u: Setup, run: seq<System>, steps: seq<Step>, n: nat)
    requires IsRun(u, run, steps) && n < |run| && SeedsGot(u, run, steps)
    requires forall i :: 0 <= i < n ==> !steps[i].Complete?
    ensures LossIsExcess(u, run[n].seeded, |run[n].client.free|, TotalLost(run[n].links))
  {
    if n == 0 {
      assert forall l <- run[0].links :: l.lost == 0;
      NoneLost(run[0].links);
    } else {
      SeedingLoss(u, run, steps, n - 1);
      RunInv(u, run, steps, n - 1);
      SeedingLossNext(u, run[n - 1], steps[n - 1]);
    }
  }

  /** Handling a receive gives up exactly the refills beyond the slots no send holds. */
  lemma ReceiveLoss(u: Setup, s: System, i: nat, got: seq<bool>, gotRecv: bool)
    requires Inv(u, s) && Enabled(u, s, Complete(i, got, gotRecv)) && s.client.ring[i].Recv? && AllGot(got)
    ensures var c := s.client.ring[i].conn;
            && c < |s.links|
            && CompleteOp(u, s, i, got, gotRecv).links[c].lost
               == s.links[c].lost + Excess(|got|, 8192 - CountOps(s.client.ring, AnySend))
  {
    RecvTag(u, s, i);
    FailuresExact(u, Received(u, s.client, i), s.client.ring[i].conn, got);
  }

  // ----- what has been given up stays given up -----

  /** There is no retry: a submission given up is never made good. */
  lemma LossStays(u: Setup, s: System, step: Step, c: nat)
    requires Enabled(u, s, step) && c < |s.links|
    ensures var r := Apply(u, s, step); |r.links| == |s.links| && r.links[c].lost >= s.links[c].lost
  {
  }

  lemma {:induction false} LossIsForever(u: Setup, run: seq<System>, steps: seq<Step>, m: nat, n: nat, c: nat)
    requires IsRun(u, run, steps) && m <= n < |run| && c < |run[m].links|
    ensures |run[n].links| == |run[m].links| && run[n].links[c].lost >= run[m].links[c].lost
  {
    if m < n {
      LossIsForever(u, run, steps, m, n - 1, c);
      LossStays(u, run[n - 1], steps[n - 1], c);
    }
  }

  /** A seeded connection that has lost its whole depth, with this many completions. */
  ghost predicate Starved(u: Setup, s: System, c: nat, completed: nat) {
    && c < s.seeded && c < |s.links| && c < |s.client.conns|
    && s.links[c].lost == u.depth && s.client.conns[c].completed == completed
  }

  /** Completions are counted by receives only. */
  lemma CompletedStays(u: Setup, s: System, step: Step, c: nat)
    requires Inv(u, s) && Enabled(u, s, step) && c < |s.client.conns|
    requires !(step.Complete? && s.client.ring[step.i].Recv?)
    ensures var r := Apply(u, s, step);
            && s.seeded <= r.seeded && |r.client.conns| == |s.client.conns|
            && r.client.conns[c].completed == s.client.conns[c].completed
  {
    match step
    case Seed(got, _) => RefillEffect(u, s.client, s.seeded, got);
    case Complete(i, _, _) => CompletionKeepsPool(u, s.client, i);
    case _ =>
  }

  /** A connection's losses are at most its depth. */
  lemma LossIsBounded(u: Setup, s: System, c: nat)
    requires Inv(u, s) && c < s.seeded
    ensures c < |s.links| && s.links[c].lost <= u.depth
  {
    assert ConnOk(u, s, c);
  }

  /** It has nothing outstanding and completes nothing. */
  lemma StarvedStep(u: Setup, s: System, step: Step, c: nat, completed: nat)
    requires Inv(u, s) && Enabled(u, s, step) && Starved(u, s, c, completed)
    ensures Starved(u, Apply(u, s, step), c, completed)
  {
    if step.Complete? && s.client.ring[step.i].Recv? {
      StarvedReceive(u, s, step.i, step.got, step.gotRecv, c);
    } else {
      CompletedStays(u, s, step, c);
    }
    LossStays(u, s, step, c);
    StepInv(u, s, step);
    LossIsBounded(u, Apply(u, s, step), c);
  }

  lemma StarvedReceive(u: Setup, s: System, i: nat, got: seq<bool>, gotRecv: bool, c: nat)
    requires Inv(u, s) && Enabled(u, s, Complete(i, got, gotRecv)) && s.client.ring[i].Recv?
    requires c < s.seeded && s.links[c].lost == u.depth
    ensures var r := CompleteOp(u, s, i, got, gotRecv);
            && s.seeded <= r.seeded && c < |r.client.conns| && c < |s.client.conns|
            && r.client.conns[c].completed == s.client.conns[c].completed
  {
    var cid := s.client.ring[i].conn;
    RecvTag(u, s, i);
    assert ConnOk(u, s, c) && ConnOk(u, s, cid);
    DrainFlow(u, s.client.conns[cid], s.links[cid]);
    var c3, failed := RecvStages(u, s, i, got, gotRecv);
  }

  lemma {:induction false} StarvedForever(u: Setup, run: seq<System>, steps: seq<Step>, m: nat, n: nat, c: nat,
      completed: nat)
    requires IsRun(u, run, steps) && m <= n < |run| && Starved(u, run[m], c, completed)
    ensures Starved(u, run[n], c, completed)
  {
    if m < n {
      StarvedForever(u, run, steps, m, n - 1, c, completed);
      RunInv(u, run, steps, n - 1);
      StarvedStep(u, run[n - 1], steps[n - 1], c, completed);
    }
  }

  // ----- the exact condition -----

  /** The moment seeding ended: no completion has been handled before it. */
  lemma {:induction false} SeedingEnded(u: Setup, run: seq<System>, steps: seq<Step>, n: nat) returns (m: nat)
    requires IsRun(u, run, steps) && n < |run| && run[n].seeded == u.conns
    ensures m <= n && run[m].seeded == u.conns && forall i :: 0 <= i < m ==> !steps[i].Complete?
  {
    if n > 0 && run[n - 1].seeded == u.conns {
      m := SeedingEnded(u, run, steps, n - 1);
    } else {
      m := n;
      forall i | 0 <= i < n ensures !steps[i].Complete? {
        StillSeeding(u, run, steps, i, n - 1);
      }
    }
  }

  lemma {:induction false} StillSeeding(u: Setup, run: seq<System>, steps: seq<Step>, i: nat, n: nat)
    requires IsRun(u, run, steps) && i <= n < |steps| && run[n].seeded != u.conns
    ensures run[i].seeded != u.conns
  {
    if i < n {
      RunInv(u, run, steps, n - 1);
      StillSeeding(u, run, steps, i, n - 1);
    }
  }

  /** `in_flight` says the depth, but fewer requests are outstanding. */
  ghost predicate Short(u: Setup, s: System, c: nat) {
    && c < |s.client.conns| && c < |s.links| && s.links[c].lost > 0 && s.client.conns[c].inFlight == u.depth
    && Outstanding(CountOps(s.client.ring, Waiting(c)), s.client.conns[c], s.links[c]) < u.depth
  }

  /** More than 8192 requests: one and the same connection is short from the end of seeding on
      for ever. */
  lemma PoolTooSmall(u: Setup, run: seq<System>, steps: seq<Step>, m: nat) returns (c: nat)
    requires IsRun(u, run, steps) && m < |run| && SeedsGot(u, run, steps) && run[m].seeded == u.conns
    requires u.conns * u.depth > 8192
    ensures c < u.conns && forall n :: m <= n < |run| ==> Short(u, run[n], c)
  {
    var first := SeedingEnded(u, run, steps, m);
    SeedingLoss(u, run, steps, first);
    RunInv(u, run, steps, first);
    NoneLost(run[first].links);
    c :| 0 <= c < |run[first].links| && run[first].links[c].lost != 0;
    forall n | m <= n < |run| ensures Short(u, run[n], c) {
      LossIsForever(u, run, steps, first, n, c);
      StaysSeeded(u, run, steps, m, n);
      DepthAccounting(u, run, steps, n, c);
    }
  }

  lemma {:induction false} StaysSeeded(u: Setup, run: seq<System>, steps: seq<Step>, m: nat, n: nat)
    requires IsRun(u, run, steps) && m <= n < |run|
    ensures run[m].seeded <= run[n].seeded
  {
    if m < n {
      StaysSeeded(u, run, steps, m, n - 1);
    }
  }

  ghost predicate FullDepth(u: Setup, s: System) {
    forall c: nat :: c < u.conns ==> HasDepth(u, s, c)
  }

  /** When entries are available and sends complete before their replies, every connection has
      its full depth outstanding after seeding if and only if conns * depth <= 8192. */
  lemma FullDepthExactly(u: Setup, run: seq<System>, steps: seq<Step>, n: nat)
    requires IsRun(u, run, steps) && n < |run| && run[n].seeded == u.conns
    requires forall i :: 0 <= i < |steps| ==> Enabled(u, run[i], steps[i]) && Orderly(u, run[i], steps[i])
    ensures FullDepth(u, run[n]) <==> u.conns * u.depth <= 8192
  {
    if u.conns * u.depth <= 8192 {
      ExactDepth(u, run, steps, n);
      forall c: nat | c < u.conns ensures HasDepth(u, run[n], c) {
        assert c < run[n].seeded;
      }
    } else {
      SeedsAreGot(u, run, steps);
      var c := PoolTooSmall(u, run, steps, n);
      assert Short(u, run[n], c) && !HasDepth(u, run[n], c);
    }
  }

  /** So the program's default of 256 connections and depth 16 gives up nothing and keeps its whole
      depth outstanding, at every moment of every orderly run. */
  lemma DefaultDepth(u: Setup, run: seq<System>, steps: seq<Step>, n: nat)
    requires u.conns == 256 && u.depth == 16 && IsRun(u, run, steps) && n < |run|
    requires forall i :: 0 <= i < |steps| ==> Enabled(u, run[i], steps[i]) && Orderly(u, run[i], steps[i])
    ensures TotalLost(run[n].links) == 0
    ensures run[n].seeded == 256 ==> FullDepth(u, run[n])
  {
    ExactDepth(u, run, steps, n);
    RunInv(u, run, steps, n);
    NoneLost(run[n].links);
    if run[n].seeded == 256 {
      FullDepthExactly(u, run, steps, n);
    }
  }

  lemma SeedsAreGot(u: Setup, run: seq<System>, steps: seq<Step>)
    requires IsRun(u, run, steps)
    requires forall i :: 0 <= i < |steps| ==> Enabled(u, run[i], steps[i]) && Orderly(u, run[i], steps[i])
    ensures SeedsGot(u, run, steps)
  {
    forall i | 0 <= i < |steps| && steps[i].Seed? ensures AllGot(steps[i].got) {
      assert Orderly(u, run[i], steps[i]);
    }
  }

  /** Nothing is given up while seeding if and only if conns * depth <= 8192. */
  lemma SeedingLosesNothingExactly(u: Setup, run: seq<System>, steps: seq<Step>, n: nat)
    requires IsRun(u, run, steps) && n < |run| && SeedsGot(u, run, steps) && run[n].seeded == u.conns
    requires forall i :: 0 <= i < n ==> !steps[i].Complete?
    ensures TotalLost(run[n].links) == Excess(u.conns * u.depth, 8192)
    ensures (forall c :: 0 <= c < |run[n].links| ==> run[n].links[c].lost == 0) <==> u.conns * u.depth <= 8192
  {
    SeedingLoss(u, run, steps, n);
    NoneLost(run[n].links);
  }

  /** Seeding one connection after the other, every submission entry available. */
  lemma {:induction false} SeedingRun(u: Setup, s: System, k: nat) returns (run: seq<System>, steps: seq<Step>)
    requires Init(u, s) && k <= u.conns
    ensures IsRun(u, run, steps) && SeedsGot(u, run, steps) && |steps| == k && run[k].seeded == k
    ensures run[0] == s && forall i :: 0 <= i < k ==> steps[i].Seed?
  {
    if k == 0 {
      run, steps := [s], [];
    } else {
      run, steps := SeedingRun(u, s, k - 1);
      RunInv(u, run, steps, k - 1);
      var got := seq(u.depth, _ => true);
      ExtendRun(u, run, steps, Seed(got, true));
      run, steps := run + [SeedConn(u, run[k - 1], got, true)], steps + [Seed(got, true)];
    }
  }

  lemma ExtendRun(u: Setup, run: seq<System>, steps: seq<Step>, step: Step)
    requires IsRun(u, run, steps) && Enabled(u, run[|steps|], step)
    ensures IsRun(u, run + [Apply(u, run[|steps|], step)], steps + [step])
  {
  }

  /** So every set-up beyond the warning's limit reaches a state in which `in_flight` is the full
      depth and less is outstanding, with nothing failing but the allocation of slots. */
  lemma NominalDepth(u: Setup, s: System) returns (run: seq<System>, steps: seq<Step>, c: nat)
    requires Init(u, s) && u.conns * u.depth > 8192
    ensures IsRun(u, run, steps) && SeedsGot(u, run, steps) && run[0] == s && |steps| == u.conns && c < u.conns
    ensures var r := run[u.conns];
            && TotalLost(r.links) == u.conns * u.depth - 8192 && Short(u, r, c)
  {
    run, steps := SeedingRun(u, s, u.conns);
    SeedingLoss(u, run, steps, u.conns);
    c := PoolTooSmall(u, run, steps, u.conns);
  }
}
