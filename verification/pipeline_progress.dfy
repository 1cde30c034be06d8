/** The pipelined client never gets stuck: while anything is outstanding on a connection, a step
    of that connection can be taken. */
module PipelineProgress {
  import opened Wire
  import opened PlayerCodec
  import opened ServerParse
  import opened LoadgenCore
  import opened SendPool
  import opened Pipeline
  import opened PipelineProof

  /** Neither the server nor the client has left a whole frame in its buffer. */
  ghost predicate Drained(k: Conn, l: Link) {
    && l.server.Live? && !NextFrame(l.server.rest, MAX_PAYLOAD).Whole?
    && k.rlen <= |k.mem| && !NextFrame(k.mem[..k.rlen], MAX_REPLY).Whole?
  }

  /** ... and a seeded connection has exactly one receive in the ring. */
  ghost predicate ConnReady(t: Tally, k: Conn, l: Link, seeded: bool) {
    Drained(k, l) && (seeded ==> t.recvs == 1)
  }

  ghost predicate Ready(u: Setup, s: System, c: nat)
    requires c < |s.client.conns| && c < |s.links|
  {
    ConnReady(TallyOf(s.client.ring, c), s.client.conns[c], s.links[c], c < s.seeded)
  }

  ghost predicate AllReady(u: Setup, s: System) {
    Sized(u, s) && forall c: nat :: c < u.conns ==> Ready(u, s, c)
  }

  /** Every receive that is submitted finds a submission entry. */
  predicate Granted(step: Step) {
    step.Seed? || step.Complete? ==> step.gotRecv
  }

  lemma OneReady(u: Setup, s: System, r: System, cid: nat)
    requires AllReady(u, s) && OthersSame(u, s, r, cid) && (cid < u.conns ==> Ready(u, r, cid))
    ensures AllReady(u, r)
  {
    forall c: nat | c < u.conns ensures Ready(u, r, c) {
      assert c != cid ==> Ready(u, s, c);
    }
  }

  // ----- every step keeps it -----

  lemma SeedReady(u: Setup, s: System, got: seq<bool>)
    requires Inv(u, s) && AllReady(u, s) && Enabled(u, s, Seed(got, true))
    ensures AllReady(u, SeedConn(u, s, got, true))
  {
    var cid, r := s.seeded, SeedConn(u, s, got, true);
    var c1, failed := Refill(u, s.client, cid, got), Failures(u, s.client, cid, got);
    SeedStages(u, s, got, true);
    SeedStepConn(u, s, c1, r, true, failed, cid);
    assert ConnOk(u, s, cid) && Ready(u, s, cid);
    OneReady(u, s, r, cid);
  }

  lemma TransmitReady(u: Setup, s: System, i: nat)
    requires AllReady(u, s) && Enabled(u, s, Transmit(i))
    ensures AllReady(u, TransmitOp(u, s, i))
  {
    var op, r := s.client.ring[i], TransmitOp(u, s, i);
    TallyUpdate(s.client.ring, i, op.(executed := true));
    forall c: nat | c < u.conns ensures Ready(u, r, c) {
      assert Ready(u, s, c);
    }
  }

  /** A server that has read keeps no whole frame. */
  lemma ParseLeavesNoFrame(s: seq<byte>)
    ensures Parse(s).outcome.Live? ==> !NextFrame(Parse(s).outcome.rest, MAX_PAYLOAD).Whole?
  {
    TakenExplains(s);
  }

  lemma ServeReady(u: Setup, s: System, conn: nat, n: nat)
    requires Inv(u, s) && AllReady(u, s) && Enabled(u, s, Serve(conn, n))
    ensures AllReady(u, Apply(u, s, Serve(conn, n)))
  {
    var r := Apply(u, s, Serve(conn, n));
    ParseLeavesNoFrame(s.links[conn].server.rest + s.links[conn].requests[..n]);
    ServeInv(u, s, conn, n);
    assert ConnOk(u, r, conn) && Ready(u, s, conn);
    OneReady(u, s, r, conn);
  }

  lemma LandReady(u: Setup, s: System, i: nat, n: nat)
    requires Inv(u, s) && AllReady(u, s) && Enabled(u, s, Land(i, n))
    ensures AllReady(u, LandOp(u, s, i, n))
  {
    var op, r := s.client.ring[i], LandOp(u, s, i, n);
    var k := s.client.conns[op.conn];
    TallyUpdate(s.client.ring, i, op.(result := n));
    assert RecvOk(s.client.conns, s.links, op) && Ready(u, s, op.conn);
    assert r.client.conns[op.conn].mem[..k.rlen] == k.mem[..k.rlen];
    OneReady(u, s, r, op.conn);
  }

  lemma CompleteSendReady(u: Setup, s: System, i: nat, got: seq<bool>, gotRecv: bool)
    requires Inv(u, s) && AllReady(u, s) && Enabled(u, s, Complete(i, got, gotRecv)) && s.client.ring[i].Send?
    ensures AllReady(u, CompleteOp(u, s, i, got, gotRecv))
  {
    var r := CompleteOp(u, s, i, got, gotRecv);
    assert SendOk(u, s.client.pool, s.client.ring[i]);
    CompletionKeepsPool(u, s.client, i);
    TallyRemove(s.client.ring, i);
    forall c: nat | c < u.conns ensures Ready(u, r, c) {
      assert Ready(u, s, c);
      assert TallyOf(s.client.ring, c) == TallyPlus(TallyOf(r.client.ring, c), s.client.ring[i], c);
    }
  }

  /** A drained buffer holds no whole frame. */
  lemma DrainLeavesNoFrame(u: Setup, k: Conn, res: nat)
    requires k.rlen + res <= |k.mem|
    ensures var k' := AfterDrain(u, k, res).0; k'.rlen <= |k'.mem| && !NextFrame(k'.mem[..k'.rlen], MAX_REPLY).Whole?
  {
    DrainSplits(Tag(u.codec), k.mem, k.rlen + res);
    TailIsNotWhole(k.mem[..k.rlen + res], MAX_REPLY);
  }

  lemma CompleteRecvReady(u: Setup, s: System, i: nat, got: seq<bool>)
    requires Inv(u, s) && AllReady(u, s) && Enabled(u, s, Complete(i, got, true)) && s.client.ring[i].Recv?
    ensures AllReady(u, CompleteOp(u, s, i, got, true))
  {
    var cid, r := s.client.ring[i].conn, CompleteOp(u, s, i, got, true);
    var c3, failed := RecvStages(u, s, i, got, true);
    TakeRecv(u, s, i);
    RecvStepTally(u, s, i, c3, r, |got|, failed, true);
    RecvStepConn(u, s, i, c3, r, |got|, failed, true, cid);
    DrainedRoom(u, s, cid);
    DrainLeavesNoFrame(u, s.client.conns[cid], s.links[cid].landed);
    assert Ready(u, s, cid);
    OneReady(u, s, r, cid);
  }

  lemma StepReady(u: Setup, s: System, step: Step)
    requires Inv(u, s) && AllReady(u, s) && Enabled(u, s, step) && Granted(step)
    ensures AllReady(u, Apply(u, s, step))
  {
    match step
    case Seed(got, _) => SeedReady(u, s, got);
    case Transmit(i) => TransmitReady(u, s, i);
    case Serve(conn, n) => ServeReady(u, s, conn, n);
    case Land(i, n) => LandReady(u, s, i, n);
    case Complete(i, got, gotRecv) =>
      if s.client.ring[i].Send? {
        CompleteSendReady(u, s, i, got, gotRecv);
      } else {
        CompleteRecvReady(u, s, i, got);
      }
  }

  lemma InitReady(u: Setup, s: System)
    requires Init(u, s)
    ensures AllReady(u, s)
  {
    forall c: nat | c < u.conns ensures Ready(u, s, c) {
      assert s.client.conns[c] in s.client.conns && s.links[c] in s.links;
    }
  }

  lemma {:induction false} RunReady(u: Setup, run: seq<System>, steps: seq<Step>, n: nat)
    requires IsRun(u, run, steps) && n < |run| && forall i :: 0 <= i < n ==> Granted(steps[i])
    ensures AllReady(u, run[n])
  {
    if n == 0 {
      InitReady(u, run[0]);
    } else {
      RunReady(u, run, steps, n - 1);
      RunInv(u, run, steps, n - 1);
      StepReady(u, run[n - 1], steps[n - 1]);
    }
  }

  // ----- progress -----

  /** The step is one of connection c. */
  predicate Concerns(s: System, step: Step, c: nat) {
    match step
    case Seed(_, _) => false
    case Transmit(i) => i < |s.client.ring| && s.client.ring[i].conn == c
    case Serve(conn, _) => conn == c
    case Land(i, _) => i < |s.client.ring| && s.client.ring[i].conn == c
    case Complete(i, _, _) => i < |s.client.ring| && s.client.ring[i].conn == c
  }

  lemma NoFrameNoCount(s: seq<byte>, limit: nat)
    requires !NextFrame(s, limit).Whole?
    ensures FrameCount(s, limit) == 0
  {
  }

  /** Replies on their way: they can land, or what has landed can be handled. */
  lemma ReceiveProgress(u: Setup, s: System, c: nat) returns (step: Step)
    requires Inv(u, s) && AllReady(u, s) && s.seeded == u.conns && c < u.conns
    requires Unread(s.client.conns[c], s.links[c]) > 0
    ensures Enabled(u, s, step) && Concerns(s, step, c)
  {
    var k, l := s.client.conns[c], s.links[c];
    assert ConnOk(u, s, c) && Ready(u, s, c);
    var i := CountFinds(s.client.ring, RecvsOf(c));
    assert RecvOk(s.client.conns, s.links, s.client.ring[i]);
    RecvTag(u, s, i);
    if l.landed > 0 {
      step := Complete(i, seq(AfterDrain(u, k, l.landed).1, _ => true), true);
    } else {
      if l.replies == [] {
        assert ReplyBytes(k, l) == k.mem[..k.rlen];
        NoFrameNoCount(k.mem[..k.rlen], MAX_REPLY);
      }
      step := Land(i, 1);
    }
  }

  /** While anything is outstanding on a connection, one of its steps is enabled. */
  lemma SomethingEnabled(u: Setup, s: System, c: nat) returns (step: Step)
    requires Inv(u, s) && AllReady(u, s) && s.seeded == u.conns && c < u.conns
    requires Outstanding(CountOps(s.client.ring, Waiting(c)), s.client.conns[c], s.links[c]) > 0
    ensures Enabled(u, s, step) && Concerns(s, step, c)
  {
    var l := s.links[c];
    assert ConnOk(u, s, c) && Ready(u, s, c);
    if CountOps(s.client.ring, Waiting(c)) > 0 {
      var i := CountFinds(s.client.ring, Waiting(c));
      assert SendOk(u, s.client.pool, s.client.ring[i]);
      step := Transmit(i);
    } else if l.requests != [] {
      step := Serve(c, 1);
    } else {
      assert l.server.rest + l.requests == l.server.rest;
      NoFrameNoCount(l.server.rest, MAX_PAYLOAD);
      step := ReceiveProgress(u, s, c);
    }
  }

  /** In every reachable state after seeding, if every receive found a submission entry: whatever
      is outstanding on a connection, a step of that connection can be taken. */
  lemma Progress(u: Setup, run: seq<System>, steps: seq<Step>, n: nat, c: nat)
    requires IsRun(u, run, steps) && n < |run| && (forall i :: 0 <= i < n ==> Granted(steps[i]))
    requires run[n].seeded == u.conns && c < u.conns && c < |run[n].client.conns| && c < |run[n].links|
    requires Outstanding(CountOps(run[n].client.ring, Waiting(c)), run[n].client.conns[c], run[n].links[c]) > 0
    ensures exists step :: Enabled(u, run[n], step) && Concerns(run[n], step, c)
  {
    RunInv(u, run, steps, n);
    RunReady(u, run, steps, n);
    var step := SomethingEnabled(u, run[n], c);
  }

  // ----- without a receive -----

  /** A seeded connection without a receive in the ring, with this many completions. */
  ghost predicate Deaf(s: System, c: nat, completed: nat) {
    && c < s.seeded && c < |s.client.conns| && TallyOf(s.client.ring, c).recvs == 0
    && s.client.conns[c].completed == completed
  }

  lemma DeafSame(u: Setup, s: System, r: System, cid: nat, c: nat, completed: nat)
    requires OthersSame(u, s, r, cid) && Deaf(s, c, completed) && c != cid && s.seeded <= r.seeded && c < u.conns
    ensures Deaf(r, c, completed)
  {
  }

  lemma DeafSeed(u: Setup, s: System, got: seq<bool>, gotRecv: bool, c: nat, completed: nat)
    requires Inv(u, s) && Enabled(u, s, Seed(got, gotRecv)) && Deaf(s, c, completed)
    ensures Deaf(SeedConn(u, s, got, gotRecv), c, completed)
  {
    var c1, failed := Refill(u, s.client, s.seeded, got), Failures(u, s.client, s.seeded, got);
    var r := SeedConn(u, s, got, gotRecv);
    SeedStages(u, s, got, gotRecv);
    SeedStepConn(u, s, c1, r, gotRecv, failed, s.seeded);
    DeafSame(u, s, r, s.seeded, c, completed);
  }

  lemma DeafSend(u: Setup, s: System, i: nat, got: seq<bool>, gotRecv: bool, c: nat, completed: nat)
    requires Inv(u, s) && Enabled(u, s, Complete(i, got, gotRecv)) && s.client.ring[i].Send? && Deaf(s, c, completed)
    ensures Deaf(CompleteOp(u, s, i, got, gotRecv), c, completed)
  {
    assert SendOk(u, s.client.pool, s.client.ring[i]);
    CompletionKeepsPool(u, s.client, i);
    TallyRemove(s.client.ring, i);
    var r := CompleteOp(u, s, i, got, gotRecv);
    assert TallyOf(s.client.ring, c) == TallyPlus(TallyOf(r.client.ring, c), s.client.ring[i], c);
  }

  lemma DeafRecv(u: Setup, s: System, i: nat, got: seq<bool>, gotRecv: bool, c: nat, completed: nat)
    requires Inv(u, s) && Enabled(u, s, Complete(i, got, gotRecv)) && s.client.ring[i].Recv? && Deaf(s, c, completed)
    ensures Deaf(CompleteOp(u, s, i, got, gotRecv), c, completed)
  {
    var cid, r := s.client.ring[i].conn, CompleteOp(u, s, i, got, gotRecv);
    CountMember(s.client.ring, i, RecvsOf(cid));
    var c3, failed := RecvStages(u, s, i, got, gotRecv);
    RecvStepTally(u, s, i, c3, r, |got|, failed, gotRecv);
    DeafSame(u, s, r, cid, c, completed);
  }

  /** Nothing submits a receive but the handling of one. */
  lemma DeafStep(u: Setup, s: System, step: Step, c: nat, completed: nat)
    requires Inv(u, s) && Enabled(u, s, step) && Deaf(s, c, completed)
    ensures Deaf(Apply(u, s, step), c, completed)
  {
    match step
    case Seed(got, gotRecv) => DeafSeed(u, s, got, gotRecv, c, completed);
    case Transmit(i) => TallyUpdate(s.client.ring, i, s.client.ring[i].(executed := true));
    case Serve(_, _) =>
    case Land(i, n) => TallyUpdate(s.client.ring, i, s.client.ring[i].(result := n));
    case Complete(i, got, gotRecv) =>
      if s.client.ring[i].Send? {
        DeafSend(u, s, i, got, gotRecv, c, completed);
      } else {
        DeafRecv(u, s, i, got, gotRecv, c, completed);
      }
  }

  /** So a connection whose receive was once refused a submission entry completes nothing more,
      whatever is outstanding on it. */
  lemma {:induction false} DeafForever(u: Setup, run: seq<System>, steps: seq<Step>, m: nat, n: nat, c: nat,
      completed: nat)
    requires IsRun(u, run, steps) && m <= n < |run| && Deaf(run[m], c, completed)
    ensures Deaf(run[n], c, completed)
  {
    if m < n {
      DeafForever(u, run, steps, m, n - 1, c, completed);
      RunInv(u, run, steps, n - 1);
      DeafStep(u, run[n - 1], steps[n - 1], c, completed);
    }
  }

  /** Refusing the receive of a connection that is being seeded makes it such a connection. */
  lemma RefusedReceiveDeafens(u: Setup, s: System, got: seq<bool>)
    requires Inv(u, s) && Enabled(u, s, Seed(got, false))
    ensures Deaf(SeedConn(u, s, got, false), s.seeded, s.client.conns[s.seeded].completed)
  {
    var c1, failed := Refill(u, s.client, s.seeded, got), Failures(u, s.client, s.seeded, got);
    SeedStages(u, s, got, false);
    SeedStepConn(u, s, c1, SeedConn(u, s, got, false), false, failed, s.seeded);
    assert ConnOk(u, s, s.seeded);
  }
}
