/** What the invariant says about every run of client, channels and server. */
module PipelineTheorems {
  import opened Wire
  import opened ServerParse
  import opened LoadgenCore
  import opened SendPool
  import opened Pipeline
  import opened PipelineProof

  /** End-to-end conservation: at every moment of every run, each request transmitted on a
      connection is in the request channel or the server's buffer, or its reply is in the reply
      channel or the client's buffer, or it is counted; no error is ever counted, the server
      never drops a connection, and the reported total is the sum over the connections. */
  lemma EndToEndConservation(u: Setup, run: seq<System>, steps: seq<Step>, n: nat, c: nat)
    requires IsRun(u, run, steps) && n < |run| && c < u.conns
    ensures c < |run[n].client.conns| && c < |run[n].links|
    ensures var k, l := run[n].client.conns[c], run[n].links[c];
            && l.server.Live?
            && Uniform(l.server.rest + l.requests, RequestPayload(u), 256)
            && Uniform(ReplyBytes(k, l), ReplyPayload(u), 64)
            && l.sent == FrameCount(l.server.rest + l.requests, 256)
                       + FrameCount(ReplyBytes(k, l), 64) + k.completed
    ensures run[n].client.errors == 0 && run[n].client.completed == TotalCompleted(run[n].client.conns)
  {
    RunInv(u, run, steps, n);
    assert ConnOk(u, run[n], c);
  }

  /** A connection never has two receives in the ring; the one it may have targets the bytes
      right behind the accumulated ones, so draining never moves bytes under it; after every
      drain less than one reply is left, so the buffer never fills up. */
  lemma ReceiveBufferIsSafe(u: Setup, run: seq<System>, steps: seq<Step>, n: nat, i: nat, j: nat)
    requires IsRun(u, run, steps) && n < |run| && i < |run[n].client.ring| && j < |run[n].client.ring|
    requires run[n].client.ring[i].Recv? && run[n].client.ring[j].Recv?
    ensures var op := run[n].client.ring[i];
            && op.conn < |run[n].client.conns|
            && (i != j ==> op.conn != run[n].client.ring[j].conn)
            && op.ud == TagRecv(op.conn)
            && op.offset == run[n].client.conns[op.conn].rlen <= 65
            && op.room == 4096 - op.offset && op.result <= op.room
  {
    RunInv(u, run, steps, n);
    var op := run[n].client.ring[i];
    assert RecvOk(run[n].client.conns, run[n].links, op);
    assert ConnOk(u, run[n], op.conn);
    if op.conn == run[n].client.ring[j].conn {
      OnlyRecv(run[n].client.ring, i, j);
    }
  }

  /** Slots: the free stack and the pending sends partition all slots, and a send that has not
      been executed still finds its request in its slot. */
  lemma SlotsAreSafe(u: Setup, run: seq<System>, steps: seq<Step>, n: nat)
    requires IsRun(u, run, steps) && n < |run|
    ensures var c := run[n].client;
            && (forall i, j :: 0 <= i < j < |c.free| ==> c.free[i] != c.free[j])
            && (forall i, j :: 0 <= i < j < |c.ring| && c.ring[i].Send? && c.ring[j].Send? ==>
                  c.ring[i].slot != c.ring[j].slot)
            && (forall slot: nat :: slot < 8192 ==>
                  (slot in c.free <==> !exists i :: 0 <= i < |c.ring| && c.ring[i].Send? && c.ring[i].slot == slot))
            && (forall op <- c.ring :: op.Send? ==>
                  && op.conn < u.conns && op.slot < |c.pool| && op.ud == TagSend(op.conn, op.slot)
                  && (!op.executed ==> c.pool[op.slot] == Request(u)))
  {
    RunInv(u, run, steps, n);
    SlotsPartitioned(u, run[n].client);
    forall op <- run[n].client.ring ensures SendOk(u, run[n].client.pool, op) {
    }
  }

  /** Depth: once a connection is seeded `in_flight` is the depth at every completion boundary,
      and it exceeds the requests really outstanding by exactly the submissions given up. */
  lemma DepthAccounting(u: Setup, run: seq<System>, steps: seq<Step>, n: nat, c: nat)
    requires IsRun(u, run, steps) && n < |run| && c < run[n].seeded
    ensures c < |run[n].client.conns| && c < |run[n].links|
    ensures var k, l := run[n].client.conns[c], run[n].links[c];
            && k.inFlight == u.depth
            && Outstanding(CountOps(run[n].client.ring, Waiting(c)), k, l) + l.lost == u.depth
  {
    RunInv(u, run, steps, n);
    assert ConnOk(u, run[n], c);
  }

  /** The guards of the completion loop never bite: whatever completion the kernel reports, in
      whatever order, its tag decodes to an existing slot or connection with room for it. */
  lemma CompletionsAreHandled(u: Setup, run: seq<System>, steps: seq<Step>, n: nat, i: nat, gotRecv: bool)
    requires IsRun(u, run, steps) && n < |run| && run[n].seeded == u.conns
    requires i < |run[n].client.ring| && Done(run[n].client.ring[i])
    ensures exists got :: Enabled(u, run[n], Complete(i, got, gotRecv))
  {
    RunInv(u, run, steps, n);
    var s := run[n];
    var op := s.client.ring[i];
    if op.Send? {
      CompletionKeepsPool(u, s.client, i);
      assert SendOk(u, s.client.pool, op);
      assert Enabled(u, s, Complete(i, [], gotRecv));
    } else {
      RecvTag(u, s, i);
      var got := seq(AfterDrain(u, s.client.conns[op.conn], op.result).1, _ => true);
      assert Enabled(u, s, Complete(i, got, gotRecv));
    }
  }
}
