/** Every step of the distributed system preserves the invariant, and what follows for whole runs. */
module PipelineProof {
  import opened Wire
  import opened ServerParse
  import opened LoadgenCore
  import opened SendPool
  import opened Pipeline

  /** The program starts for every number of connections up to 4096 and every depth. */
  lemma InitPossible(u: Setup) returns (s: System)
    requires u.conns <= 4096
    ensures Init(u, s)
  {
    var free, conns := seq(8192, i => i), seq(u.conns, _ => Conn(0, seq(4096, _ => 0), 0, 0));
    var client := Client(free, seq(8192, _ => []), [], conns, 0, 0);
    s := System(client, seq(u.conns, _ => Link([], Live([]), [], 0, 0, 0, 0)), 0);
  }

  lemma InitInv(u: Setup, s: System)
    requires Init(u, s)
    ensures Inv(u, s)
  {
    FreshPool(u, s.client);
    assert SplitFrames([], MAX_PAYLOAD) == Split([], []) == SplitFrames([], MAX_REPLY);
    forall c: nat | c < u.conns ensures ConnOk(u, s, c) {
      assert s.client.conns[c] in s.client.conns && s.links[c] in s.links;
      assert ReplyBytes(s.client.conns[c], s.links[c]) == [];
    }
    NothingCompleted(s.client.conns);
  }

  lemma {:induction false} NothingCompleted(conns: seq<Conn>)
    requires forall k <- conns :: k.completed == 0
    ensures TotalCompleted(conns) == 0
  {
    if conns != [] {
      NothingCompleted(conns[..|conns| - 1]);
    }
  }

  lemma {:induction false} TotalUpdate(conns: seq<Conn>, i: nat, k: Conn)
    requires i < |conns|
    ensures TotalCompleted(conns[i := k]) == TotalCompleted(conns) - conns[i].completed + k.completed
  {
    var n := |conns| - 1;
    if i < n {
      assert conns[i := k][..n] == conns[..n][i := k];
      TotalUpdate(conns[..n], i, k);
    } else {
      assert conns[i := k][..n] == conns[..n];
    }
  }

  // ----- frame: one connection changes at a time -----

  /** Everything that `ConnOk` looks at is the same for every connection but `cid`. */
  ghost predicate OthersSame(u: Setup, s: System, r: System, cid: nat) {
    && Sized(u, s) && Sized(u, r)
    && forall c: nat :: c < u.conns && c != cid ==>
         && TallyOf(r.client.ring, c) == TallyOf(s.client.ring, c)
         && r.client.conns[c] == s.client.conns[c] && r.links[c] == s.links[c] && (c < r.seeded) == (c < s.seeded)
  }

  lemma OneConnChanged(u: Setup, s: System, r: System, cid: nat)
    requires ConnsOk(u, s) && OthersSame(u, s, r, cid)
    requires cid < u.conns ==> ConnOk(u, r, cid)
    ensures ConnsOk(u, r)
  {
    forall c: nat | c < u.conns ensures ConnOk(u, r, c) {
      if c != cid {
        assert ConnOk(u, s, c);
      }
    }
  }

  // ----- effects of submitting -----

  /** `after` is `before` with `n` more sends of connection `cid`. */
  ghost predicate SendsAdded(before: seq<Op>, after: seq<Op>, cid: nat, n: nat) {
    && (forall op <- after :: op in before || op.Send?)
    && TallyOf(after, cid) == Tally(TallyOf(before, cid).waiting + n, TallyOf(before, cid).sends + n,
        TallyOf(before, cid).recvs)
    && (forall d: nat :: d != cid ==> TallyOf(after, d) == TallyOf(before, d))
  }

  /** `r` is `c` after `n` turns of refilling of which `failed` submitted nothing. */
  ghost predicate Refilled(u: Setup, c: Client, r: Client, cid: nat, n: nat, failed: nat) {
    && PoolInv(u, r) && failed <= n && SendsAdded(c.ring, r.ring, cid, n - failed)
    && |r.free| + n - failed == |c.free|
    && cid < |c.conns| && r.conns == c.conns[cid := c.conns[cid].(inFlight := c.conns[cid].inFlight + n)]
    && r.errors == c.errors && r.completed == c.completed
  }

  lemma SubmitOneEffect(u: Setup, c: Client, cid: nat, gotSqe: bool, r: Client, failed: nat)
    requires PoolInv(u, c) && cid < u.conns && r == SubmitOne(u, c, cid, gotSqe)
    requires failed == if c.free == [] || !gotSqe then 1 else 0
    ensures Refilled(u, c, r, cid, 1, failed)
  {
    SubmitKeepsPool(u, c, cid, gotSqe);
    if c.free != [] && gotSqe {
      var slot := c.free[|c.free| - 1];
      TallyPush(c.ring, Send(cid, slot, TagSend(cid, slot), false));
    }
  }

  lemma RefilledTwice(u: Setup, a: Client, b: Client, c: Client, cid: nat,
                      m: nat, m': nat, n: nat, n': nat, turns: nat, failed: nat)
    requires Refilled(u, a, b, cid, m, m') && Refilled(u, b, c, cid, n, n') && turns == m + n && failed == m' + n'
    ensures Refilled(u, a, c, cid, turns, failed)
  {
  }

  lemma {:induction false} RefillSteps(u: Setup, c: Client, cid: nat, got: seq<bool>, r: Client, n: nat, failed: nat)
    requires PoolInv(u, c) && cid < u.conns && n == |got|
    requires r == Refill(u, c, cid, got) && failed == Failures(u, c, cid, got)
    ensures Refilled(u, c, r, cid, n, failed)
    decreases |got|
  {
    if got != [] {
      var c1, f1 := SubmitOne(u, c, cid, got[0]), if c.free == [] || !got[0] then 1 else 0;
      SubmitOneEffect(u, c, cid, got[0], c1, f1);
      RefillSplit(u, c, cid, got, c1, f1);
      var rest, n2, f2 := got[1..], n - 1, failed - f1;
      RefillSteps(u, c1, cid, rest, r, n2, f2);
      RefilledTwice(u, c, c1, r, cid, 1, f1, n2, f2, n, failed);
    } else {
      RefilledNot(u, c, cid, r, n, failed);
    }
  }

  /** Refilling adds one send per turn that does not fail, and nothing else. */
  lemma RefillEffect(u: Setup, c: Client, cid: nat, got: seq<bool>)
    requires PoolInv(u, c) && cid < u.conns
    ensures Refilled(u, c, Refill(u, c, cid, got), cid, |got|, Failures(u, c, cid, got))
  {
    RefillSteps(u, c, cid, got, Refill(u, c, cid, got), |got|, Failures(u, c, cid, got));
  }

  lemma RefilledNot(u: Setup, c: Client, cid: nat, r: Client, n: nat, failed: nat)
    requires PoolInv(u, c) && cid < u.conns && r == c && n == failed == 0
    ensures Refilled(u, c, r, cid, n, failed)
  {
    assert c.conns[cid := c.conns[cid]] == c.conns;
  }

  lemma RefillSplit(u: Setup, c: Client, cid: nat, got: seq<bool>, c1: Client, failed: nat)
    requires Shaped(c) && cid < |c.conns| && got != [] && c1 == SubmitOne(u, c, cid, got[0])
    requires failed == if c.free == [] || !got[0] then 1 else 0
    ensures Refill(u, c, cid, got) == Refill(u, c1, cid, got[1..])
    ensures Failures(u, c, cid, got) == failed + Failures(u, c1, cid, got[1..])
  {
  }

  /** `r` is `c` with, at most, a receive into the tail of the accumulated bytes added. */
  ghost predicate RecvSubmitted(c: Client, r: Client, cid: nat, gotSqe: bool) {
    && cid < |c.conns| && r.conns == c.conns && r.errors == c.errors && r.completed == c.completed
    && c.conns[cid].rlen < RECV_BUF_SIZE
    && (forall op <- r.ring ::
          || op in c.ring
          || op == Recv(cid, c.conns[cid].rlen, RECV_BUF_SIZE - c.conns[cid].rlen, TagRecv(cid), 0))
    && (forall d: nat :: TallyOf(r.ring, d) ==
          if d == cid && gotSqe then TallyOf(c.ring, d).(recvs := TallyOf(c.ring, d).recvs + 1) else TallyOf(c.ring, d))
  }

  /** The fall-back to offset 0 is not taken while the buffer has room. */
  lemma SubmitRecvEffect(u: Setup, c: Client, cid: nat, gotSqe: bool)
    requires PoolInv(u, c) && cid < u.conns && c.conns[cid].rlen < RECV_BUF_SIZE
    ensures PoolInv(u, SubmitRecv(c, cid, gotSqe))
    ensures RecvSubmitted(c, SubmitRecv(c, cid, gotSqe), cid, gotSqe)
  {
    if gotSqe {
      var rlen := c.conns[cid].rlen;
      var op := Recv(cid, rlen, RECV_BUF_SIZE - rlen, TagRecv(cid), 0);
      assert SubmitRecv(c, cid, true) == c.(ring := c.ring + [op]);
      TallyPush(c.ring, op);
      RecvKeepsPool(u, c, op);
    } else {
      assert SubmitRecv(c, cid, false) == c;
    }
  }

  lemma RecvKeepsPool(u: Setup, c: Client, op: Op)
    requires PoolInv(u, c) && op.Recv?
    ensures PoolInv(u, c.(ring := c.ring + [op]))
  {
    PushRecvSlots(c.ring, op);
    SameSlotsKeepHolders(c.free, c.ring, c.ring + [op]);
  }

  // ----- seeding -----

  ghost predicate SeedStep(u: Setup, s: System, c1: Client, r: System, gotRecv: bool, failed: nat) {
    && Sized(u, s) && s.seeded < u.conns
    && Refilled(u, s.client, c1, s.seeded, u.depth, failed)
    && RecvSubmitted(c1, r.client, s.seeded, gotRecv)
    && r.links == s.links[s.seeded := s.links[s.seeded].(lost := s.links[s.seeded].lost + failed)]
    && r.seeded == s.seeded + 1
  }

  lemma SeedStepConn(u: Setup, s: System, c1: Client, r: System, gotRecv: bool, failed: nat, cid: nat)
    requires SeedStep(u, s, c1, r, gotRecv, failed) && cid == s.seeded
    ensures Sized(u, r) && OthersSame(u, s, r, cid)
    ensures r.client.conns[cid] == s.client.conns[cid].(inFlight := s.client.conns[cid].inFlight + u.depth)
    ensures r.links[cid] == s.links[cid].(lost := s.links[cid].lost + failed)
    ensures var t := TallyOf(s.client.ring, cid);
            TallyOf(r.client.ring, cid) ==
            Tally(t.waiting + u.depth - failed, t.sends + u.depth - failed, t.recvs + (if gotRecv then 1 else 0))
  {
  }

  lemma SeedConns(u: Setup, s: System, c1: Client, r: System, gotRecv: bool, failed: nat)
    requires ConnsOk(u, s) && SeedStep(u, s, c1, r, gotRecv, failed)
    ensures ConnsOk(u, r)
  {
    var cid := s.seeded;
    assert ConnOk(u, s, cid);
    SeedStepConn(u, s, c1, r, gotRecv, failed, cid);
    SeedConnInv(u, TallyOf(r.client.ring, cid), s.client.conns[cid], s.links[cid], failed);
    OneConnChanged(u, s, r, cid);
  }

  lemma SeedRecvs(u: Setup, s: System, c1: Client, r: System, gotRecv: bool, failed: nat)
    requires SeedStep(u, s, c1, r, gotRecv, failed) && RecvsOk(s) && s.links[s.seeded].landed == 0
    ensures RecvsOk(r)
  {
    forall o <- r.client.ring ensures RecvOk(r.client.conns, r.links, o) {
      assert o in s.client.ring ==> RecvOk(s.client.conns, s.links, o);
    }
  }

  lemma SeedRefilled(u: Setup, s: System, got: seq<bool>, cid: nat)
    requires Inv(u, s) && cid == s.seeded < u.conns && |got| == u.depth && Shaped(s.client)
    ensures Refilled(u, s.client, Refill(u, s.client, cid, got), cid, u.depth, Failures(u, s.client, cid, got))
    ensures Refill(u, s.client, cid, got).conns[cid].rlen < RECV_BUF_SIZE
  {
    assert ConnOk(u, s, cid);
    RefillEffect(u, s.client, cid, got);
  }

  lemma SeedStages(u: Setup, s: System, got: seq<bool>, gotRecv: bool)
    requires Inv(u, s) && Enabled(u, s, Seed(got, gotRecv))
    ensures var c1, failed := Refill(u, s.client, s.seeded, got), Failures(u, s.client, s.seeded, got);
            var r := SeedConn(u, s, got, gotRecv);
            SeedStep(u, s, c1, r, gotRecv, failed) && PoolInv(u, r.client)
  {
    var cid := s.seeded;
    SeedRefilled(u, s, got, cid);
    SubmitRecvEffect(u, Refill(u, s.client, cid, got), cid, gotRecv);
  }

  lemma SeedInv(u: Setup, s: System, got: seq<bool>, gotRecv: bool)
    requires Inv(u, s) && Enabled(u, s, Seed(got, gotRecv))
    ensures Inv(u, SeedConn(u, s, got, gotRecv))
  {
    var cid, r := s.seeded, SeedConn(u, s, got, gotRecv);
    var c1, failed := Refill(u, s.client, cid, got), Failures(u, s.client, cid, got);
    assert ConnOk(u, s, cid);
    SeedStages(u, s, got, gotRecv);
    SeedConns(u, s, c1, r, gotRecv, failed);
    SeedRecvs(u, s, c1, r, gotRecv, failed);
    TotalUpdate(s.client.conns, cid, c1.conns[cid]);
  }

  // ----- the kernel transmits -----

  /** A send that is executed changes nothing that is known of the other connections. */
  lemma TransmitOthers(u: Setup, s: System, i: nat, r: System, conn: nat)
    requires ConnsOk(u, s) && Enabled(u, s, Transmit(i)) && r == TransmitOp(u, s, i) && conn == s.client.ring[i].conn
    ensures OthersSame(u, s, r, conn)
    ensures var t := TallyOf(s.client.ring, conn);
            t.waiting > 0 && TallyOf(r.client.ring, conn) == t.(waiting := t.waiting - 1)
  {
    TallyUpdate(s.client.ring, i, s.client.ring[i].(executed := true));
    CountMember(s.client.ring, i, Waiting(conn));
  }

  lemma TransmitConns(u: Setup, s: System, i: nat)
    requires ConnsOk(u, s) && Enabled(u, s, Transmit(i))
    requires s.client.pool[s.client.ring[i].slot] == Request(u)
    ensures ConnsOk(u, TransmitOp(u, s, i))
  {
    var conn, r := s.client.ring[i].conn, TransmitOp(u, s, i);
    TransmitOthers(u, s, i, r, conn);
    assert ConnOk(u, s, conn);
    TransmitConnInv(u, TallyOf(s.client.ring, conn), s.client.conns[conn], s.links[conn], conn < s.seeded);
    OneConnChanged(u, s, r, conn);
  }

  lemma TransmitRecvs(u: Setup, s: System, i: nat)
    requires RecvsOk(s) && Enabled(u, s, Transmit(i))
    ensures RecvsOk(TransmitOp(u, s, i))
  {
    var r := TransmitOp(u, s, i);
    forall o <- r.client.ring ensures RecvOk(r.client.conns, r.links, o) {
      assert o == s.client.ring[i].(executed := true) || RecvOk(s.client.conns, s.links, o);
    }
  }

  lemma TransmitInv(u: Setup, s: System, i: nat)
    requires Inv(u, s) && Enabled(u, s, Transmit(i))
    ensures Inv(u, TransmitOp(u, s, i))
  {
    var op := s.client.ring[i];
    assert SendOk(u, s.client.pool, op);
    TransmitConns(u, s, i);
    TransmitRecvs(u, s, i);
    UpdateSlots(s.client.ring, i, op.(executed := true));
    SameSlotsKeepHolders(s.client.free, s.client.ring, s.client.ring[i := op.(executed := true)]);
  }

  // ----- the server reads -----

  lemma ServeInv(u: Setup, s: System, conn: nat, n: nat)
    requires Inv(u, s) && Enabled(u, s, Serve(conn, n))
    ensures Inv(u, Apply(u, s, Serve(conn, n)))
  {
    var r := Apply(u, s, Serve(conn, n));
    assert ConnOk(u, s, conn);
    ServeConnInv(u, TallyOf(s.client.ring, conn), s.client.conns[conn], s.links[conn], conn < s.seeded, n);
    OneConnChanged(u, s, r, conn);
    forall o <- r.client.ring ensures RecvOk(r.client.conns, r.links, o) {
      assert RecvOk(s.client.conns, s.links, o);
    }
  }

  // ----- the kernel receives -----

  /** A connection has at most one receive in the ring. */
  lemma OnlyRecv(ring: seq<Op>, i: nat, j: nat)
    requires i < |ring| && j < |ring| && ring[i].Recv? && ring[j].Recv? && ring[i].conn == ring[j].conn
    requires TallyOf(ring, ring[i].conn).recvs <= 1
    ensures i == j
  {
    if i < j {
      CountTwo(ring, i, j, RecvsOf(ring[i].conn));
    } else if j < i {
      CountTwo(ring, j, i, RecvsOf(ring[i].conn));
    }
  }

  /** A receive that lands changes nothing that is known of the other connections. */
  lemma LandOthers(u: Setup, s: System, i: nat, n: nat, r: System, conn: nat)
    requires ConnsOk(u, s) && Enabled(u, s, Land(i, n)) && r == LandOp(u, s, i, n) && conn == s.client.ring[i].conn
    ensures OthersSame(u, s, r, conn)
    ensures TallyOf(r.client.ring, conn) == TallyOf(s.client.ring, conn) && TallyOf(s.client.ring, conn).recvs > 0
  {
    TallyUpdate(s.client.ring, i, s.client.ring[i].(result := n));
    CountMember(s.client.ring, i, RecvsOf(conn));
  }

  lemma LandHere(u: Setup, s: System, i: nat, n: nat, r: System, conn: nat)
    requires ConnsOk(u, s) && RecvsOk(s) && Enabled(u, s, Land(i, n)) && r == LandOp(u, s, i, n)
            && conn == s.client.ring[i].conn
    requires Sized(u, r) && TallyOf(r.client.ring, conn) == TallyOf(s.client.ring, conn)
            && TallyOf(s.client.ring, conn).recvs > 0
    ensures ConnOk(u, r, conn)
  {
    assert RecvOk(s.client.conns, s.links, s.client.ring[i]) && ConnOk(u, s, conn);
    LandConnInv(u, TallyOf(s.client.ring, conn), s.client.conns[conn], s.links[conn], conn < s.seeded, n);
  }

  lemma LandConns(u: Setup, s: System, i: nat, n: nat)
    requires ConnsOk(u, s) && RecvsOk(s) && Enabled(u, s, Land(i, n))
    ensures ConnsOk(u, LandOp(u, s, i, n))
  {
    var conn, r := s.client.ring[i].conn, LandOp(u, s, i, n);
    LandOthers(u, s, i, n, r, conn);
    LandHere(u, s, i, n, r, conn);
    OneConnChanged(u, s, r, conn);
  }

  lemma LandRecvs(u: Setup, s: System, i: nat, n: nat)
    requires ConnsOk(u, s) && RecvsOk(s) && Enabled(u, s, Land(i, n))
    ensures RecvsOk(LandOp(u, s, i, n))
  {
    var op, r, ring := s.client.ring[i], LandOp(u, s, i, n), s.client.ring;
    assert RecvOk(s.client.conns, s.links, op);
    assert ConnOk(u, s, op.conn);
    forall j | 0 <= j < |ring| ensures RecvOk(r.client.conns, r.links, r.client.ring[j]) {
      assert RecvOk(s.client.conns, s.links, ring[j]);
      if j != i && ring[j].Recv? && ring[j].conn == op.conn {
        OnlyRecv(ring, i, j);
      }
    }
  }

  lemma LandInv(u: Setup, s: System, i: nat, n: nat)
    requires Inv(u, s) && Enabled(u, s, Land(i, n))
    ensures Inv(u, LandOp(u, s, i, n))
  {
    var op := s.client.ring[i];
    LandConns(u, s, i, n);
    LandRecvs(u, s, i, n);
    UpdateSlots(s.client.ring, i, op.(result := n));
    SameSlotsKeepHolders(s.client.free, s.client.ring, s.client.ring[i := op.(result := n)]);
    TotalUpdate(s.client.conns, op.conn, LandOp(u, s, i, n).client.conns[op.conn]);
  }

  // ----- the client handles a send completion -----

  /** `r` is `s` after the send at i was taken out of the ring and acknowledged. */
  ghost predicate SendDone(u: Setup, s: System, i: nat, r: System, conn: nat) {
    && Sized(u, s) && i < |s.client.ring| && Done(s.client.ring[i]) && s.client.ring[i].Send?
    && conn == s.client.ring[i].conn < u.conns
    && r.client.ring == RemoveAt(s.client.ring, i) && r.client.conns == s.client.conns && r.seeded == s.seeded
    && r.links == s.links[conn := s.links[conn].(acked := s.links[conn].acked + 1)]
  }

  lemma CompleteSendOthers(u: Setup, s: System, i: nat, r: System, conn: nat)
    requires SendDone(u, s, i, r, conn)
    ensures OthersSame(u, s, r, conn)
    ensures var t := TallyOf(s.client.ring, conn);
            t.sends > 0 && TallyOf(r.client.ring, conn) == t.(sends := t.sends - 1)
  {
    TallyRemove(s.client.ring, i);
    forall c: nat ensures TallyOf(s.client.ring, c) == TallyPlus(TallyOf(r.client.ring, c), s.client.ring[i], c) {
    }
  }

  lemma CompleteSendConns(u: Setup, s: System, i: nat, r: System, conn: nat)
    requires ConnsOk(u, s) && SendDone(u, s, i, r, conn)
    ensures ConnsOk(u, r)
  {
    CompleteSendOthers(u, s, i, r, conn);
    assert ConnOk(u, s, conn);
    AckConnInv(u, TallyOf(s.client.ring, conn), s.client.conns[conn], s.links[conn], conn < s.seeded);
    OneConnChanged(u, s, r, conn);
  }

  lemma CompleteSendInv(u: Setup, s: System, i: nat, got: seq<bool>, gotRecv: bool)
    requires Inv(u, s) && Enabled(u, s, Complete(i, got, gotRecv)) && s.client.ring[i].Send?
    ensures Inv(u, CompleteOp(u, s, i, got, gotRecv))
  {
    var r := CompleteOp(u, s, i, got, gotRecv);
    assert SendOk(u, s.client.pool, s.client.ring[i]);
    CompletionKeepsPool(u, s.client, i);
    CompleteSendConns(u, s, i, r, s.client.ring[i].conn);
    RemoveMember(s.client.ring, i);
    forall o <- r.client.ring ensures RecvOk(r.client.conns, r.links, o) {
      assert RecvOk(s.client.conns, s.links, o);
    }
  }

  // ----- the client handles a finished receive -----

  lemma RecvTag(u: Setup, s: System, i: nat)
    requires Inv(u, s) && i < |s.client.ring| && s.client.ring[i].Recv?
    ensures CanReceive(s.client, i)
    ensures var op := s.client.ring[i];
            && UdOp(op.ud) == OP_RECV && UdCid(op.ud) == op.conn < u.conns
            && op.result == s.links[op.conn].landed
  {
    var op := s.client.ring[i];
    assert RecvOk(s.client.conns, s.links, op);
    TagsDecode(op.conn, 0);
    assert ConnOk(u, s, op.conn);
  }

  /** All receives left in the ring are in order and belong to other connections. */
  ghost predicate OthersOk(s: System, ring: seq<Op>, cid: nat) {
    forall o <- ring :: RecvOk(s.client.conns, s.links, o) && (o.Recv? ==> o.conn != cid)
  }

  /** Taking a receive out of the ring leaves none for its connection. */
  lemma TakeRecv(u: Setup, s: System, i: nat)
    requires ConnsOk(u, s) && RecvsOk(s) && i < |s.client.ring| && s.client.ring[i].Recv?
    ensures OthersOk(s, RemoveAt(s.client.ring, i), s.client.ring[i].conn)
    ensures TallyOf(RemoveAt(s.client.ring, i), s.client.ring[i].conn).recvs == 0
  {
    var cid, ring := s.client.ring[i].conn, RemoveAt(s.client.ring, i);
    assert RecvOk(s.client.conns, s.links, s.client.ring[i]);
    assert ConnOk(u, s, cid);
    TallyRemove(s.client.ring, i);
    assert TallyOf(s.client.ring, cid) == TallyPlus(TallyOf(ring, cid), s.client.ring[i], cid);
    RemoveMember(s.client.ring, i);
    forall j | 0 <= j < |ring| ensures ring[j].Recv? ==> ring[j].conn != cid {
      if ring[j].Recv? && ring[j].conn == cid {
        CountMember(ring, j, RecvsOf(cid));
      }
    }
  }

  lemma ReceivedPool(u: Setup, s: System, i: nat)
    requires PoolInv(u, s.client) && CanReceive(s.client, i)
    ensures PoolInv(u, Received(u, s.client, i))
  {
    RemoveRecvSlots(s.client.ring, i);
    SameSlotsKeepHolders(s.client.free, s.client.ring, RemoveAt(s.client.ring, i));
    RemoveMember(s.client.ring, i);
  }

  /** Handling a receive, in three stages: drained (`Received`), refilled (`c3`), resubmitted (`r`). */
  ghost predicate RecvStep(u: Setup, s: System, i: nat, c3: Client, r: System, done: nat, failed: nat, gotRecv: bool) {
    && Sized(u, s) && CanReceive(s.client, i)
    && var cid := s.client.ring[i].conn;
    && UdCid(s.client.ring[i].ud) == cid < u.conns && s.client.ring[i].result == s.links[cid].landed
    && done == AfterDrain(u, s.client.conns[cid], s.links[cid].landed).1
    && Refilled(u, Received(u, s.client, i), c3, cid, done, failed)
    && RecvSubmitted(c3, r.client, cid, gotRecv)
    && r.links == s.links[cid := s.links[cid].(landed := 0, lost := s.links[cid].lost + failed)]
    && r.seeded == s.seeded == u.conns
  }

  lemma RecvStepTally(u: Setup, s: System, i: nat, c3: Client, r: System, done: nat, failed: nat, gotRecv: bool)
    requires RecvStep(u, s, i, c3, r, done, failed, gotRecv)
    ensures OthersSame(u, s, r, s.client.ring[i].conn)
    ensures var cid := s.client.ring[i].conn;
            var t, t' := TallyOf(RemoveAt(s.client.ring, i), cid), TallyOf(r.client.ring, cid);
            && t == TallyOf(s.client.ring, cid).(recvs := t.recvs)
            && t' == Tally(t.waiting + done - failed, t.sends + done - failed, t.recvs + (if gotRecv then 1 else 0))
  {
    var cid := s.client.ring[i].conn;
    TallyRemove(s.client.ring, i);
    assert TallyOf(s.client.ring, cid) == TallyPlus(TallyOf(RemoveAt(s.client.ring, i), cid), s.client.ring[i], cid);
    forall c: nat | c < u.conns && c != cid ensures TallyOf(r.client.ring, c) == TallyOf(s.client.ring, c) {
      assert TallyOf(s.client.ring, c) == TallyPlus(TallyOf(RemoveAt(s.client.ring, i), c), s.client.ring[i], c);
    }
  }

  lemma RecvStepConn(u: Setup, s: System, i: nat, c3: Client, r: System, done: nat, failed: nat, gotRecv: bool,
      cid: nat)
    requires RecvStep(u, s, i, c3, r, done, failed, gotRecv) && s.client.ring[i].conn == cid
    ensures Drainable(s.client.conns[cid].mem, s.client.conns[cid].rlen + s.links[cid].landed)
    ensures Sized(u, r)
    ensures r.client.conns[cid] ==
            AfterDrain(u, s.client.conns[cid], s.links[cid].landed).0.(inFlight := s.client.conns[cid].inFlight)
    ensures r.links[cid] == s.links[cid].(landed := 0, lost := s.links[cid].lost + failed)
  {
  }

  lemma DrainedConnInv(u: Setup, t: Tally, k: Conn, l: Link, t': Tally, k': Conn, l': Link, done: nat, failed: nat)
    requires ConnInv(u, t, k, l, true) && Drainable(k.mem, k.rlen + l.landed) && done == AfterDrain(u, k, l.landed).1
    requires t'.waiting == t.waiting + done - failed && t'.sends == t.sends + done - failed && t'.recvs <= 1
    requires k' == AfterDrain(u, k, l.landed).0.(inFlight := k.inFlight)
    requires l' == l.(landed := 0, lost := l.lost + failed)
    ensures ConnInv(u, t', k', l', true)
  {
    DrainConnInv(u, t, k, l, t', failed);
  }

  lemma RecvConnHere(u: Setup, s: System, i: nat, c3: Client, r: System, done: nat, failed: nat, gotRecv: bool,
      cid: nat)
    requires ConnsOk(u, s) && RecvsOk(s) && RecvStep(u, s, i, c3, r, done, failed, gotRecv)
            && s.client.ring[i].conn == cid
    ensures Sized(u, r) && ConnOk(u, r, cid)
  {
    TakeRecv(u, s, i);
    RecvStepTally(u, s, i, c3, r, done, failed, gotRecv);
    RecvStepConn(u, s, i, c3, r, done, failed, gotRecv, cid);
    assert ConnOk(u, s, cid);
    DrainedConnInv(u, TallyOf(s.client.ring, cid), s.client.conns[cid], s.links[cid],
                   TallyOf(r.client.ring, cid), r.client.conns[cid], r.links[cid], done, failed);
  }

  lemma RecvConns(u: Setup, s: System, i: nat, c3: Client, r: System, done: nat, failed: nat, gotRecv: bool)
    requires ConnsOk(u, s) && RecvsOk(s) && RecvStep(u, s, i, c3, r, done, failed, gotRecv)
    ensures ConnsOk(u, r)
  {
    var cid := s.client.ring[i].conn;
    RecvStepTally(u, s, i, c3, r, done, failed, gotRecv);
    RecvConnHere(u, s, i, c3, r, done, failed, gotRecv, cid);
    OneConnChanged(u, s, r, cid);
  }

  lemma RecvRecvs(u: Setup, s: System, i: nat, c3: Client, r: System, done: nat, failed: nat, gotRecv: bool)
    requires RecvStep(u, s, i, c3, r, done, failed, gotRecv)
    requires OthersOk(s, RemoveAt(s.client.ring, i), s.client.ring[i].conn)
    ensures RecvsOk(r)
  {
    forall o <- r.client.ring ensures RecvOk(r.client.conns, r.links, o) {
      assert o in RemoveAt(s.client.ring, i) ==> RecvOk(s.client.conns, s.links, o);
    }
  }

  /** `r` is `s` after the receive at i was drained, refilled (`c3`) and resubmitted. */
  ghost predicate RecvDone(s: System, cid: nat, c3: Client, failed: nat, gotRecv: bool, r: System) {
    && cid < |s.links| && cid < |c3.conns|
    && r.client == SubmitRecv(c3, cid, gotRecv)
    && r.links == s.links[cid := s.links[cid].(landed := 0, lost := s.links[cid].lost + failed)]
    && r.seeded == s.seeded
  }

  lemma CompleteRecvIs(u: Setup, s: System, i: nat, got: seq<bool>, gotRecv: bool, cid: nat, c3: Client, failed: nat)
    requires Enabled(u, s, Complete(i, got, gotRecv))
    requires UdOp(s.client.ring[i].ud) == OP_RECV && UdCid(s.client.ring[i].ud) == cid
    requires c3 == Refill(u, Received(u, s.client, i), cid, got)
            && failed == Failures(u, Received(u, s.client, i), cid, got)
    ensures RecvDone(s, cid, c3, failed, gotRecv, CompleteOp(u, s, i, got, gotRecv))
  {
  }

  lemma RecvRefilled(u: Setup, s: System, i: nat, got: seq<bool>)
    requires Inv(u, s) && i < |s.client.ring| && s.client.ring[i].Recv?
    ensures CanReceive(s.client, i)
    ensures var cid, c2 := s.client.ring[i].conn, Received(u, s.client, i);
            && cid < u.conns && UdCid(s.client.ring[i].ud) == cid && Shaped(c2)
            && Refilled(u, c2, Refill(u, c2, cid, got), cid, |got|, Failures(u, c2, cid, got))
            && Refill(u, c2, cid, got).conns[cid].rlen < RECV_BUF_SIZE
  {
    RecvTag(u, s, i);
    ReceivedPool(u, s, i);
    RefillEffect(u, Received(u, s.client, i), s.client.ring[i].conn, got);
    DrainedRoom(u, s, s.client.ring[i].conn);
  }

  lemma RecvResubmitted(u: Setup, s: System, i: nat, c3: Client, r: System, done: nat, failed: nat, gotRecv: bool,
      cid: nat)
    requires Inv(u, s) && i < |s.client.ring| && s.client.ring[i].Recv? && s.client.ring[i].conn == cid
    requires CanReceive(s.client, i) && UdCid(s.client.ring[i].ud) == cid < u.conns && s.seeded == u.conns
    requires done == AfterDrain(u, s.client.conns[cid], s.client.ring[i].result).1
    requires Refilled(u, Received(u, s.client, i), c3, cid, done, failed) && c3.conns[cid].rlen < RECV_BUF_SIZE
    requires RecvDone(s, cid, c3, failed, gotRecv, r)
    ensures PoolInv(u, r.client) && RecvStep(u, s, i, c3, r, done, failed, gotRecv)
  {
    RecvTag(u, s, i);
    SubmitRecvEffect(u, c3, cid, gotRecv);
  }

  lemma RecvStages(u: Setup, s: System, i: nat, got: seq<bool>, gotRecv: bool) returns (c3: Client, failed: nat)
    requires Inv(u, s) && Enabled(u, s, Complete(i, got, gotRecv)) && s.client.ring[i].Recv?
    ensures RecvStep(u, s, i, c3, CompleteOp(u, s, i, got, gotRecv), |got|, failed, gotRecv)
    ensures PoolInv(u, CompleteOp(u, s, i, got, gotRecv).client)
    ensures c3 == Refill(u, Received(u, s.client, i), s.client.ring[i].conn, got)
    ensures failed == Failures(u, Received(u, s.client, i), s.client.ring[i].conn, got)
  {
    RecvTag(u, s, i);
    RecvRefilled(u, s, i, got);
    var cid, c2 := s.client.ring[i].conn, Received(u, s.client, i);
    c3, failed := Refill(u, c2, cid, got), Failures(u, c2, cid, got);
    CompleteRecvIs(u, s, i, got, gotRecv, cid, c3, failed);
    RecvResubmitted(u, s, i, c3, CompleteOp(u, s, i, got, gotRecv), |got|, failed, gotRecv, cid);
  }

  lemma DrainedRoom(u: Setup, s: System, cid: nat)
    requires ConnsOk(u, s) && cid < u.conns
    ensures s.client.conns[cid].rlen + s.links[cid].landed <= |s.client.conns[cid].mem|
    ensures var (k, _, errors) := AfterDrain(u, s.client.conns[cid], s.links[cid].landed);
            k.rlen < RECV_BUF_SIZE && errors == 0
  {
    assert ConnOk(u, s, cid);
    DrainFlow(u, s.client.conns[cid], s.links[cid]);
  }

  lemma RecvTotals(u: Setup, s: System, i: nat, c3: Client, r: System, done: nat, failed: nat, gotRecv: bool)
    requires ConnsOk(u, s) && RecvStep(u, s, i, c3, r, done, failed, gotRecv)
    requires s.client.errors == 0 && s.client.completed == TotalCompleted(s.client.conns)
    ensures r.client.errors == 0 && r.client.completed == TotalCompleted(r.client.conns)
  {
    var cid := s.client.ring[i].conn;
    DrainedRoom(u, s, cid);
    assert r.client.conns == s.client.conns[cid := r.client.conns[cid]];
    TotalUpdate(s.client.conns, cid, r.client.conns[cid]);
  }

  lemma CompleteRecvInv(u: Setup, s: System, i: nat, got: seq<bool>, gotRecv: bool)
    requires Inv(u, s) && Enabled(u, s, Complete(i, got, gotRecv)) && s.client.ring[i].Recv?
    ensures Inv(u, CompleteOp(u, s, i, got, gotRecv))
  {
    var r := CompleteOp(u, s, i, got, gotRecv);
    var c3, failed := RecvStages(u, s, i, got, gotRecv);
    TakeRecv(u, s, i);
    RecvConns(u, s, i, c3, r, |got|, failed, gotRecv);
    RecvRecvs(u, s, i, c3, r, |got|, failed, gotRecv);
    RecvTotals(u, s, i, c3, r, |got|, failed, gotRecv);
  }

  // ----- whole runs -----

  lemma StepInv(u: Setup, s: System, step: Step)
    requires Inv(u, s) && Enabled(u, s, step)
    ensures Inv(u, Apply(u, s, step))
  {
    match step {
      case Seed(got, gotRecv) => SeedInv(u, s, got, gotRecv);
      case Transmit(i) => TransmitInv(u, s, i);
      case Serve(conn, n) => ServeInv(u, s, conn, n);
      case Land(i, n) => LandInv(u, s, i, n);
      case Complete(i, got, gotRecv) =>
        if s.client.ring[i].Send? {
          CompleteSendInv(u, s, i, got, gotRecv);
        } else {
          CompleteRecvInv(u, s, i, got, gotRecv);
        }
    }
  }

  ghost predicate IsRun(u: Setup, run: seq<System>, steps: seq<Step>) {
    && |run| == |steps| + 1 && Init(u, run[0])
    && forall i :: 0 <= i < |steps| ==> Enabled(u, run[i], steps[i]) && run[i + 1] == Apply(u, run[i], steps[i])
  }

  lemma {:induction false} RunInv(u: Setup, run: seq<System>, steps: seq<Step>, n: nat)
    requires IsRun(u, run, steps) && n < |run|
    ensures Inv(u, run[n])
  {
    if n == 0 {
      InitInv(u, run[0]);
    } else {
      RunInv(u, run, steps, n - 1);
      StepInv(u, run[n - 1], steps[n - 1]);
    }
  }
}
