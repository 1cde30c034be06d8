/** The send slots: at every moment each of them is on the free stack or held by exactly
    one send in the ring, and the bytes of a send not yet executed are still in place. */
module SendPool {
  import opened Wire
  import opened LoadgenCore

  // ----- counting ring entries -----

  datatype Query = BySlot(slot: nat) | Waiting(conn: nat) | SendsOf(conn: nat) | RecvsOf(conn: nat) | AnySend

  predicate Matches(q: Query, op: Op) {
    match q
    case BySlot(slot) => op.Send? && op.slot == slot
    case Waiting(conn) => op.Send? && op.conn == conn && !op.executed
    case SendsOf(conn) => op.Send? && op.conn == conn
    case RecvsOf(conn) => op.Recv? && op.conn == conn
    case AnySend => op.Send?
  }

  function One(q: Query, op: Op): nat {
    if Matches(q, op) then 1 else 0
  }

  function CountOps(ring: seq<Op>, q: Query): nat {
    if ring == [] then 0 else CountOps(ring[..|ring| - 1], q) + One(q, ring[|ring| - 1])
  }

  lemma {:induction false} CountConcat(a: seq<Op>, b: seq<Op>, q: Query)
    ensures CountOps(a + b, q) == CountOps(a, q) + CountOps(b, q)
  {
    if b == [] {
      assert a + b == a;
    } else {
      assert (a + b)[..|a + b| - 1] == a + b[..|b| - 1];
      CountConcat(a, b[..|b| - 1], q);
    }
  }

  lemma CountPush(ring: seq<Op>, op: Op, q: Query)
    ensures CountOps(ring + [op], q) == CountOps(ring, q) + One(q, op)
  {
    assert (ring + [op])[..|ring|] == ring;
  }

  lemma CountSplit(ring: seq<Op>, i: nat, q: Query)
    requires i < |ring|
    ensures CountOps(ring, q) == CountOps(ring[..i], q) + One(q, ring[i]) + CountOps(ring[i + 1..], q)
  {
    assert ring == ring[..i] + [ring[i]] + ring[i + 1..];
    CountConcat(ring[..i] + [ring[i]], ring[i + 1..], q);
    CountPush(ring[..i], ring[i], q);
  }

  lemma CountRemove(ring: seq<Op>, i: nat, q: Query)
    requires i < |ring|
    ensures CountOps(RemoveAt(ring, i), q) == CountOps(ring, q) - One(q, ring[i])
  {
    CountSplit(ring, i, q);
    CountConcat(ring[..i], ring[i + 1..], q);
  }

  lemma CountUpdate(ring: seq<Op>, i: nat, op: Op, q: Query)
    requires i < |ring|
    ensures CountOps(ring[i := op], q) == CountOps(ring, q) - One(q, ring[i]) + One(q, op)
  {
    CountSplit(ring, i, q);
    CountSplit(ring[i := op], i, q);
    assert ring[i := op][..i] == ring[..i] && ring[i := op][i + 1..] == ring[i + 1..];
  }

  /** What the ring holds of one connection: untransmitted sends, all sends, receives. */
  datatype Tally = Tally(waiting: nat, sends: nat, recvs: nat)

  function TallyOf(ring: seq<Op>, conn: nat): Tally {
    Tally(CountOps(ring, Waiting(conn)), CountOps(ring, SendsOf(conn)), CountOps(ring, RecvsOf(conn)))
  }

  function TallyPlus(t: Tally, op: Op, conn: nat): Tally {
    Tally(t.waiting + One(Waiting(conn), op), t.sends + One(SendsOf(conn), op), t.recvs + One(RecvsOf(conn), op))
  }

  lemma TallyPush(ring: seq<Op>, op: Op)
    ensures forall conn: nat :: TallyOf(ring + [op], conn) == TallyPlus(TallyOf(ring, conn), op, conn)
  {
    forall conn: nat ensures TallyOf(ring + [op], conn) == TallyPlus(TallyOf(ring, conn), op, conn) {
      CountPush(ring, op, Waiting(conn));
      CountPush(ring, op, SendsOf(conn));
      CountPush(ring, op, RecvsOf(conn));
    }
  }

  lemma TallyRemove(ring: seq<Op>, i: nat)
    requires i < |ring|
    ensures forall conn: nat :: TallyOf(ring, conn) == TallyPlus(TallyOf(RemoveAt(ring, i), conn), ring[i], conn)
  {
    forall conn: nat ensures TallyOf(ring, conn) == TallyPlus(TallyOf(RemoveAt(ring, i), conn), ring[i], conn) {
      CountRemove(ring, i, Waiting(conn));
      CountRemove(ring, i, SendsOf(conn));
      CountRemove(ring, i, RecvsOf(conn));
    }
  }

  lemma TallyUpdate(ring: seq<Op>, i: nat, op: Op)
    requires i < |ring|
    ensures forall conn: nat ::
              TallyPlus(TallyOf(ring, conn), op, conn) == TallyPlus(TallyOf(ring[i := op], conn), ring[i], conn)
  {
    forall conn: nat
      ensures TallyPlus(TallyOf(ring, conn), op, conn) == TallyPlus(TallyOf(ring[i := op], conn), ring[i], conn)
    {
      CountUpdate(ring, i, op, Waiting(conn));
      CountUpdate(ring, i, op, SendsOf(conn));
      CountUpdate(ring, i, op, RecvsOf(conn));
    }
  }

  lemma CountMember(ring: seq<Op>, i: nat, q: Query)
    requires i < |ring| && Matches(q, ring[i])
    ensures CountOps(ring, q) >= 1
  {
    CountSplit(ring, i, q);
  }

  lemma CountTwo(ring: seq<Op>, i: nat, j: nat, q: Query)
    requires i < j < |ring|
    ensures Matches(q, ring[i]) && Matches(q, ring[j]) ==> CountOps(ring, q) >= 2
  {
    CountSplit(ring, j, q);
    CountSplit(ring[..j], i, q);
  }

  lemma CopiesCount<T>(s: seq<T>, i: nat, j: nat)
    requires i < j < |s|
    ensures s[i] == s[j] ==> multiset(s)[s[i]] >= 2
  {
    assert s == s[..j] + s[j..];
    assert s[..j][i] == s[i] && s[j..][0] == s[j];
    assert s[i] in s[..j] && s[j] in s[j..];
  }

  lemma RemoveMember<T>(s: seq<T>, i: nat)
    requires i < |s|
    ensures forall x <- RemoveAt(s, i) :: x in s
  {
  }

  lemma {:induction false} CountFinds(ring: seq<Op>, q: Query) returns (i: nat)
    requires CountOps(ring, q) > 0
    ensures i < |ring| && Matches(q, ring[i])
  {
    var last := |ring| - 1;
    if Matches(q, ring[last]) {
      i := last;
    } else {
      i := CountFinds(ring[..last], q);
    }
  }

  // ----- the invariant -----

  /** How many times a slot is held, by the free stack or by a send. */
  function Holders(free: seq<nat>, ring: seq<Op>, slot: nat): nat {
    multiset(free)[slot] + CountOps(ring, BySlot(slot))
  }

  ghost predicate HeldOnce(free: seq<nat>, ring: seq<Op>) {
    forall slot: nat :: Holders(free, ring, slot) == if slot < SEND_POOL_SIZE then 1 else 0
  }

  predicate SendOk(u: Setup, pool: seq<seq<byte>>, op: Op) {
    op.Send? ==>
      && op.conn < u.conns && op.slot < SEND_POOL_SIZE && op.slot < |pool|
      && op.ud == TagSend(op.conn, op.slot)
      && (!op.executed ==> pool[op.slot] == Request(u))
  }

  ghost predicate SendsOk(u: Setup, pool: seq<seq<byte>>, ring: seq<Op>) {
    forall op <- ring :: SendOk(u, pool, op)
  }

  ghost predicate PoolInv(u: Setup, c: Client) {
    && Shaped(c) && |c.conns| == u.conns
    && HeldOnce(c.free, c.ring)
    && |c.free| + CountOps(c.ring, AnySend) == SEND_POOL_SIZE
    && SendsOk(u, c.pool, c.ring)
  }

  /** What the invariant means: free stack and pending sends partition the 8192 slots. */
  lemma SlotsPartitioned(u: Setup, c: Client)
    requires PoolInv(u, c)
    ensures forall i, j :: 0 <= i < j < |c.free| ==> c.free[i] != c.free[j]
    ensures forall i, j :: 0 <= i < j < |c.ring| && c.ring[i].Send? && c.ring[j].Send? ==>
              c.ring[i].slot != c.ring[j].slot
    ensures forall slot: nat :: slot < SEND_POOL_SIZE ==>
              (slot in c.free <==> !exists i :: 0 <= i < |c.ring| && c.ring[i].Send? && c.ring[i].slot == slot)
  {
    forall i, j | 0 <= i < j < |c.free| ensures c.free[i] != c.free[j] {
      assert Holders(c.free, c.ring, c.free[i]) == 1;
      CopiesCount(c.free, i, j);
    }
    forall i, j | 0 <= i < j < |c.ring| && c.ring[i].Send? && c.ring[j].Send?
      ensures c.ring[i].slot != c.ring[j].slot
    {
      assert SendOk(u, c.pool, c.ring[i]);
      assert Holders(c.free, c.ring, c.ring[i].slot) == 1;
      CountTwo(c.ring, i, j, BySlot(c.ring[i].slot));
    }
    forall slot: nat | slot < SEND_POOL_SIZE
      ensures slot in c.free <==> !exists i :: 0 <= i < |c.ring| && c.ring[i].Send? && c.ring[i].slot == slot
    {
      assert Holders(c.free, c.ring, slot) == 1;
      assert slot in c.free <==> slot in multiset(c.free);
      if i :| 0 <= i < |c.ring| && c.ring[i].Send? && c.ring[i].slot == slot {
        CountMember(c.ring, i, BySlot(slot));
      }
      if slot !in c.free {
        var i := CountFinds(c.ring, BySlot(slot));
      }
    }
  }

  // ----- initialisation -----

  ghost predicate IsIota(s: seq<nat>) {
    forall i :: 0 <= i < |s| ==> s[i] == i
  }

  lemma {:induction false} IotaHoldsOnce(s: seq<nat>, slot: nat)
    requires IsIota(s)
    ensures multiset(s)[slot] == if slot < |s| then 1 else 0
  {
    if s != [] {
      assert s == s[..|s| - 1] + [|s| - 1];
      IotaHoldsOnce(s[..|s| - 1], slot);
    }
  }

  /** The client after `pool_init` and connecting, before anything is submitted. */
  ghost predicate FreshClient(u: Setup, c: Client) {
    && |c.free| == SEND_POOL_SIZE && IsIota(c.free)
    && |c.pool| == SEND_POOL_SIZE
    && c.ring == []
    && |c.conns| == u.conns
    && (forall k <- c.conns :: k.inFlight == 0 && |k.mem| == RECV_BUF_SIZE && k.rlen == 0 && k.completed == 0)
    && c.completed == 0 && c.errors == 0
  }

  lemma FreshPool(u: Setup, c: Client)
    requires FreshClient(u, c)
    ensures PoolInv(u, c)
  {
    forall slot: nat ensures Holders(c.free, c.ring, slot) == if slot < SEND_POOL_SIZE then 1 else 0 {
      IotaHoldsOnce(c.free, slot);
    }
  }

  // ----- submissions -----

  /** A slot is taken off the stack and held by a send. */
  lemma TakenKeepsPool(u: Setup, c: Client, cid: nat, slot: nat, rest: seq<nat>, op: Op, r: Client)
    requires PoolInv(u, c) && cid < u.conns && c.free == rest + [slot]
            && op == Send(cid, slot, TagSend(cid, slot), false)
    requires slot < |c.pool| && r == c.(free := rest, pool := c.pool[slot := Request(u)], ring := c.ring + [op])
    ensures PoolInv(u, r)
  {
    assert forall i :: 0 <= i < |rest| ==> rest[i] == c.free[i];
    CountPush(c.ring, op, AnySend);
    PushKeepsHolders(rest, c.ring, op);
    NewContentsKeepSends(u, c, slot);
  }

  /** ... or given back, with new contents. */
  lemma GivenBackKeepsPool(u: Setup, c: Client, slot: nat, r: Client)
    requires PoolInv(u, c) && c.free != [] && slot == c.free[|c.free| - 1]
    requires slot < |c.pool| && r == c.(pool := c.pool[slot := Request(u)])
    ensures PoolInv(u, r)
  {
    NewContentsKeepSends(u, c, slot);
  }

  /** Taking a slot from the stack and handing it to a new send, or giving it back. */
  lemma SubmitKeepsPool(u: Setup, c: Client, cid: nat, gotSqe: bool)
    requires PoolInv(u, c) && cid < u.conns
    ensures var r := SubmitSend(u, c, cid, gotSqe);
            && PoolInv(u, r)
            && (if c.free != [] && gotSqe then
                  var slot := c.free[|c.free| - 1];
                  |r.free| == |c.free| - 1 && r.ring == c.ring + [Send(cid, slot, TagSend(cid, slot), false)]
                else
                  |r.free| == |c.free| && r.ring == c.ring)
  {
    if c.free != [] {
      var slot, rest := c.free[|c.free| - 1], c.free[..|c.free| - 1];
      assert c.free == rest + [slot];
      if gotSqe {
        TakenKeepsPool(u, c, cid, slot, rest, Send(cid, slot, TagSend(cid, slot), false), SubmitSend(u, c, cid, true));
      } else {
        GivenBackKeepsPool(u, c, slot, SubmitSend(u, c, cid, false));
      }
    }
  }

  lemma PushKeepsHolders(rest: seq<nat>, ring: seq<Op>, op: Op)
    requires op.Send? && HeldOnce(rest + [op.slot], ring)
    ensures HeldOnce(rest, ring + [op])
  {
    forall x: nat ensures Holders(rest, ring + [op], x) == if x < SEND_POOL_SIZE then 1 else 0 {
      assert Holders(rest + [op.slot], ring, x) == if x < SEND_POOL_SIZE then 1 else 0;
      CountPush(ring, op, BySlot(x));
    }
  }

  lemma HeldSlotIsNotFree(free: seq<nat>, ring: seq<Op>, i: nat)
    requires HeldOnce(free, ring) && i < |ring|
    ensures ring[i].Send? ==> ring[i].slot !in free
  {
    if ring[i].Send? {
      var slot := ring[i].slot;
      CountMember(ring, i, BySlot(slot));
      assert Holders(free, ring, slot) == if slot < SEND_POOL_SIZE then 1 else 0;
      assert slot in free <==> slot in multiset(free);
    }
  }

  /** Writing to a free slot does not touch the bytes of any send. */
  lemma NewContentsKeepSends(u: Setup, c: Client, slot: nat)
    requires PoolInv(u, c) && slot in c.free && slot < |c.pool|
    ensures SendsOk(u, c.pool[slot := Request(u)], c.ring)
  {
    var pool := c.pool[slot := Request(u)];
    forall i | 0 <= i < |c.ring| ensures SendOk(u, pool, c.ring[i]) {
      HeldSlotIsNotFree(c.free, c.ring, i);
      assert SendOk(u, c.pool, c.ring[i]);
    }
  }

  // ----- send completions -----

  /** Handling the completion of a send returns exactly its slot. */
  lemma CompletionKeepsPool(u: Setup, c: Client, i: nat)
    requires PoolInv(u, c) && u.conns <= MAX_CONNS && i < |c.ring| && c.ring[i].Send?
    ensures UdOp(c.ring[i].ud) == OP_SEND && UdCid(c.ring[i].ud) == c.ring[i].conn
    ensures UdSlot(c.ring[i].ud) == c.ring[i].slot < SEND_POOL_SIZE
    ensures PoolInv(u, c.(ring := RemoveAt(c.ring, i), free := FreeSlot(c.free, c.ring[i].slot)))
  {
    var op := c.ring[i];
    assert SendOk(u, c.pool, op);
    TagsDecode(op.conn, op.slot);
    CountMember(c.ring, i, AnySend);
    CountRemove(c.ring, i, AnySend);
    RemovalKeepsHolders(c.free, c.ring, i);
    RemoveMember(c.ring, i);
  }

  lemma RemovalKeepsHolders(free: seq<nat>, ring: seq<Op>, i: nat)
    requires HeldOnce(free, ring) && i < |ring| && ring[i].Send?
    ensures HeldOnce(free + [ring[i].slot], RemoveAt(ring, i))
  {
    var f, r := free + [ring[i].slot], RemoveAt(ring, i);
    forall x: nat ensures Holders(f, r, x) == if x < SEND_POOL_SIZE then 1 else 0 {
      assert Holders(free, ring, x) == if x < SEND_POOL_SIZE then 1 else 0;
      CountRemove(ring, i, BySlot(x));
    }
  }

  /** Two rings that hold the same slots. */
  ghost predicate SameSlots(a: seq<Op>, b: seq<Op>) {
    && (forall x: nat :: CountOps(b, BySlot(x)) == CountOps(a, BySlot(x)))
    && CountOps(b, AnySend) == CountOps(a, AnySend)
  }

  lemma SameSlotsKeepHolders(free: seq<nat>, a: seq<Op>, b: seq<Op>)
    requires HeldOnce(free, a) && SameSlots(a, b)
    ensures HeldOnce(free, b)
  {
    forall x: nat ensures Holders(free, b, x) == if x < SEND_POOL_SIZE then 1 else 0 {
      assert Holders(free, a, x) == Holders(free, b, x);
    }
  }

  lemma PushRecvSlots(ring: seq<Op>, op: Op)
    requires op.Recv?
    ensures SameSlots(ring, ring + [op])
  {
    CountPush(ring, op, AnySend);
    forall x: nat ensures CountOps(ring + [op], BySlot(x)) == CountOps(ring, BySlot(x)) {
      CountPush(ring, op, BySlot(x));
    }
  }

  lemma RemoveRecvSlots(ring: seq<Op>, i: nat)
    requires i < |ring| && ring[i].Recv?
    ensures SameSlots(ring, RemoveAt(ring, i))
  {
    CountRemove(ring, i, AnySend);
    forall x: nat ensures CountOps(RemoveAt(ring, i), BySlot(x)) == CountOps(ring, BySlot(x)) {
      CountRemove(ring, i, BySlot(x));
    }
  }

  lemma UpdateSlots(ring: seq<Op>, i: nat, op: Op)
    requires i < |ring| && op.Send? == ring[i].Send? && (op.Send? ==> op.slot == ring[i].slot)
    ensures SameSlots(ring, ring[i := op])
  {
    CountUpdate(ring, i, op, AnySend);
    forall x: nat ensures CountOps(ring[i := op], BySlot(x)) == CountOps(ring, BySlot(x)) {
      CountUpdate(ring, i, op, BySlot(x));
    }
  }
}
