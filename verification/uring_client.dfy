/** The pipelined load generator with its arrays and in-place updates; every method is
    proved to do what the functions of `LoadgenCore` say. */
module UringClient {
  import opened Wire
  import opened PlayerCodec
  import opened LoadgenCore
  import opened SendPool

  /** The free list of send slots: a stack in an array. */
  class SlotStack {
    const stack: array<nat>
    var top: nat

    ghost predicate Valid()
      reads this
    {
      stack.Length == SEND_POOL_SIZE && top <= SEND_POOL_SIZE
    }

    ghost function Free(): seq<nat>
      requires Valid()
      reads this, stack
    {
      stack[..top]
    }

    constructor ()
      ensures Valid() && fresh(stack) && |Free()| == 8192 && IsIota(Free())
    {
      stack := new nat[SEND_POOL_SIZE];
      top := 0;
      new;
      for i := 0 to SEND_POOL_SIZE
        invariant forall j :: 0 <= j < i ==> stack[j] == j
      {
        stack[i] := i;
      }
      top := SEND_POOL_SIZE;
    }

    method Alloc() returns (slot: int)
      requires Valid()
      modifies this`top
      ensures Valid()
      ensures old(Free()) == [] ==> slot == -1 && Free() == []
      ensures old(Free()) != [] ==> old(Free()) == Free() + [slot]
    {
      if top <= 0 {
        return -1;
      }
      top := top - 1;
      slot := stack[top];
      assert stack[..top + 1] == stack[..top] + [stack[top]];
    }

    method Release(slot: int)
      requires Valid()
      modifies this`top, stack
      ensures Valid()
      ensures Free() == if slot >= 0 then FreeSlot(old(Free()), slot) else old(Free())
    {
      if slot >= 0 && top < SEND_POOL_SIZE {
        stack[top] := slot;
        top := top + 1;
      }
    }
  }

  /** `memmove(a, a + from, len)`. */
  method MoveDown(a: array<byte>, from: nat, len: nat)
    requires from + len <= a.Length
    modifies a
    ensures a[..] == old(a[from..from + len]) + old(a[len..])
  {
    ghost var was := a[..];
    for i := 0 to len
      invariant forall j :: 0 <= j < i ==> a[j] == was[from + j]
      invariant forall j :: i <= j < a.Length ==> a[j] == was[j]
    {
      a[i] := a[from + i];
    }
    assert a[..len] == was[from..from + len];
    assert a[len..] == was[len..];
  }

  class Connection {
    const rbuf: array<byte>
    var rlen: nat
    var inFlight: int
    var completed: nat

    ghost predicate Valid()
      reads this
    {
      rbuf.Length == RECV_BUF_SIZE
    }

    ghost function Abs(): (k: Conn)
      reads this, rbuf
    {
      Conn(inFlight, rbuf[..], rlen, completed)
    }

    constructor ()
      ensures Valid() && fresh(rbuf) && rbuf.Length == 4096 && rlen == 0 && inFlight == 0 && completed == 0
    {
      rbuf := new byte[RECV_BUF_SIZE];
      rlen, inFlight, completed := 0, 0, 0;
    }

    /** One turn of the drain loop; `again` asks for another one. */
    method DrainPacket(tag: byte) returns (again: bool, done: nat, errors: nat)
      requires Valid() && Drainable(rbuf[..], rlen)
      modifies this`rlen, this`completed, rbuf
      ensures Valid() && completed == old(completed) + done
      ensures PacketTaken(tag, old(rbuf[..]), old(rlen), rbuf[..], rlen, again, done, errors)
    {
      ghost var mem, n := rbuf[..], rlen;
      again, done, errors := false, 0, 0;
      if rlen < 2 {
        return;
      }
      var len := rbuf[0] as int * 256 + rbuf[1] as int;
      if len < 1 || len > MAX_REPLY {
        errors := 1;
        return;
      }
      if rlen < 2 + len {
        return;
      }
      if rbuf[2] != tag {
        errors := 1;
      } else {
        completed := completed + 1;
        done := 1;
      }
      var total := 2 + len;
      MoveDown(rbuf, total, rlen - total);
      assert rbuf[..] == Shift(mem, n, total);
      rlen := rlen - total;
      again := true;
    }

    /** Takes every complete reply off the buffer, shifting the rest down each time. */
    method DrainPackets(tag: byte) returns (done: nat, errors: nat)
      requires Valid() && Drainable(rbuf[..], rlen)
      modifies this`rlen, this`completed, rbuf
      ensures Valid() && completed == old(completed) + done
      ensures DrainBuffer(tag, old(rbuf[..]), old(rlen)) == Drained(rbuf[..], rlen, done, errors)
    {
      done, errors := 0, 0;
      ghost var whole := DrainBuffer(tag, rbuf[..], rlen);
      var again := true;
      while again
        invariant Valid() && completed == old(completed) + done && Drainable(rbuf[..], rlen)
        invariant if again then whole == Counted(DrainBuffer(tag, rbuf[..], rlen), done, errors)
                  else whole == Drained(rbuf[..], rlen, done, errors)
        decreases again, rlen
      {
        ghost var mem, n := rbuf[..], rlen;
        var d, e;
        again, d, e := DrainPacket(tag);
        PacketTakenDrains(tag, mem, n, rbuf[..], rlen, again, d, e);
        done, errors := done + d, errors + e;
      }
    }

    /** `res` bytes have arrived behind the accumulated ones. */
    method Receive(setup: Setup, res: nat) returns (done: nat, bad: nat)
      requires Valid() && Drainable(rbuf[..], rlen + res)
      modifies this, rbuf
      ensures Valid() && AfterDrain(setup, old(Abs()), res) == (Abs(), done, bad)
    {
      ghost var k := Abs();
      rlen := rlen + res;
      done, bad := DrainPackets(Tag(setup.codec));
      inFlight := inFlight - done;
      Drains(setup, k, res, rbuf[..], rlen, done, bad);
      assert Abs() == Conn(k.inFlight - done, rbuf[..], rlen, k.completed + done);
    }
  }

  lemma Drains(u: Setup, k: Conn, res: nat, mem: seq<byte>, rlen: nat, done: nat, errors: nat)
    requires Drainable(k.mem, k.rlen + res)
    requires DrainBuffer(Tag(u.codec), k.mem, k.rlen + res) == Drained(mem, rlen, done, errors)
    ensures AfterDrain(u, k, res) == (Conn(k.inFlight - done, mem, rlen, k.completed + done), done, errors)
  {
  }

  /** What one turn of the drain loop does to the buffer. */
  ghost predicate PacketTaken(tag: byte, mem: seq<byte>, rlen: nat, mem': seq<byte>, rlen': nat,
                              again: bool, done: nat, errors: nat) {
    && Drainable(mem, rlen) && Drainable(mem', rlen') && |mem| >= 2
    && (again ==>
          && 1 <= U16At(mem, 0) <= 64 && 2 + U16At(mem, 0) <= rlen <= |mem| == |mem'|
          && mem' == Shift(mem, rlen, 2 + U16At(mem, 0)) && rlen' == rlen - (2 + U16At(mem, 0))
          && (done, errors) == if mem[2] == tag then (1, 0) else (0, 1))
    && (!again ==>
          && mem' == mem && rlen' == rlen && done == 0
          && (errors == 0 ==> rlen < 2 || (1 <= U16At(mem, 0) <= 64 && rlen < 2 + U16At(mem, 0)))
          && (errors != 0 ==> errors == 1 && rlen >= 2 && !(1 <= U16At(mem, 0) <= 64)))
  }

  lemma PacketTakenDrains(tag: byte, mem: seq<byte>, rlen: nat, mem': seq<byte>, rlen': nat,
                          again: bool, done: nat, errors: nat)
    requires PacketTaken(tag, mem, rlen, mem', rlen', again, done, errors)
    ensures if again then
              rlen' < rlen && DrainBuffer(tag, mem, rlen) == Counted(DrainBuffer(tag, mem', rlen'), done, errors)
            else DrainBuffer(tag, mem, rlen) == Drained(mem', rlen', done, errors)
  {
    if rlen <= |mem| {
      DrainStops(tag, mem, rlen);
      if again {
        DrainTakes(tag, mem, rlen, 2 + U16At(mem, 0));
      }
    }
  }

  class Loadgen {
    const setup: Setup
    const slots: SlotStack
    const conns: seq<Connection>
    var pool: seq<seq<byte>>
    var ring: seq<Op>
    var completed: nat
    var errors: nat

    ghost predicate SlotsValid()
      reads this, slots, slots.stack
    {
      slots.Valid() && |pool| == SEND_POOL_SIZE && InRange(slots.Free())
    }

    ghost predicate ConnsValid()
      reads conns
    {
      && (forall c <- conns :: c.Valid())
      && (forall i, j :: 0 <= i < j < |conns| ==> conns[i] != conns[j] && conns[i].rbuf != conns[j].rbuf)
    }

    ghost predicate Valid()
      reads this, slots, slots.stack, conns
    {
      SlotsValid() && ConnsValid() && slots.stack !in Buffers()
    }

    ghost function Buffers(): set<object> {
      set c <- conns :: c.rbuf as object
    }

    ghost function AbsConns(): (ks: seq<Conn>)
      reads conns, Buffers()
      ensures |ks| == |conns| && forall i :: 0 <= i < |conns| ==> ks[i] == conns[i].Abs()
    {
      seq(|conns|, i requires 0 <= i < |conns| reads conns, Buffers() => conns[i].Abs())
    }

    ghost function Abs(): (c: Client)
      requires Valid()
      reads this, slots, slots.stack, conns, Buffers()
      ensures Shaped(c) && |c.conns| == |conns|
    {
      Client(slots.Free(), pool, ring, AbsConns(), completed, errors)
    }

    /** `pool_init` and the zeroed connection table. */
    constructor (setup: Setup, conns: seq<Connection>)
      requires |conns| == setup.conns
      requires forall c <- conns :: c.Valid() && c.rlen == 0 && c.inFlight == 0 && c.completed == 0
      requires forall i, j :: 0 <= i < j < |conns| ==> conns[i] != conns[j] && conns[i].rbuf != conns[j].rbuf
      ensures this.setup == setup && this.conns == conns && Valid() && FreshClient(setup, Abs())
    {
      this.setup, this.conns := setup, conns;
      slots := new SlotStack();
      pool := seq(SEND_POOL_SIZE, _ => []);
      ring, completed, errors := [], 0, 0;
    }

    /** Copies the request into a free slot, if there is one. */
    method FillSlot() returns (slot: int)
      requires SlotsValid()
      modifies this`pool, slots`top
      ensures SlotsValid()
      ensures old(slots.Free()) == [] ==> slot < 0 && slots.Free() == [] && pool == old(pool)
      ensures old(slots.Free()) != [] ==> 0 <= slot < 8192 && old(slots.Free()) == slots.Free() + [slot]
                                          && pool == old(pool)[slot := Request(setup)]
    {
      slot := slots.Alloc();
      if slot >= 0 {
        assert old(slots.Free())[slots.top] == slot;
        pool := pool[slot := Request(setup)];
      }
    }

    /** The part of `submit_send` that does not involve the connection table. */
    method QueueSend(cid: nat, gotSqe: bool)
      requires SlotsValid()
      modifies this`pool, this`ring, slots, slots.stack
      ensures SlotsValid()
      ensures forall ks: seq<Conn>, done: nat, errors: nat ::
                LoadgenCore.SubmitSend(setup, Client(old(slots.Free()), old(pool), old(ring), ks, done, errors),
                    cid, gotSqe)
                == Client(slots.Free(), pool, ring, ks, done, errors)
    {
      var slot := FillSlot();
      if slot >= 0 {
        if gotSqe {
          ring := ring + [Send(cid, slot, TagSend(cid, slot), false)];
        } else {
          slots.Release(slot);
        }
      }
    }

    method SubmitSend(cid: nat, gotSqe: bool)
      requires Valid() && cid < |conns|
      modifies this`pool, this`ring, slots, slots.stack
      ensures Valid() && Abs() == LoadgenCore.SubmitSend(setup, old(Abs()), cid, gotSqe)
    {
      QueueSend(cid, gotSqe);
      assert AbsConns() == old(AbsConns());
    }

    method SubmitRecv(cid: nat, gotSqe: bool)
      requires Valid() && cid < |conns|
      modifies this`ring
      ensures Valid() && Abs() == LoadgenCore.SubmitRecv(old(Abs()), cid, gotSqe)
    {
      if !gotSqe {
        return;
      }
      var off := conns[cid].rlen;
      if off >= RECV_BUF_SIZE {
        off := 0;
      }
      ring := ring + [Recv(cid, off, RECV_BUF_SIZE - off, TagRecv(cid), 0)];
    }

    /** `in_flight++` on one connection. */
    method CountInFlight(cid: nat)
      requires Valid() && cid < |conns|
      modifies conns[cid]
      ensures Valid()
      ensures AbsConns() == old(AbsConns())[cid := old(conns[cid].Abs()).(inFlight := old(conns[cid].inFlight) + 1)]
    {
      conns[cid].inFlight := conns[cid].inFlight + 1;
    }

    method SubmitCounted(cid: nat, gotSqe: bool)
      requires Valid() && cid < |conns|
      modifies this`pool, this`ring, slots, slots.stack, conns[cid]
      ensures Valid() && Abs() == SubmitOne(setup, old(Abs()), cid, gotSqe)
    {
      SubmitSend(cid, gotSqe);
      CountInFlight(cid);
    }

    /** One submission per element of `got`, as in seeding and in the refill loop. */
    method RefillLoop(cid: nat, got: seq<bool>)
      requires Valid() && cid < |conns|
      modifies this`pool, this`ring, slots, slots.stack, conns[cid]
      ensures Valid() && Abs() == Refill(setup, old(Abs()), cid, got)
    {
      ghost var whole := Refill(setup, Abs(), cid, got);
      assert got[0..] == got;
      for k := 0 to |got|
        invariant Valid() && whole == Refill(setup, Abs(), cid, got[k..])
      {
        ghost var c := Abs();
        SubmitCounted(cid, got[k]);
        RefillNext(setup, c, cid, got[k..]);
        assert got[k..][1..] == got[k + 1..];
      }
    }

    /** The received bytes of one connection are added to its buffer and drained. */
    method DrainConnection(cid: nat, res: nat) returns (done: nat, bad: nat)
      requires Valid() && cid < |conns| && Drainable(conns[cid].rbuf[..], conns[cid].rlen + res)
      modifies conns[cid], conns[cid].rbuf
      ensures Valid()
      ensures AfterDrain(setup, old(conns[cid].Abs()), res) == (conns[cid].Abs(), done, bad)
      ensures AbsConns() == old(AbsConns())[cid := conns[cid].Abs()]
    {
      done, bad := conns[cid].Receive(setup, res);
      assert forall i :: 0 <= i < |conns| && i != cid ==> conns[i].Abs() == old(conns[i].Abs());
    }

    method ReceiveBytes(cid: nat, res: nat) returns (done: nat)
      requires Valid() && cid < |conns| && Drainable(conns[cid].rbuf[..], conns[cid].rlen + res)
      modifies this`completed, this`errors, conns[cid], conns[cid].rbuf
      ensures Valid() && Abs() == Receive(setup, old(Abs()), cid, res)
      ensures done == AfterDrain(setup, old(conns[cid].Abs()), res).1
    {
      var bad;
      done, bad := DrainConnection(cid, res);
      completed := completed + done;
      errors := errors + bad;
    }

    /** One turn of the completion loop: only the tag and the result of the entry are looked at. */
    method HandleCompletion(i: nat, got: seq<bool>, gotRecv: bool)
      requires Valid() && CanHandle(setup, Abs(), i, got)
      modifies this, slots, slots.stack, conns, Buffers()
      ensures Valid() && Abs() == Handle(setup, old(Abs()), i, got, gotRecv)
    {
      var op := ring[i];
      var cid := UdCid(op.ud);
      ring := RemoveAt(ring, i);
      if UdOp(op.ud) == OP_SEND {
        slots.Release(UdSlot(op.ud));
        assert AbsConns() == old(AbsConns());
      } else {
        assert AbsConns() == old(AbsConns()) && conns[cid].Valid() && AbsConns()[cid] == conns[cid].Abs();
        var done := ReceiveBytes(cid, op.result);
        assert Abs() == Received(setup, old(Abs()), i);
        RefillLoop(cid, got);
        SubmitRecv(cid, gotRecv);
      }
    }

    /** Seeding one connection: `depth` sends, then a receive. */
    method SeedConnection(cid: nat, got: seq<bool>, gotRecv: bool)
      requires Valid() && cid < |conns|
      modifies this`pool, this`ring, slots, slots.stack, conns[cid]
      ensures Valid()
      ensures Abs() == LoadgenCore.SubmitRecv(Refill(setup, old(Abs()), cid, got), cid, gotRecv)
    {
      RefillLoop(cid, got);
      SubmitRecv(cid, gotRecv);
    }
  }
}
