/** The pipelined load generator as functions on values: completion tags, the pool of
    send slots, the receive buffer, and the handling of one completion. */
module LoadgenCore {
  import opened Wire
  import opened PlayerCodec

  const RECV_BUF_SIZE: nat := 4096
  const MAX_CONNS: nat := 4096
  const SEND_POOL_SIZE: nat := 8192
  const MAX_REPLY: nat := 64

  const OP_SEND: nat := 0
  const OP_RECV: nat := 1

  /** Number of connections, pipeline depth, codec, and the player of the request template
      (the program always sends x = 1, y = 2, hp = 200). */
  datatype Setup = Setup(conns: nat, depth: nat, codec: Codec, start: Player)

  ghost predicate ValidSetup(u: Setup) {
    u.conns <= MAX_CONNS
  }

  function RequestPayload(u: Setup): seq<byte> {
    Encode(u.codec, u.start)
  }

  function ReplyPayload(u: Setup): seq<byte> {
    Encode(u.codec, Mutate(u.start))
  }

  /** The request template; a slot has 32 bytes for it. */
  function Request(u: Setup): (s: seq<byte>)
    ensures |s| <= 32
  {
    Frame(RequestPayload(u))
  }

  // ----- completion tags -----
  // bits 0..1 operation, bits 2..15 connection, bits 16.. slot

  function TagSend(cid: nat, slot: nat): nat {
    slot * 0x1_0000 + cid * 4 + OP_SEND
  }

  function TagRecv(cid: nat): nat {
    cid * 4 + OP_RECV
  }

  function UdOp(ud: nat): nat {
    ud % 4
  }

  function UdCid(ud: nat): nat {
    ud / 4 % 0x4000
  }

  function UdSlot(ud: nat): nat {
    ud / 0x1_0000
  }

  /** On 64-bit words the shifts, masks and ors of the program are this arithmetic. */
  lemma TagsOnWords(cid: bv64, slot: bv64, ud: bv64)
    requires cid < 4096 && slot < 8192
    ensures (slot << 16) | (cid << 2) | 0 == slot * 0x1_0000 + cid * 4 + 0
    ensures (cid << 2) | 1 == cid * 4 + 1
    ensures (ud >> 2) & 0x3FFF == ud / 4 % 0x4000
    ensures ud & 3 == ud % 4
    ensures ud >> 16 == ud / 0x1_0000
  {
  }

  /** Every tag decodes to the operation, connection and slot it was made from. */
  lemma TagsDecode(cid: nat, slot: nat)
    requires cid < 4096
    ensures UdOp(TagSend(cid, slot)) == OP_SEND && UdCid(TagSend(cid, slot)) == cid
            && UdSlot(TagSend(cid, slot)) == slot
    ensures UdOp(TagRecv(cid)) == OP_RECV && UdCid(TagRecv(cid)) == cid
  {
  }

  // ----- the receive buffer -----

  datatype Drained = Drained(mem: seq<byte>, rlen: nat, done: nat, errors: nat)

  /** `memmove(mem, mem + total, rlen - total)`. */
  function Shift(mem: seq<byte>, rlen: nat, total: nat): (r: seq<byte>)
    requires total <= rlen <= |mem|
    ensures |r| == |mem|
  {
    mem[total..rlen] + mem[rlen - total..]
  }

  lemma ShiftPrefix(mem: seq<byte>, rlen: nat, total: nat)
    requires total <= rlen <= |mem|
    ensures Shift(mem, rlen, total)[..rlen - total] == mem[total..rlen]
  {
  }

  /** Takes every complete reply off the front of the buffer, stopping at an illegal length. */
  function Drain(tag: byte, mem: seq<byte>, rlen: nat): (r: Drained)
    requires rlen <= |mem|
    ensures |r.mem| == |mem| && r.rlen <= rlen
    decreases rlen
  {
    var h := NextFrame(mem[..rlen], MAX_REPLY);
    if h.Incomplete? then Drained(mem, rlen, 0, 0)
    else if h.Illegal? then Drained(mem, rlen, 0, 1)
    else
      Counted(Drain(tag, Shift(mem, rlen, 2 + |h.payload|), |h.rest|),
              if h.payload[0] == tag then 1 else 0, if h.payload[0] == tag then 0 else 1)
  }

  /** The buffer starts with an illegal length. */
  predicate BadFront(mem: seq<byte>) {
    |mem| >= 2 && !(1 <= U16At(mem, 0) <= MAX_REPLY)
  }

  /** Draining stays inside the buffer: `rlen` does too, or the first length stops it at once. */
  predicate Drainable(mem: seq<byte>, rlen: nat) {
    rlen <= |mem| || BadFront(mem)
  }

  /** The same when `rlen` has run past the end of the buffer. */
  function DrainBuffer(tag: byte, mem: seq<byte>, rlen: nat): (r: Drained)
    requires Drainable(mem, rlen)
    ensures |r.mem| == |mem| && r.rlen <= rlen
  {
    if rlen <= |mem| then Drain(tag, mem, rlen) else Drained(mem, rlen, 0, 1)
  }

  function Counted(d: Drained, done: nat, errors: nat): Drained {
    d.(done := done + d.done, errors := errors + d.errors)
  }

  lemma DrainStep(tag: byte, mem: seq<byte>, rlen: nat, h: Head, own: bool, total: nat)
    requires rlen <= |mem| && h == NextFrame(mem[..rlen], MAX_REPLY) && h.Whole?
    requires total == 2 + |h.payload| && |h.rest| == rlen - total && own == (h.payload[0] == tag)
    ensures Drain(tag, mem, rlen) ==
            Counted(Drain(tag, Shift(mem, rlen, total), rlen - total), if own then 1 else 0, if own then 0 else 1)
  {
  }

  /** Draining stops, in terms of the length test the program makes on the buffer: too few bytes
      for a length or for the reply it announces, or an illegal length, which is an error. */
  lemma DrainStops(tag: byte, mem: seq<byte>, rlen: nat)
    requires rlen <= |mem|
    ensures rlen < 2 ==> Drain(tag, mem, rlen) == Drained(mem, rlen, 0, 0)
    ensures rlen >= 2 && !(1 <= U16At(mem, 0) <= 64) ==> Drain(tag, mem, rlen) == Drained(mem, rlen, 0, 1)
    ensures rlen >= 2 && 1 <= U16At(mem, 0) <= 64 && rlen < 2 + U16At(mem, 0) ==>
              Drain(tag, mem, rlen) == Drained(mem, rlen, 0, 0)
  {
    BufferHead(mem, rlen);
  }

  /** Draining goes on: one reply is counted by its first byte and the rest is shifted down. */
  lemma DrainTakes(tag: byte, mem: seq<byte>, rlen: nat, total: nat)
    requires 3 <= total <= 66 && total <= rlen <= |mem| && total == 2 + U16At(mem, 0)
    ensures Drain(tag, mem, rlen) ==
            Counted(Drain(tag, Shift(mem, rlen, total), rlen - total),
                    if mem[2] == tag then 1 else 0, if mem[2] == tag then 0 else 1)
  {
    BufferHead(mem, rlen);
    DrainStep(tag, mem, rlen, Whole(mem[2..total], mem[total..rlen]), mem[2] == tag, total);
  }

  function Matching(payloads: seq<seq<byte>>, tag: byte): nat {
    if payloads == [] then 0
    else (if payloads[0] != [] && payloads[0][0] == tag then 1 else 0) + Matching(payloads[1..], tag)
  }

  /** Draining in place is splitting the received bytes into frames: the bytes kept are
      exactly the unconsumed tail, replies with the right tag are counted as done, all
      other frames and an illegal header as errors. */
  lemma {:induction false} DrainSplits(tag: byte, mem: seq<byte>, rlen: nat)
    requires rlen <= |mem|
    ensures var r := Drain(tag, mem, rlen);
            var s := SplitFrames(mem[..rlen], MAX_REPLY);
            && r.mem[..r.rlen] == s.tail
            && r.done == Matching(s.payloads, tag)
            && r.errors == |s.payloads| - r.done + (if Legal(mem[..rlen], MAX_REPLY) then 0 else 1)
    decreases rlen
  {
    var h := NextFrame(mem[..rlen], MAX_REPLY);
    if h.Whole? {
      var next := Shift(mem, rlen, 2 + |h.payload|);
      ShiftPrefix(mem, rlen, 2 + |h.payload|);
      DrainSplits(tag, next, |h.rest|);
      var rest := SplitFrames(h.rest, MAX_REPLY);
      assert ([h.payload] + rest.payloads)[1..] == rest.payloads;
    }
  }

  /** The length test on the buffer is the framing's view of its filled part. */
  lemma BufferHead(mem: seq<byte>, rlen: nat)
    requires rlen <= |mem|
    ensures var h := NextFrame(mem[..rlen], MAX_REPLY);
            if rlen < 2 then h.Incomplete?
            else
              var len := U16At(mem, 0);
              if len < 1 || len > MAX_REPLY then h.Illegal?
              else if rlen < 2 + len then h.Incomplete?
              else h == Whole(mem[2..2 + len], mem[2 + len..rlen])
  {
    if rlen >= 2 {
      assert U16At(mem[..rlen], 0) == U16At(mem, 0);
      var len := U16At(mem, 0);
      if 1 <= len <= MAX_REPLY && 2 + len <= rlen {
        assert mem[..rlen][2..2 + len] == mem[2..2 + len];
        assert mem[..rlen][2 + len..] == mem[2 + len..rlen];
      }
    }
  }

  // ----- the client -----

  /** An entry of the ring, from submission to the handling of its completion. The kernel
      knows the socket and the memory; the program gets back only `ud` and the result. */
  datatype Op =
    | Send(conn: nat, slot: nat, ud: nat, executed: bool)
    | Recv(conn: nat, offset: nat, room: nat, ud: nat, result: nat)

  predicate Done(op: Op) {
    if op.Send? then op.executed else op.result > 0
  }

  datatype Conn = Conn(inFlight: int, mem: seq<byte>, rlen: nat, completed: nat)

  datatype Client = Client(
    free: seq<nat>,          // the free stack up to its top
    pool: seq<seq<byte>>,    // what was last copied into each send slot
    ring: seq<Op>,
    conns: seq<Conn>,
    completed: nat,
    errors: nat)

  predicate InRange(free: seq<nat>) {
    forall i :: 0 <= i < |free| ==> free[i] < SEND_POOL_SIZE
  }

  predicate Shaped(c: Client) {
    |c.pool| == SEND_POOL_SIZE && InRange(c.free)
  }

  function FreeSlot(free: seq<nat>, slot: nat): seq<nat> {
    if |free| < SEND_POOL_SIZE then free + [slot] else free
  }

  /** `gotSqe` says whether a submission entry was available, at once or after a submit. */
  function SubmitSend(u: Setup, c: Client, cid: nat, gotSqe: bool): (r: Client)
    requires Shaped(c)
    ensures Shaped(r) && r.conns == c.conns
  {
    if c.free == [] then c
    else
      var slot := c.free[|c.free| - 1];
      var rest := c.free[..|c.free| - 1];
      var pool := c.pool[slot := Request(u)];
      if !gotSqe then c.(free := FreeSlot(rest, slot), pool := pool)
      else c.(free := rest, pool := pool, ring := c.ring + [Send(cid, slot, TagSend(cid, slot), false)])
  }

  /** Where the next receive puts its bytes. */
  function RecvOffset(rlen: nat): nat {
    if rlen >= RECV_BUF_SIZE then 0 else rlen
  }

  function SubmitRecv(c: Client, cid: nat, gotSqe: bool): Client
    requires cid < |c.conns|
  {
    if !gotSqe then c
    else
      var off := RecvOffset(c.conns[cid].rlen);
      c.(ring := c.ring + [Recv(cid, off, RECV_BUF_SIZE - off, TagRecv(cid), 0)])
  }

  /** One submission, then `in_flight++` whether or not it went through. */
  function SubmitOne(u: Setup, c: Client, cid: nat, gotSqe: bool): (r: Client)
    requires Shaped(c) && cid < |c.conns|
    ensures Shaped(r) && |r.conns| == |c.conns|
  {
    var c1 := SubmitSend(u, c, cid, gotSqe);
    var k := c1.conns[cid];
    c1.(conns := c1.conns[cid := k.(inFlight := k.inFlight + 1)])
  }

  /** One submission per element of `got`. */
  function Refill(u: Setup, c: Client, cid: nat, got: seq<bool>): (r: Client)
    requires Shaped(c) && cid < |c.conns|
    ensures Shaped(r) && |r.conns| == |c.conns|
    decreases |got|
  {
    if got == [] then c else Refill(u, SubmitOne(u, c, cid, got[0]), cid, got[1..])
  }

  lemma RefillNext(u: Setup, c: Client, cid: nat, got: seq<bool>)
    requires Shaped(c) && cid < |c.conns| && got != []
    ensures Refill(u, c, cid, got) == Refill(u, SubmitOne(u, c, cid, got[0]), cid, got[1..])
  {
  }

  /** How many turns of a refill submit nothing: no free slot, or no submission entry. */
  function Failures(u: Setup, c: Client, cid: nat, got: seq<bool>): nat
    requires Shaped(c) && cid < |c.conns|
    decreases |got|
  {
    if got == [] then 0
    else (if c.free == [] || !got[0] then 1 else 0) + Failures(u, SubmitOne(u, c, cid, got[0]), cid, got[1..])
  }

  /** A connection after draining `res` new bytes, with the replies counted and the errors seen. */
  function AfterDrain(u: Setup, k: Conn, res: nat): (r: (Conn, nat, nat))
    requires Drainable(k.mem, k.rlen + res)
  {
    var d := DrainBuffer(Tag(u.codec), k.mem, k.rlen + res);
    (Conn(k.inFlight - d.done, d.mem, d.rlen, k.completed + d.done), d.done, d.errors)
  }

  /** The replies of `res` new bytes on a connection are counted and taken off `in_flight`. */
  function Receive(u: Setup, c: Client, cid: nat, res: nat): (r: Client)
    requires cid < |c.conns| && Drainable(c.conns[cid].mem, c.conns[cid].rlen + res)
    ensures |r.conns| == |c.conns| && r.free == c.free && r.pool == c.pool && r.ring == c.ring
  {
    var (k, done, errors) := AfterDrain(u, c.conns[cid], res);
    c.(conns := c.conns[cid := k], completed := c.completed + done, errors := c.errors + errors)
  }

  function RemoveAt<T>(s: seq<T>, i: nat): seq<T>
    requires i < |s|
  {
    s[..i] + s[i + 1..]
  }

  /** A finished receive at position `i` whose connection can be drained of the received bytes. */
  predicate CanReceive(c: Client, i: nat) {
    && i < |c.ring| && c.ring[i].Recv? && UdCid(c.ring[i].ud) < |c.conns|
    && Drainable(c.conns[UdCid(c.ring[i].ud)].mem, c.conns[UdCid(c.ring[i].ud)].rlen + c.ring[i].result)
  }

  /** The client with the receive at position `i` taken off the ring and its bytes drained. */
  function Received(u: Setup, c: Client, i: nat): (r: Client)
    requires CanReceive(c, i)
    ensures |r.conns| == |c.conns| && r.free == c.free && r.pool == c.pool && r.ring == RemoveAt(c.ring, i)
  {
    Receive(u, c.(ring := RemoveAt(c.ring, i)), UdCid(c.ring[i].ud), c.ring[i].result)
  }

  /** The completion at position `i` can be handled: its tag names an existing slot or
      connection, and `got` has one entry per refill. */
  predicate CanHandle(u: Setup, c: Client, i: nat, got: seq<bool>) {
    && Shaped(c) && i < |c.ring| && Done(c.ring[i])
    && if UdOp(c.ring[i].ud) == OP_SEND then UdSlot(c.ring[i].ud) < SEND_POOL_SIZE
       else CanReceive(c, i) && |got| == AfterDrain(u, c.conns[UdCid(c.ring[i].ud)], c.ring[i].result).1
  }

  /** One turn of the completion loop. */
  function Handle(u: Setup, c: Client, i: nat, got: seq<bool>, gotRecv: bool): Client
    requires CanHandle(u, c, i, got)
  {
    var ud := c.ring[i].ud;
    if UdOp(ud) == OP_SEND then c.(ring := RemoveAt(c.ring, i), free := FreeSlot(c.free, UdSlot(ud)))
    else SubmitRecv(Refill(u, Received(u, c, i), UdCid(ud), got), UdCid(ud), gotRecv)
  }

  // ----- receiving -----

  function Overwrite(mem: seq<byte>, at: nat, bytes: seq<byte>): (r: seq<byte>)
    requires at + |bytes| <= |mem|
    ensures |r| == |mem|
  {
    mem[..at] + bytes + mem[at + |bytes|..]
  }
}
