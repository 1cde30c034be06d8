/** What the handling of one completion does to the counters of the pipelined client, from any
    state and whatever bytes were received. */
module CompletionCounts {
  import opened Wire
  import opened PlayerCodec
  import opened LoadgenCore

  // ----- numbers of the program -----

  /** The tags as numbers: a multiple of four for a send, one more for a receive. */
  lemma TagNumbers(cid: nat, slot: nat)
    ensures TagSend(cid, slot) == 65536 * slot + 4 * cid && TagRecv(cid) == 4 * cid + 1
    ensures cid < 4096 ==> UdOp(TagSend(cid, slot)) == 0 && UdOp(TagRecv(cid)) == 1
  {
  }

  /** A receive goes behind what a buffer of 4096 bytes holds, and to its front when it is full. */
  lemma ReceiveTarget(c: Client, cid: nat)
    requires cid < |c.conns|
    ensures SubmitRecv(c, cid, false) == c
    ensures var rlen, r := c.conns[cid].rlen, SubmitRecv(c, cid, true);
            && (rlen < 4096 ==> r == c.(ring := c.ring + [Recv(cid, rlen, 4096 - rlen, 4 * cid + 1, 0)]))
            && (rlen >= 4096 ==> r == c.(ring := c.ring + [Recv(cid, 0, 4096, 4 * cid + 1, 0)]))
  {
  }

  /** Replies are counted by their first byte, one by one and wherever the stream is cut. */
  lemma {:induction false} MatchingAppend(ps: seq<seq<byte>>, qs: seq<seq<byte>>, tag: byte)
    ensures Matching(ps + qs, tag) == Matching(ps, tag) + Matching(qs, tag)
  {
    if ps == [] {
      assert ps + qs == qs;
    } else {
      assert (ps + qs)[1..] == ps[1..] + qs;
      MatchingAppend(ps[1..], qs, tag);
    }
  }

  lemma MatchingOne(payload: seq<byte>, tag: byte)
    requires payload != []
    ensures Matching([payload], tag) == if payload[0] == tag then 1 else 0
  {
  }

  // ----- received bytes -----

  /** The filled part of the buffer after `res` more bytes have landed behind what it held. */
  function Filled(k: Conn, res: nat): seq<byte>
    requires k.rlen + res <= |k.mem|
  {
    k.mem[..k.rlen + res]
  }

  /** `r` is `k` after the replies in `s` have been counted and taken off. */
  ghost predicate Consumed(k: Conn, r: Conn, tag: byte, s: Split) {
    var own := Matching(s.payloads, tag);
    && r.completed == k.completed + own && r.inFlight == k.inFlight - own
    && |r.mem| == |k.mem| && r.rlen == |s.tail| <= |r.mem| && r.mem[..r.rlen] == s.tail
  }

  /** The errors of a split: every frame with another tag, and an illegal header behind the frames. */
  function Foreign(s: Split, tag: byte): int {
    |s.payloads| - Matching(s.payloads, tag) + if NextFrame(s.tail, 64).Illegal? then 1 else 0
  }

  lemma {:induction false} MatchingBound(ps: seq<seq<byte>>, tag: byte)
    ensures Matching(ps, tag) <= |ps|
  {
    if ps != [] {
      MatchingBound(ps[1..], tag);
    }
  }

  lemma DrainCounts(u: Setup, k: Conn, res: nat)
    requires k.rlen + res <= |k.mem|
    ensures var (r, done, errors), s := AfterDrain(u, k, res), SplitFrames(Filled(k, res), 64);
            && Consumed(k, r, Tag(u.codec), s)
            && done == Matching(s.payloads, Tag(u.codec)) && errors == Foreign(s, Tag(u.codec))
  {
    DrainSplits(Tag(u.codec), k.mem, k.rlen + res);
    TailIsNotWhole(Filled(k, res), 64);
    SplitIsExact(Filled(k, res), 64);
  }

  /** Every reply with the right tag raises both counters of completions by one; every other frame
      and an illegal header raise the counter of errors by one; the bytes behind them stay. */
  lemma ReceiveCounts(u: Setup, c: Client, cid: nat, res: nat)
    requires cid < |c.conns| && c.conns[cid].rlen + res <= |c.conns[cid].mem|
    ensures var r, s := Receive(u, c, cid, res), SplitFrames(Filled(c.conns[cid], res), 64);
            && r.completed == c.completed + Matching(s.payloads, Tag(u.codec))
            && r.errors == c.errors + Foreign(s, Tag(u.codec))
            && Consumed(c.conns[cid], r.conns[cid], Tag(u.codec), s)
            && forall d: nat :: d < |c.conns| && d != cid ==> r.conns[d] == c.conns[d]
  {
    DrainCounts(u, c.conns[cid], res);
  }

  /** Past the end of the buffer, where the first length is illegal, there is one more error. */
  lemma ReceiveBehindTheEnd(u: Setup, c: Client, cid: nat, res: nat)
    requires cid < |c.conns| && Drainable(c.conns[cid].mem, c.conns[cid].rlen + res)
    requires c.conns[cid].rlen + res > |c.conns[cid].mem|
    ensures var k := c.conns[cid];
            Receive(u, c, cid, res) ==
            c.(errors := c.errors + 1, conns := c.conns[cid := k.(rlen := k.rlen + res)])
  {
  }

  // ----- whole completions -----

  /** Refilling appends to the ring and counts nothing but what is in flight. */
  ghost predicate OnlyFlying(c: Client, r: Client, cid: nat, n: nat) {
    && cid < |c.conns| && r.completed == c.completed && r.errors == c.errors && c.ring <= r.ring
    && r.conns == c.conns[cid := c.conns[cid].(inFlight := c.conns[cid].inFlight + n)]
  }

  lemma OnlyFlyingOne(u: Setup, c: Client, cid: nat, gotSqe: bool, r: Client)
    requires Shaped(c) && cid < |c.conns| && r == SubmitOne(u, c, cid, gotSqe)
    ensures OnlyFlying(c, r, cid, 1)
  {
  }

  lemma OnlyFlyingTwice(a: Client, b: Client, c: Client, cid: nat, m: nat, n: nat, both: nat)
    requires OnlyFlying(a, b, cid, m) && OnlyFlying(b, c, cid, n) && both == m + n
    ensures OnlyFlying(a, c, cid, both)
  {
  }

  lemma {:induction false} RefillCounts(u: Setup, c: Client, cid: nat, got: seq<bool>, r: Client, n: nat)
    requires Shaped(c) && cid < |c.conns| && r == Refill(u, c, cid, got) && n == |got|
    ensures OnlyFlying(c, r, cid, n)
    decreases |got|
  {
    if got == [] {
      assert c.conns[cid := c.conns[cid]] == c.conns;
    } else {
      var c1 := SubmitOne(u, c, cid, got[0]);
      RefillNext(u, c, cid, got);
      OnlyFlyingOne(u, c, cid, got[0], c1);
      RefillCounts(u, c1, cid, got[1..], r, n - 1);
      OnlyFlyingTwice(c, c1, r, cid, 1, n - 1, n);
    }
  }

  /** A send completion gives back its slot and counts nothing. */
  lemma HandleSendCounts(u: Setup, c: Client, i: nat, got: seq<bool>, gotRecv: bool)
    requires CanHandle(u, c, i, got) && c.ring[i].ud % 4 == 0
    ensures var r, slot := Handle(u, c, i, got, gotRecv), c.ring[i].ud / 65536;
            && slot < 8192 && r.ring == c.ring[..i] + c.ring[i + 1..]
            && r.free == (if |c.free| < 8192 then c.free + [slot] else c.free)
            && r.pool == c.pool && r.conns == c.conns && r.completed == c.completed && r.errors == c.errors
  {
  }

  lemma HandleStages(u: Setup, c: Client, i: nat, got: seq<bool>, gotRecv: bool, cid: nat, c1: Client, c2: Client)
    requires CanHandle(u, c, i, got) && c.ring[i].ud % 4 != 0 && cid == UdCid(c.ring[i].ud)
    requires c1 == Received(u, c, i) && c2 == Refill(u, c1, cid, got)
    ensures Handle(u, c, i, got, gotRecv) == SubmitRecv(c2, cid, gotRecv)
    ensures OnlyFlying(c1, c2, cid, |got|)
  {
    RefillCounts(u, c1, cid, got, c2, |got|);
  }

  /** Past the end of the buffer a receive completion counts one error and refills nothing. */
  lemma HandleBehindTheEnd(u: Setup, c: Client, i: nat, got: seq<bool>, gotRecv: bool)
    requires CanHandle(u, c, i, got) && c.ring[i].ud % 4 != 0
    requires var k := c.conns[c.ring[i].ud / 4 % 16384]; k.rlen + c.ring[i].result > |k.mem|
    ensures var cid := c.ring[i].ud / 4 % 16384;
            var k := c.conns[cid];
            && got == []
            && Handle(u, c, i, got, gotRecv) ==
               SubmitRecv(c.(ring := c.ring[..i] + c.ring[i + 1..], errors := c.errors + 1,
                             conns := c.conns[cid := k.(rlen := k.rlen + c.ring[i].result)]), cid, gotRecv)
  {
    var cid := UdCid(c.ring[i].ud);
    ReceiveBehindTheEnd(u, c.(ring := RemoveAt(c.ring, i)), cid, c.ring[i].result);
  }

  /** A receive completion is taken off the ring, the rest stays in order; there is one refill per
      reply counted, so that what is in flight stays what it was. */
  lemma HandleReceiveCounts(u: Setup, c: Client, i: nat, got: seq<bool>, gotRecv: bool)
    requires CanHandle(u, c, i, got) && c.ring[i].ud % 4 != 0
    requires var k := c.conns[c.ring[i].ud / 4 % 16384]; k.rlen + c.ring[i].result <= |k.mem|
    ensures var r, cid := Handle(u, c, i, got, gotRecv), c.ring[i].ud / 4 % 16384;
            var k, k', tag := c.conns[cid], r.conns[cid], Tag(u.codec);
            var s := SplitFrames(Filled(k, c.ring[i].result), 64);
            && |got| == Matching(s.payloads, tag)
            && r.completed == c.completed + |got| && r.errors == c.errors + Foreign(s, tag)
            && k'.completed == k.completed + |got| && k'.inFlight == k.inFlight
            && k'.rlen == |s.tail| <= |k'.mem| && k'.mem[..k'.rlen] == s.tail
            && c.ring[..i] + c.ring[i + 1..] <= r.ring
            && forall d: nat :: d < |c.conns| && d != cid ==> r.conns[d] == c.conns[d]
  {
    var cid := UdCid(c.ring[i].ud);
    var c1 := Received(u, c, i);
    var c2 := Refill(u, c1, cid, got);
    DrainCounts(u, c.conns[cid], c.ring[i].result);
    ReceiveCounts(u, c.(ring := RemoveAt(c.ring, i)), cid, c.ring[i].result);
    HandleStages(u, c, i, got, gotRecv, cid, c1, c2);
  }
}
