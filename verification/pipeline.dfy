/** The whole distributed system: the pipelined client, its ring, one pair of FIFO byte
    channels per connection, and the server. Steps may interleave in any order and cut
    both byte streams anywhere. */
module Pipeline {
  import opened Wire
  import opened PlayerCodec
  import opened ServerParse
  import opened LoadgenCore
  import opened SendPool

  /** One connection outside the client: bytes sent and not yet received by the server, the
      server's side, replies not yet received by the client. The counters are history:
      requests transmitted, send completions handled, bytes a finished receive has put behind
      the client's `rlen`, and submissions that were given up. */
  datatype Link = Link(
    requests: seq<byte>, server: Outcome, replies: seq<byte>,
    sent: nat, acked: nat, landed: nat, lost: nat)

  datatype System = System(client: Client, links: seq<Link>, seeded: nat)

  datatype Step =
    | Seed(got: seq<bool>, gotRecv: bool)                    // start the next connection
    | Transmit(i: nat)                                       // the kernel executes a send
    | Serve(conn: nat, n: nat)                               // the server reads n bytes
    | Land(i: nat, n: nat)                                   // the kernel executes a receive
    | Complete(i: nat, got: seq<bool>, gotRecv: bool)        // the client handles a completion

  ghost predicate Init(u: Setup, s: System) {
    && ValidSetup(u) && FreshClient(u, s.client) && s.seeded == 0
    && |s.links| == u.conns
    && forall l <- s.links :: l == Link([], Live([]), [], 0, 0, 0, 0)
  }

  predicate Enabled(u: Setup, s: System, step: Step) {
    var c := s.client;
    match step
    case Seed(got, _) =>
      s.seeded < u.conns && s.seeded < |c.conns| && s.seeded < |s.links| && |got| == u.depth && Shaped(c)
    case Transmit(i) =>
      && i < |c.ring| && c.ring[i].Send? && !c.ring[i].executed
      && c.ring[i].conn < |s.links| && c.ring[i].slot < |c.pool|
    case Serve(conn, n) =>
      conn < |s.links| && s.links[conn].server.Live? && 1 <= n <= |s.links[conn].requests|
    case Land(i, n) =>
      && i < |c.ring| && c.ring[i].Recv? && c.ring[i].result == 0
      && c.ring[i].conn < |s.links| && c.ring[i].conn < |c.conns|
      && 1 <= n <= c.ring[i].room && n <= |s.links[c.ring[i].conn].replies|
      && c.ring[i].offset + n <= |c.conns[c.ring[i].conn].mem|
    case Complete(i, got, _) =>
      && s.seeded == u.conns && CanHandle(u, c, i, got)
      && UdCid(c.ring[i].ud) < |s.links|
  }

  function SeedConn(u: Setup, s: System, got: seq<bool>, gotRecv: bool): System
    requires Enabled(u, s, Seed(got, gotRecv))
  {
    var cid := s.seeded;
    var l := s.links[cid];
    System(SubmitRecv(Refill(u, s.client, cid, got), cid, gotRecv),
           s.links[cid := l.(lost := l.lost + Failures(u, s.client, cid, got))],
           s.seeded + 1)
  }

  /** The kernel reads the slot when it executes the send, not when it was submitted. */
  function TransmitOp(u: Setup, s: System, i: nat): System
    requires Enabled(u, s, Transmit(i))
  {
    var op := s.client.ring[i];
    var l := s.links[op.conn];
    s.(client := s.client.(ring := s.client.ring[i := op.(executed := true)]),
       links := s.links[op.conn := l.(requests := l.requests + s.client.pool[op.slot], sent := l.sent + 1)])
  }

  function ServeBytes(l: Link, n: nat): Link
    requires l.server.Live? && n <= |l.requests|
  {
    var r := Parse(l.server.rest + l.requests[..n]);
    l.(requests := l.requests[n..], server := r.outcome, replies := l.replies + r.replies)
  }

  function LandOp(u: Setup, s: System, i: nat, n: nat): System
    requires Enabled(u, s, Land(i, n))
  {
    var op := s.client.ring[i];
    var l, k := s.links[op.conn], s.client.conns[op.conn];
    s.(client := s.client.(ring := s.client.ring[i := op.(result := n)],
                           conns := s.client.conns[op.conn := k.(mem := Overwrite(k.mem, op.offset, l.replies[..n]))]),
       links := s.links[op.conn := l.(replies := l.replies[n..], landed := n)])
  }

  function CompleteOp(u: Setup, s: System, i: nat, got: seq<bool>, gotRecv: bool): System
    requires Enabled(u, s, Complete(i, got, gotRecv))
  {
    var op := s.client.ring[i];
    var cid := UdCid(op.ud);
    var l := s.links[cid];
    var l' := if UdOp(op.ud) == OP_SEND then l.(acked := l.acked + 1)
              else l.(landed := 0, lost := l.lost + Failures(u, Received(u, s.client, i), cid, got));
    s.(client := Handle(u, s.client, i, got, gotRecv), links := s.links[cid := l'])
  }

  function Apply(u: Setup, s: System, step: Step): System
    requires Enabled(u, s, step)
  {
    match step
    case Seed(got, gotRecv) => SeedConn(u, s, got, gotRecv)
    case Transmit(i) => TransmitOp(u, s, i)
    case Serve(conn, n) => s.(links := s.links[conn := ServeBytes(s.links[conn], n)])
    case Land(i, n) => LandOp(u, s, i, n)
    case Complete(i, got, gotRecv) => CompleteOp(u, s, i, got, gotRecv)
  }

  // ----- the invariant -----

  /** Whole requests between the client's sends and the server's parser. */
  function Unanswered(l: Link): nat {
    if l.server.Live? then FrameCount(l.server.rest + l.requests, MAX_PAYLOAD) else 0
  }

  /** Reply bytes between the server and the client's parser, oldest first. */
  function ReplyBytes(k: Conn, l: Link): seq<byte> {
    if k.rlen + l.landed <= |k.mem| then k.mem[..k.rlen + l.landed] + l.replies else l.replies
  }

  function Unread(k: Conn, l: Link): nat {
    FrameCount(ReplyBytes(k, l), MAX_REPLY)
  }

  /** Conservation on one connection: every request transmitted is waiting for the server, or
      its reply is on the way, or it has been counted as completed; nothing is malformed. */
  ghost predicate Flow(u: Setup, k: Conn, l: Link) {
    && |k.mem| == RECV_BUF_SIZE && k.rlen <= 1 + MAX_REPLY && k.rlen + l.landed <= RECV_BUF_SIZE
    && l.server.Live?
    && Uniform(l.server.rest + l.requests, RequestPayload(u), MAX_PAYLOAD)
    && Uniform(ReplyBytes(k, l), ReplyPayload(u), MAX_REPLY)
    && l.sent == Unanswered(l) + Unread(k, l) + k.completed
  }

  /** Requests submitted and not yet completed, `waiting` of them not yet transmitted. */
  function Outstanding(waiting: nat, k: Conn, l: Link): nat {
    waiting + Unanswered(l) + Unread(k, l)
  }

  /** A receive always targets the end of the accumulated bytes, so draining the buffer never
      moves bytes under it and the fall-back to offset 0 is never taken. */
  predicate RecvOk(conns: seq<Conn>, links: seq<Link>, op: Op) {
    op.Recv? ==>
      && op.conn < |conns| && op.conn < |links|
      && op.ud == TagRecv(op.conn)
      && op.offset == conns[op.conn].rlen < RECV_BUF_SIZE && op.room == RECV_BUF_SIZE - op.offset
      && op.result == links[op.conn].landed <= op.room
  }

  /** What holds of one connection, given what the ring holds of it; `target` is the depth once
      it is seeded, 0 before. `in_flight` exceeds the outstanding requests by exactly the
      number of submissions given up. */
  ghost predicate ConnInv(u: Setup, t: Tally, k: Conn, l: Link, seeded: bool) {
    var target := if seeded then u.depth else 0;
    && Flow(u, k, l)
    && t.recvs <= (if seeded then 1 else 0)
    && (t.recvs == 0 ==> l.landed == 0)
    && k.inFlight == target
    && Outstanding(t.waiting, k, l) + l.lost == target
    && t.sends + l.acked == l.sent + t.waiting
    && (!seeded ==> t == Tally(0, 0, 0))
  }

  ghost predicate Sized(u: Setup, s: System) {
    ValidSetup(u) && |s.client.conns| == |s.links| == u.conns && s.seeded <= u.conns
  }

  ghost predicate ConnOk(u: Setup, s: System, c: nat)
    requires c < |s.client.conns| && c < |s.links|
  {
    ConnInv(u, TallyOf(s.client.ring, c), s.client.conns[c], s.links[c], c < s.seeded)
  }

  ghost predicate ConnsOk(u: Setup, s: System) {
    Sized(u, s) && forall c: nat :: c < u.conns ==> ConnOk(u, s, c)
  }

  ghost predicate RecvsOk(s: System) {
    forall op <- s.client.ring :: RecvOk(s.client.conns, s.links, op)
  }

  function TotalCompleted(conns: seq<Conn>): nat {
    if conns == [] then 0 else TotalCompleted(conns[..|conns| - 1]) + conns[|conns| - 1].completed
  }

  /** Holds in every reachable state. */
  ghost predicate Inv(u: Setup, s: System) {
    && PoolInv(u, s.client) && ConnsOk(u, s) && RecvsOk(s)
    && s.client.errors == 0 && s.client.completed == TotalCompleted(s.client.conns)
  }

  // ----- one connection: each kind of step preserves the flow -----

  lemma RequestIsAnswered(u: Setup)
    ensures Respond(RequestPayload(u)) == Some(ReplyPayload(u))
    ensures 1 <= |RequestPayload(u)| <= MAX_PAYLOAD && 1 <= |ReplyPayload(u)| <= MAX_REPLY
    ensures ReplyPayload(u)[0] == Tag(u.codec)
  {
    RespondEncoded(u.codec, u.start);
  }

  lemma TransmitFlow(u: Setup, k: Conn, l: Link)
    requires Flow(u, k, l)
    ensures var l' := l.(requests := l.requests + Request(u), sent := l.sent + 1);
            Flow(u, k, l') && Unanswered(l') == Unanswered(l) + 1 && Unread(k, l') == Unread(k, l)
  {
    var queue, payload := l.server.rest + l.requests, RequestPayload(u);
    assert 1 <= |payload| <= MAX_PAYLOAD;
    UniformPush(queue, payload, MAX_PAYLOAD);
    Associative(l.server.rest, l.requests, Frame(payload));
  }

  /** The server answers a run of template requests with as many template replies. */
  lemma {:induction false} ParseUniform(u: Setup, s: seq<byte>, sofar: seq<byte>)
    requires Legal(s, MAX_PAYLOAD)
    requires forall p <- SplitFrames(s, MAX_PAYLOAD).payloads :: p == RequestPayload(u)
    requires Uniform(sofar, ReplyPayload(u), MAX_REPLY)
    ensures Parse(s).outcome == Live(SplitFrames(s, MAX_PAYLOAD).tail)
    ensures Uniform(sofar + Parse(s).replies, ReplyPayload(u), MAX_REPLY)
    ensures FrameCount(sofar + Parse(s).replies, MAX_REPLY) == FrameCount(sofar, MAX_REPLY) + FrameCount(s, MAX_PAYLOAD)
    decreases |s|
  {
    var h := NextFrame(s, MAX_PAYLOAD);
    if h.Whole? {
      var rest := SplitFrames(h.rest, MAX_PAYLOAD);
      var ps := SplitFrames(s, MAX_PAYLOAD).payloads;
      assert ps == [h.payload] + rest.payloads;
      assert h.payload == RequestPayload(u) by { assert ps[0] in ps; }
      assert forall p <- rest.payloads :: p in ps;
      RequestIsAnswered(u);
      UniformPush(sofar, ReplyPayload(u), MAX_REPLY);
      ParseUniform(u, h.rest, sofar + Frame(ReplyPayload(u)));
      Associative(sofar, Frame(ReplyPayload(u)), Parse(h.rest).replies);
      assert Parse(s) == Prepend(Frame(ReplyPayload(u)), Parse(h.rest));
    } else {
      assert sofar + [] == sofar;
    }
  }

  /** The server reads `head` of a queue of template requests, with earlier replies on their way. */
  lemma ServeUniform(u: Setup, head: seq<byte>, more: seq<byte>, before: seq<byte>, r: Parsed)
    requires Uniform(head + more, RequestPayload(u), MAX_PAYLOAD) && Uniform(before, ReplyPayload(u), MAX_REPLY)
    requires r == Parse(head)
    ensures r.outcome.Live? && Uniform(r.outcome.rest + more, RequestPayload(u), MAX_PAYLOAD)
    ensures Uniform(before + r.replies, ReplyPayload(u), MAX_REPLY)
    ensures FrameCount(r.outcome.rest + more, MAX_PAYLOAD) + FrameCount(before + r.replies, MAX_REPLY)
         == FrameCount(head + more, MAX_PAYLOAD) + FrameCount(before, MAX_REPLY)
  {
    UniformCut(head, more, RequestPayload(u), MAX_PAYLOAD);
    ParseUniform(u, head, before);
  }

  lemma ServeFlow(u: Setup, k: Conn, l: Link, n: nat)
    requires Flow(u, k, l) && n <= |l.requests|
    ensures var l' := ServeBytes(l, n);
            && Flow(u, k, l')
            && Unanswered(l') + Unread(k, l') == Unanswered(l) + Unread(k, l)
  {
    var head, more := l.server.rest + l.requests[..n], l.requests[n..];
    assert head + more == l.server.rest + l.requests;
    ServeUniform(u, head, more, ReplyBytes(k, l), Parse(head));
    Associative(k.mem[..k.rlen + l.landed], l.replies, Parse(head).replies);
  }

  lemma LandFlow(u: Setup, k: Conn, l: Link, n: nat)
    requires Flow(u, k, l) && l.landed == 0 && n <= |l.replies| && k.rlen + n <= RECV_BUF_SIZE
    ensures var k' := k.(mem := Overwrite(k.mem, k.rlen, l.replies[..n]));
            var l' := l.(replies := l.replies[n..], landed := n);
            Flow(u, k', l') && Unanswered(l') == Unanswered(l) && Unread(k', l') == Unread(k, l)
  {
    LandedBytes(k.mem, k.rlen, l.replies, n);
    assert k.rlen + 0 == k.rlen;
  }

  lemma LandedBytes(mem: seq<byte>, rlen: nat, replies: seq<byte>, n: nat)
    requires n <= |replies| && rlen + n <= |mem|
    ensures Overwrite(mem, rlen, replies[..n])[..rlen + n] + replies[n..] == mem[..rlen] + replies
  {
  }

  lemma {:induction false} MatchingAll(payloads: seq<seq<byte>>, payload: seq<byte>)
    requires payload != [] && forall p <- payloads :: p == payload
    ensures Matching(payloads, payload[0]) == |payloads|
  {
    if payloads != [] {
      assert payloads[0] in payloads && forall p <- payloads[1..] :: p in payloads;
      MatchingAll(payloads[1..], payload);
    }
  }

  /** Draining a buffer of template replies, more of which are to come. */
  lemma DrainUniform(tag: byte, payload: seq<byte>, mem: seq<byte>, len: nat, more: seq<byte>, d: Drained)
    requires len <= |mem| && 1 <= |payload| <= MAX_REPLY && payload[0] == tag && d == Drain(tag, mem, len)
    requires Uniform(mem[..len] + more, payload, MAX_REPLY)
    ensures |d.mem| == |mem| && d.rlen <= 1 + MAX_REPLY && d.rlen <= |mem| && d.errors == 0
    ensures Uniform(d.mem[..d.rlen] + more, payload, MAX_REPLY)
    ensures FrameCount(mem[..len] + more, MAX_REPLY) == d.done + FrameCount(d.mem[..d.rlen] + more, MAX_REPLY)
  {
    DrainSplits(tag, mem, len);
    UniformCut(mem[..len], more, payload, MAX_REPLY);
    LegalTailIsShort(mem[..len], MAX_REPLY);
    MatchingAll(SplitFrames(mem[..len], MAX_REPLY).payloads, payload);
  }

  lemma DrainFlow(u: Setup, k: Conn, l: Link)
    requires Flow(u, k, l)
    ensures var (k', done, errors) := AfterDrain(u, k, l.landed);
            var l' := l.(landed := 0);
            && Flow(u, k', l') && errors == 0
            && Unanswered(l') == Unanswered(l) && Unread(k, l) == done + Unread(k', l')
  {
    var len := k.rlen + l.landed;
    RequestIsAnswered(u);
    DrainUniform(Tag(u.codec), ReplyPayload(u), k.mem, len, l.replies, Drain(Tag(u.codec), k.mem, len));
  }

  // ----- one connection: each kind of step preserves what holds of it -----

  lemma SeedConnInv(u: Setup, t: Tally, k: Conn, l: Link, lost: nat)
    requires ConnInv(u, Tally(0, 0, 0), k, l, false) && t.waiting == t.sends && t.waiting + lost == u.depth
            && t.recvs <= 1
    ensures ConnInv(u, t, k.(inFlight := k.inFlight + u.depth), l.(lost := l.lost + lost), true)
  {
    assert ReplyBytes(k.(inFlight := k.inFlight + u.depth), l.(lost := l.lost + lost)) == ReplyBytes(k, l);
  }

  lemma TransmitConnInv(u: Setup, t: Tally, k: Conn, l: Link, seeded: bool)
    requires ConnInv(u, t, k, l, seeded) && t.waiting > 0
    ensures ConnInv(u, t.(waiting := t.waiting - 1), k,
                    l.(requests := l.requests + Request(u), sent := l.sent + 1), seeded)
  {
    TransmitFlow(u, k, l);
  }

  lemma ServeConnInv(u: Setup, t: Tally, k: Conn, l: Link, seeded: bool, n: nat)
    requires ConnInv(u, t, k, l, seeded) && n <= |l.requests|
    ensures ConnInv(u, t, k, ServeBytes(l, n), seeded)
  {
    ServeFlow(u, k, l, n);
  }

  lemma LandConnInv(u: Setup, t: Tally, k: Conn, l: Link, seeded: bool, n: nat)
    requires ConnInv(u, t, k, l, seeded) && t.recvs > 0
    requires l.landed == 0 && n <= |l.replies| && k.rlen + n <= RECV_BUF_SIZE
    ensures ConnInv(u, t, k.(mem := Overwrite(k.mem, k.rlen, l.replies[..n])),
                    l.(replies := l.replies[n..], landed := n), seeded)
  {
    LandFlow(u, k, l, n);
  }

  lemma AckConnInv(u: Setup, t: Tally, k: Conn, l: Link, seeded: bool)
    requires ConnInv(u, t, k, l, seeded) && t.sends > 0
    ensures ConnInv(u, t.(sends := t.sends - 1), k, l.(acked := l.acked + 1), seeded)
  {
  }

  /** Handling a receive: as many submissions are tried as replies were counted. */
  lemma DrainConnInv(u: Setup, t: Tally, k: Conn, l: Link, tried: Tally, lost: nat)
    requires ConnInv(u, t, k, l, true) && k.rlen + l.landed <= |k.mem|
    requires tried.waiting + lost == t.waiting + AfterDrain(u, k, l.landed).1
    requires tried.sends - t.sends == tried.waiting - t.waiting && tried.recvs <= 1
    ensures var k' := AfterDrain(u, k, l.landed).0;
            ConnInv(u, tried, k'.(inFlight := k.inFlight), l.(landed := 0, lost := l.lost + lost), true)
  {
    DrainFlow(u, k, l);
    var k', l' := AfterDrain(u, k, l.landed).0, l.(landed := 0);
    assert ReplyBytes(k'.(inFlight := k.inFlight), l'.(lost := l.lost + lost)) == ReplyBytes(k', l');
  }
}
