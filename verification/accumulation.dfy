/** A connection's receive buffer over any sequence of receives the program can make: what it
    holds, what is counted, when it can fill up, and how the counts depend on the chunking. */
module Accumulation {
  import opened Wire
  import opened PlayerCodec
  import opened LoadgenCore

  /** A connection after some receives, with the completions and errors counted on the way. */
  datatype Accumulated = Accumulated(conn: Conn, done: nat, errors: nat)

  /** What a receive comes to: a connection that has been drained, a drain that runs past the
      end of the buffer, or no receive the kernel could make. */
  datatype Outcome = Held(acc: Accumulated) | Overrun | Impossible

  /** The kernel delivers at least one byte and no more than the receive has room for. */
  predicate Deliverable(k: Conn, chunk: seq<byte>) {
    |k.mem| == RECV_BUF_SIZE && chunk != [] && RecvOffset(k.rlen) + |chunk| <= RECV_BUF_SIZE
  }

  /** The buffer after a receive: behind what it holds, or over the front when it is full. */
  function Landed(k: Conn, chunk: seq<byte>): (mem: seq<byte>)
    requires Deliverable(k, chunk)
    ensures |mem| == RECV_BUF_SIZE
  {
    Overwrite(k.mem, RecvOffset(k.rlen), chunk)
  }

  function ReceiveChunk(u: Setup, before: Accumulated, chunk: seq<byte>): Outcome {
    var k := before.conn;
    if !Deliverable(k, chunk) then Impossible
    else
      var mem := Landed(k, chunk);
      if !Drainable(mem, k.rlen + |chunk|) then Overrun
      else
        var (k', done, errors) := AfterDrain(u, k.(mem := mem), |chunk|);
        Held(Accumulated(k', before.done + done, before.errors + errors))
  }

  /** Receives one after the other; after an overrun the program has no meaning any more. */
  function ReceiveAll(u: Setup, k: Conn, chunks: seq<seq<byte>>): Outcome {
    if chunks == [] then Held(Accumulated(k, 0, 0))
    else
      match ReceiveAll(u, k, chunks[..|chunks| - 1])
      case Held(before) => ReceiveChunk(u, before, chunks[|chunks| - 1])
      case other => other
  }

  /** What is left of a stream when all whole frames have been taken. */
  function Tail(s: seq<byte>): seq<byte> {
    SplitFrames(s, MAX_REPLY).tail
  }

  /** How many of the receives ended with an illegal header at the front of the stream's rest. */
  function IllegalReceives(chunks: seq<seq<byte>>): nat {
    if chunks == [] then 0
    else IllegalReceives(chunks[..|chunks| - 1]) + (if Legal(Concat(chunks), MAX_REPLY) then 0 else 1)
  }

  predicate Empty(k: Conn) {
    |k.mem| == RECV_BUF_SIZE && k.rlen == 0
  }

  /** The state after receiving the stream s with this many illegal receives. */
  ghost predicate Means(u: Setup, k: Conn, s: seq<byte>, illegal: nat, r: Accumulated) {
    var split := SplitFrames(s, MAX_REPLY);
    && |r.conn.mem| == RECV_BUF_SIZE && r.conn.rlen == |split.tail|
    && (r.conn.rlen <= RECV_BUF_SIZE ==> r.conn.mem[..r.conn.rlen] == split.tail)
    && r.done == Matching(split.payloads, Tag(u.codec))
    && r.errors == |split.payloads| - r.done + illegal
    && r.conn.completed == k.completed + r.done && r.conn.inFlight == k.inFlight - r.done
  }

  lemma {:induction false} MatchingAppend(a: seq<seq<byte>>, b: seq<seq<byte>>, tag: byte)
    ensures Matching(a + b, tag) == Matching(a, tag) + Matching(b, tag)
  {
    if a == [] {
      assert a + b == b;
    } else {
      assert (a + b)[1..] == a[1..] + b;
      MatchingAppend(a[1..], b, tag);
    }
  }

  /** The frames of a longer stream, from what was left of its front and the new bytes. */
  lemma FramesInRoom(s: seq<byte>, chunk: seq<byte>, filled: seq<byte>, tag: byte)
    requires filled == Tail(s) + chunk
    ensures var front, more, all := SplitFrames(s, MAX_REPLY), SplitFrames(filled, MAX_REPLY),
            SplitFrames(s + chunk, MAX_REPLY);
            && all.tail == more.tail && |all.payloads| == |front.payloads| + |more.payloads|
            && Matching(all.payloads, tag) == Matching(front.payloads, tag) + Matching(more.payloads, tag)
            && Legal(s + chunk, MAX_REPLY) == Legal(filled, MAX_REPLY)
  {
    SplitAppend(s, chunk, MAX_REPLY);
    MatchingAppend(SplitFrames(s, MAX_REPLY).payloads, SplitFrames(filled, MAX_REPLY).payloads, tag);
  }

  /** What a receive into the free room does, by the drained buffer. */
  lemma ChunkInRoom(u: Setup, before: Accumulated, chunk: seq<byte>, mem: seq<byte>, len: nat, d: Drained)
    requires |before.conn.mem| == RECV_BUF_SIZE && chunk != [] && len == before.conn.rlen + |chunk| <= RECV_BUF_SIZE
    requires mem == Overwrite(before.conn.mem, before.conn.rlen, chunk) && d == Drain(Tag(u.codec), mem, len)
    ensures mem[..len] == before.conn.mem[..before.conn.rlen] + chunk
    ensures ReceiveChunk(u, before, chunk) ==
            Held(Accumulated(Conn(before.conn.inFlight - d.done, d.mem, d.rlen, before.conn.completed + d.done),
                             before.done + d.done, before.errors + d.errors))
  {
  }

  /** A receive into the free room. */
  lemma MeansInRoom(u: Setup, k: Conn, s: seq<byte>, illegal: nat, before: Accumulated, chunk: seq<byte>)
    requires Means(u, k, s, illegal, before) && chunk != [] && before.conn.rlen + |chunk| <= RECV_BUF_SIZE
    ensures ReceiveChunk(u, before, chunk).Held?
    ensures Means(u, k, s + chunk, illegal + (if Legal(s + chunk, MAX_REPLY) then 0 else 1),
            ReceiveChunk(u, before, chunk).acc)
  {
    var mem, len := Overwrite(before.conn.mem, before.conn.rlen, chunk), before.conn.rlen + |chunk|;
    var d := Drain(Tag(u.codec), mem, len);
    ChunkInRoom(u, before, chunk, mem, len, d);
    DrainSplits(Tag(u.codec), mem, len);
    FramesInRoom(s, chunk, mem[..len], Tag(u.codec));
  }

  /** A receive over the front of a full buffer, behind an illegal header. */
  lemma MeansOverFront(u: Setup, k: Conn, s: seq<byte>, illegal: nat, before: Accumulated, chunk: seq<byte>)
    requires Means(u, k, s, illegal, before) && before.conn.rlen >= RECV_BUF_SIZE
            && ReceiveChunk(u, before, chunk).Held?
    ensures !Legal(s + chunk, MAX_REPLY) && Tail(s + chunk) == Tail(s) + chunk
    ensures Means(u, k, s + chunk, illegal + 1, ReceiveChunk(u, before, chunk).acc)
  {
    if Legal(s, MAX_REPLY) {
      LegalTailIsShort(s, MAX_REPLY);
    }
    SplitIllegal(s, chunk, MAX_REPLY);
    IllegalStays(s, chunk, MAX_REPLY);
  }

  lemma {:induction false} EveryReceive(u: Setup, k: Conn, chunks: seq<seq<byte>>)
    requires Empty(k) && ReceiveAll(u, k, chunks).Held?
    ensures Means(u, k, Concat(chunks), IllegalReceives(chunks), ReceiveAll(u, k, chunks).acc)
  {
    if chunks == [] {
      assert SplitFrames([], MAX_REPLY) == Split([], []);
    } else {
      var init, last := chunks[..|chunks| - 1], chunks[|chunks| - 1];
      EveryReceive(u, k, init);
      var before := ReceiveAll(u, k, init).acc;
      if before.conn.rlen < RECV_BUF_SIZE {
        MeansInRoom(u, k, Concat(init), IllegalReceives(init), before, last);
      } else {
        MeansOverFront(u, k, Concat(init), IllegalReceives(init), before, last);
      }
    }
  }

  /** As long as no drain runs past the buffer, the completions are those of the whole stream and
      `rlen` is the length of its unconsumed suffix; as long as `rlen` is inside the buffer, the
      buffer holds exactly that suffix. Only the error count sees the chunking, by one extra error
      for each receive that finds an illegal header at the front. */
  lemma AccumulationMeaning(u: Setup, k: Conn, chunks: seq<seq<byte>>)
    requires Empty(k) && ReceiveAll(u, k, chunks).Held?
    ensures var r := ReceiveAll(u, k, chunks).acc;
            var split := SplitFrames(Concat(chunks), 64);
            && r.conn.rlen == |split.tail|
            && (r.conn.rlen <= 4096 ==> r.conn.rlen <= |r.conn.mem| && r.conn.mem[..r.conn.rlen] == split.tail)
            && r.done == Matching(split.payloads, Tag(u.codec)) && r.conn.completed == k.completed + r.done
            && r.errors == |split.payloads| - r.done + IllegalReceives(chunks)
  {
    EveryReceive(u, k, chunks);
  }

  // ----- when a drain runs past the buffer -----

  lemma ReceivesNext(u: Setup, k: Conn, chunks: seq<seq<byte>>, last: seq<byte>)
    requires ReceiveAll(u, k, chunks).Held?
    ensures ReceiveAll(u, k, chunks + [last]) == ReceiveChunk(u, ReceiveAll(u, k, chunks).acc, last)
  {
    assert (chunks + [last])[..|chunks|] == chunks;
  }

  /** The next receive the kernel can make is drained, or runs past the buffer: exactly when a
      whole buffer of the stream is left unconsumed and the receive, which then goes over the
      front, puts a legal length there. */
  lemma OverrunExactly(u: Setup, k: Conn, chunks: seq<seq<byte>>, last: seq<byte>)
    requires Empty(k) && ReceiveAll(u, k, chunks).Held? && Deliverable(ReceiveAll(u, k, chunks).acc.conn, last)
    ensures var c := ReceiveAll(u, k, chunks).acc.conn;
            && (ReceiveAll(u, k, chunks + [last]) == Overrun
                <==> |Tail(Concat(chunks))| >= 4096 && 1 <= U16At(Landed(c, last), 0) <= 64)
            && ReceiveAll(u, k, chunks + [last]) != Impossible
  {
    EveryReceive(u, k, chunks);
    ReceivesNext(u, k, chunks, last);
  }

  /** Such a stream: a buffer full of zeros, then a length of one. The drain would then move 4095
      bytes from `rbuf + 3`. */
  lemma OverrunRun(u: Setup, k: Conn) returns (chunks: seq<seq<byte>>)
    requires Empty(k)
    ensures ReceiveAll(u, k, chunks).Held? && Deliverable(ReceiveAll(u, k, chunks).acc.conn, [0, 1])
    ensures ReceiveAll(u, k, chunks + [[0, 1]]) == Overrun
    ensures Concat(chunks) == seq(4096, _ => 0)
  {
    var zeros := seq(RECV_BUF_SIZE, _ => 0);
    assert U16At(zeros, 0) == 0;
    assert Tail(zeros) == zeros;
    chunks := Singles(zeros);
    SinglesFit(zeros);
    FitsExactly(u, k, chunks);
    EveryReceive(u, k, chunks);
    var c := ReceiveAll(u, k, chunks).acc.conn;
    assert Landed(c, [0, 1])[0] == 0 && Landed(c, [0, 1])[1] == 1;
    OverrunExactly(u, k, chunks, [0, 1]);
  }

  // ----- when the buffer can fill up -----

  /** Every receive brings something and fits behind what was left of the stream before it. */
  predicate FitsBuffer(chunks: seq<seq<byte>>) {
    chunks == [] ||
    var init, last := chunks[..|chunks| - 1], chunks[|chunks| - 1];
    FitsBuffer(init) && last != [] && |Tail(Concat(init))| + |last| <= RECV_BUF_SIZE
  }

  /** Sequences of receives that fit are exactly those that never wrap to the front. */
  lemma {:induction false} FitsExactly(u: Setup, k: Conn, chunks: seq<seq<byte>>)
    requires Empty(k)
    ensures FitsBuffer(chunks) <==>
            ReceiveAll(u, k, chunks).Held? && ReceiveAll(u, k, chunks).acc.conn.rlen <= RECV_BUF_SIZE
  {
    if chunks != [] {
      var init, last := chunks[..|chunks| - 1], chunks[|chunks| - 1];
      FitsExactly(u, k, init);
      if ReceiveAll(u, k, init).Held? {
        EveryReceive(u, k, init);
        var before := ReceiveAll(u, k, init).acc;
        if last != [] && before.conn.rlen + |last| <= RECV_BUF_SIZE {
          MeansInRoom(u, k, Concat(init), IllegalReceives(init), before, last);
        } else if before.conn.rlen >= RECV_BUF_SIZE && ReceiveChunk(u, before, last).Held? {
          MeansOverFront(u, k, Concat(init), IllegalReceives(init), before, last);
        }
      }
    }
  }

  /** Over a stream with legal lengths nothing ever runs past the buffer: every sequence of
      receives the kernel can make is drained, at most 65 bytes are left after each, and the
      wrap to the front is never taken. */
  lemma {:induction false} LegalStreamFits(u: Setup, k: Conn, chunks: seq<seq<byte>>)
    requires Empty(k) && Legal(Concat(chunks), MAX_REPLY) && ReceiveAll(u, k, chunks) != Impossible
    ensures ReceiveAll(u, k, chunks).Held? && ReceiveAll(u, k, chunks).acc.conn.rlen <= 65
    ensures FitsBuffer(chunks) && IllegalReceives(chunks) == 0
  {
    if chunks != [] {
      var init, last := chunks[..|chunks| - 1], chunks[|chunks| - 1];
      LegalPrefix(Concat(init), last, MAX_REPLY);
      LegalStreamFits(u, k, init);
      EveryReceive(u, k, init);
      MeansInRoom(u, k, Concat(init), IllegalReceives(init), ReceiveAll(u, k, init).acc, last);
    }
    EveryReceive(u, k, chunks);
    LegalTailIsShort(Concat(chunks), MAX_REPLY);
    FitsExactly(u, k, chunks);
    LegalStreamHasNoIllegalReceive(chunks);
  }

  ghost predicate Receives(chunks: seq<seq<byte>>, s: seq<byte>) {
    Concat(chunks) == s && FitsBuffer(chunks)
  }

  function Singles(s: seq<byte>): seq<seq<byte>> {
    if s == [] then [] else Singles(s[..|s| - 1]) + [[s[|s| - 1]]]
  }

  lemma FitsPush(chunks: seq<seq<byte>>, last: seq<byte>)
    requires FitsBuffer(chunks) && last != [] && |Tail(Concat(chunks))| + |last| <= RECV_BUF_SIZE
    ensures Receives(chunks + [last], Concat(chunks) + last)
  {
    assert (chunks + [last])[..|chunks|] == chunks;
  }

  /** One byte more leaves one byte more behind an illegal header, and at most 66 otherwise. */
  lemma TailBefore(s: seq<byte>)
    requires s != [] && |Tail(s)| <= RECV_BUF_SIZE
    ensures |Tail(s[..|s| - 1])| < RECV_BUF_SIZE
  {
    var init, last := s[..|s| - 1], s[|s| - 1..];
    assert s == init + last;
    if Legal(init, MAX_REPLY) {
      LegalTailIsShort(init, MAX_REPLY);
    } else {
      SplitIllegal(init, last, MAX_REPLY);
    }
  }

  lemma {:induction false} SinglesFit(s: seq<byte>)
    requires |Tail(s)| <= RECV_BUF_SIZE
    ensures Receives(Singles(s), s)
  {
    if s != [] {
      TailBefore(s);
      SinglesFit(s[..|s| - 1]);
      FitsPush(Singles(s[..|s| - 1]), [s[|s| - 1]]);
      assert s[..|s| - 1] + [s[|s| - 1]] == s;
    }
  }

  /** A stream can be received without wrapping exactly when at most a buffer of it is left. */
  lemma ReceivableExactly(s: seq<byte>)
    ensures (exists chunks :: Receives(chunks, s)) <==> |Tail(s)| <= 4096
  {
    if |Tail(s)| <= RECV_BUF_SIZE {
      SinglesFit(s);
    }
    var k := Conn(0, seq(RECV_BUF_SIZE, _ => 0), 0, 0);
    var u := Setup(0, 0, Raw, Player(0, 0, 0));
    forall chunks | Receives(chunks, s) ensures |Tail(s)| <= RECV_BUF_SIZE {
      FitsExactly(u, k, chunks);
      EveryReceive(u, k, chunks);
    }
  }

  /** So the buffer can fill up exactly on the streams that have an illegal header followed by
      just as many bytes as the buffer has room for. */
  lemma CanFillExactly(u: Setup, k: Conn, s: seq<byte>)
    requires Empty(k)
    ensures (exists chunks :: Receives(chunks, s) && ReceiveAll(u, k, chunks).Held?
                              && ReceiveAll(u, k, chunks).acc.conn.rlen == RECV_BUF_SIZE)
            <==> |Tail(s)| == 4096
    ensures |Tail(s)| == 4096 ==> !Legal(s, MAX_REPLY)
  {
    if |Tail(s)| == RECV_BUF_SIZE {
      SinglesFit(s);
      FitsExactly(u, k, Singles(s));
      EveryReceive(u, k, Singles(s));
      if Legal(s, MAX_REPLY) {
        LegalTailIsShort(s, MAX_REPLY);
      }
    }
    forall chunks | Receives(chunks, s) && ReceiveAll(u, k, chunks).Held?
                    && ReceiveAll(u, k, chunks).acc.conn.rlen == RECV_BUF_SIZE
      ensures |Tail(s)| == RECV_BUF_SIZE
    {
      EveryReceive(u, k, chunks);
    }
  }

  // ----- when the error count does depend on the chunking -----

  lemma {:induction false} LegalStreamHasNoIllegalReceive(chunks: seq<seq<byte>>)
    requires Legal(Concat(chunks), MAX_REPLY)
    ensures IllegalReceives(chunks) == 0
  {
    if chunks != [] {
      LegalPrefix(Concat(chunks[..|chunks| - 1]), chunks[|chunks| - 1], MAX_REPLY);
      LegalStreamHasNoIllegalReceive(chunks[..|chunks| - 1]);
    }
  }

  lemma OneIllegalReceiveAtMost(chunks: seq<seq<byte>>, s: seq<byte>)
    requires Receives(chunks, s) && (s == [] || Legal(s[..|s| - 1], MAX_REPLY))
    ensures IllegalReceives(chunks) == if Legal(s, MAX_REPLY) then 0 else 1
  {
    if chunks == [] {
      assert SplitFrames([], MAX_REPLY) == Split([], []);
    } else {
      var init, last := Concat(chunks[..|chunks| - 1]), chunks[|chunks| - 1];
      assert s[..|s| - 1] == init + last[..|last| - 1];
      LegalPrefix(init, last[..|last| - 1], MAX_REPLY);
      LegalStreamHasNoIllegalReceive(chunks[..|chunks| - 1]);
    }
  }

  ghost function Errors(u: Setup, k: Conn, chunks: seq<seq<byte>>): nat
    requires Empty(k) && FitsBuffer(chunks)
  {
    FitsExactly(u, k, chunks);
    ReceiveAll(u, k, chunks).acc.errors
  }

  lemma ErrorsMean(u: Setup, k: Conn, chunks: seq<seq<byte>>, s: seq<byte>)
    requires Empty(k) && Receives(chunks, s)
    ensures var payloads := SplitFrames(s, MAX_REPLY).payloads;
            Errors(u, k, chunks) == |payloads| - Matching(payloads, Tag(u.codec)) + IllegalReceives(chunks)
  {
    FitsExactly(u, k, chunks);
    EveryReceive(u, k, chunks);
  }

  /** Over receives into the free room, the error count of a stream is the same for every way of
      receiving it exactly when the stream without its last byte shows no illegal header, or
      when it cannot be received that way at all. */
  lemma ErrorCountIsChunkingFree(u: Setup, k: Conn, s: seq<byte>)
    requires Empty(k)
    ensures (forall cs, ds :: Receives(cs, s) && Receives(ds, s) ==> Errors(u, k, cs) == Errors(u, k, ds))
            <==> s == [] || Legal(s[..|s| - 1], MAX_REPLY) || |Tail(s)| > 4096
  {
    if s == [] || Legal(s[..|s| - 1], MAX_REPLY) {
      forall cs, ds | Receives(cs, s) && Receives(ds, s) ensures Errors(u, k, cs) == Errors(u, k, ds) {
        ErrorsMean(u, k, cs, s);
        ErrorsMean(u, k, ds, s);
        OneIllegalReceiveAtMost(cs, s);
        OneIllegalReceiveAtMost(ds, s);
      }
    } else if |Tail(s)| > RECV_BUF_SIZE {
      ReceivableExactly(s);
    } else {
      var cs, ds := TwoReceivesCountTwice(u, k, s);
    }
  }

  /** The last two bytes in two receives, behind an illegal header, or in one. */
  lemma TwoReceivesCountTwice(u: Setup, k: Conn, s: seq<byte>) returns (cs: seq<seq<byte>>, ds: seq<seq<byte>>)
    requires Empty(k) && s != [] && !Legal(s[..|s| - 1], MAX_REPLY) && |Tail(s)| <= RECV_BUF_SIZE
    ensures Receives(cs, s) && Receives(ds, s) && Errors(u, k, cs) == Errors(u, k, ds) + 1
  {
    var n := |s|;
    ShortIsLegal(s[..n - 1]);
    var c, a, b := s[..n - 2], [s[n - 2]], [s[n - 1]];
    assert s[..n - 1] == c + a && s == c + a + b;
    TailBefore(s);
    assert s[..n - 1][..n - 2] == c;
    TailBefore(s[..n - 1]);
    SinglesFit(c);
    TailTwoBefore(c, a, b);
    FitsPush(Singles(c), a);
    FitsPush(Singles(c) + [a], b);
    FitsPush(Singles(c), a + b);
    Associative(c, a, b);
    cs, ds := Singles(c) + [a] + [b], Singles(c) + [a + b];
    IllegalStays(c + a, b, MAX_REPLY);
    PushCounts(Singles(c), a);
    PushCounts(Singles(c) + [a], b);
    PushCounts(Singles(c), a + b);
    ErrorsMean(u, k, cs, s);
    ErrorsMean(u, k, ds, s);
  }

  lemma ShortIsLegal(s: seq<byte>)
    ensures |s| < 2 ==> Legal(s, MAX_REPLY)
  {
  }

  lemma TailTwoBefore(c: seq<byte>, a: seq<byte>, b: seq<byte>)
    requires |a| == |b| == 1 && |Tail(c + a + b)| <= RECV_BUF_SIZE
    ensures |Tail(c)| + 2 <= RECV_BUF_SIZE
  {
    if Legal(c, MAX_REPLY) {
      LegalTailIsShort(c, MAX_REPLY);
    } else {
      SplitIllegal(c, a + b, MAX_REPLY);
      Associative(c, a, b);
    }
  }

  lemma PushCounts(chunks: seq<seq<byte>>, last: seq<byte>)
    ensures Concat(chunks + [last]) == Concat(chunks) + last
    ensures IllegalReceives(chunks + [last]) ==
            IllegalReceives(chunks) + (if Legal(Concat(chunks) + last, MAX_REPLY) then 0 else 1)
  {
    assert (chunks + [last])[..|chunks|] == chunks;
  }
}
