/** What the blocking client counts when a round does not go through: how many bytes a failing
    read takes off the stream, and which of the frames in them are counted. */
module RoundCounts {
  import opened Wire
  import opened PlayerCodec
  import opened ServerParse
  import opened BlockingClient

  // ----- one exact read -----

  /** How many bytes the reads may deliver before an event that ends them: a failure, the end of
      the file, or an interruption after the stop signal. None when there is no such event. */
  function Allowance(schedule: seq<ReadEvent>): Option<nat> {
    if schedule == [] then None
    else
      match schedule[0]
      case Short(k) => More(if k == 0 then 1 else k, Allowance(schedule[1..]))
      case Interrupt(stop) => if stop then Some(0) else Allowance(schedule[1..])
      case Failure => Some(0)
      case EndOfFile => Some(0)
  }

  function More(k: nat, a: Option<nat>): Option<nat> {
    match a
    case None => None
    case Some(m) => Some(k + m)
  }

  function Within(n: nat, a: Option<nat>): nat {
    if a.None? || n <= a.value then n else a.value
  }

  /** One delivery is the smallest of what is wanted, what is there and what is allowed. */
  lemma DeliveryStores(b: Inbox, n: nat)
    requires n > 0 && ReadOnce(b, n).0.Bytes?
    ensures var (r, b') := ReadOnce(b, n);
            && |b'.incoming| == |b.incoming| - |r.data|
            && |r.data| + Within(Min(n - |r.data|, |b'.incoming|), Allowance(b'.schedule))
               == Within(Min(n, |b.incoming|), Allowance(b.schedule))
  {
  }

  /** Without a delivery nothing is stored, and the reading ends unless it was interrupted. */
  lemma NothingStored(b: Inbox, n: nat)
    requires n > 0 && !ReadOnce(b, n).0.Bytes?
    ensures var (r, b') := ReadOnce(b, n);
            if r == Interrupted(false) then Allowance(b'.schedule) == Allowance(b.schedule)
            else Within(Min(n, |b.incoming|), Allowance(b.schedule)) == 0
  {
  }

  /** A read of n bytes stores exactly as many as are wanted, as arrive, and as are allowed before
      the first event that ends it. */
  lemma {:induction false} ReadExactlyStores(b: Inbox, n: nat)
    ensures |ReadExactly(b, n).data| == Within(Min(n, |b.incoming|), Allowance(b.schedule))
    decreases |b.schedule|, n
  {
    if n > 0 {
      var (r, b') := ReadOnce(b, n);
      match r {
        case Bytes(data) =>
          DeliveryStores(b, n);
          ReadExactlyStores(b', n - |data|);
        case Interrupted(stop) =>
          NothingStored(b, n);
          if !stop {
            ReadExactlyStores(b', n);
          }
        case _ => NothingStored(b, n);
      }
    }
  }

  /** So it succeeds exactly when all n bytes arrive and are allowed. */
  lemma ReadExactlyFails(b: Inbox, n: nat)
    ensures ReadExactly(b, n).ok <==>
              n <= |b.incoming| && (Allowance(b.schedule).Some? ==> n <= Allowance(b.schedule).value)
  {
    ReadExactlyDelivers(b, n);
    ReadExactlyStores(b, n);
  }

  // ----- one frame -----

  /** A read that gives no frame has taken less than a header, a header that is not a length from
      1 to 63, or a header and less than the payload it announces. */
  lemma ReadFrameFails(b: Inbox) returns (taken: seq<byte>)
    requires ReadFrame(b).0.None?
    ensures b.incoming == taken + ReadFrame(b).1.incoming
    ensures NextFrame(taken, 63).Incomplete? || (NextFrame(taken, 63).Illegal? && |taken| == 2)
  {
    var head := ReadExactly(b, 2);
    ReadExactlyDelivers(b, 2);
    taken := head.data;
    if head.ok {
      var len := U16At(head.data, 0);
      if 1 <= len <= 63 {
        var body := ReadExactly(head.inbox, len);
        ReadExactlyDelivers(head.inbox, len);
        taken := head.data + body.data;
        Associative(head.data, body.data, body.inbox.incoming);
      }
    }
  }

  // ----- the replies of a round -----

  /** What the reads of a round make of the bytes they take off the stream: the frames with the
      right tag are counted. The round is over when n have been counted, when a frame with a
      foreign tag has been read, or when no whole frame can be read any more. */
  ghost predicate Counts(c: Codec, taken: seq<byte>, n: nat, ok: bool, trips: nat) {
    var s := SplitFrames(taken, 63);
    && trips <= |s.payloads| && Tagged(c, s.payloads[..trips])
    && (ok ==> trips == n == |s.payloads| && s.tail == [])
    && (!ok ==> trips < n && (trips == |s.payloads| || EndsForeign(c, s, trips)))
  }

  /** The last frame read is number `last` and carries a foreign tag. */
  ghost predicate EndsForeign(c: Codec, s: Split, last: nat) {
    last + 1 == |s.payloads| && s.tail == [] && s.payloads[last] != [] && s.payloads[last][0] != Tag(c)
  }

  lemma CountsNone(c: Codec, n: nat)
    ensures Counts(c, [], 0, true, 0)
  {
  }

  lemma CountsFailed(c: Codec, taken: seq<byte>, n: nat)
    requires n > 0 && !NextFrame(taken, 63).Whole?
    ensures Counts(c, taken, n, false, 0)
  {
  }

  lemma SplitOne(payload: seq<byte>, more: seq<byte>)
    requires 1 <= |payload| <= 63
    ensures var s := SplitFrames(more, 63);
            SplitFrames(Frame(payload) + more, 63) == Split([payload] + s.payloads, s.tail)
  {
    NextFrameOfFrame(payload, more, 63);
  }

  lemma CountsForeign(c: Codec, payload: seq<byte>, n: nat)
    requires 1 <= |payload| <= 63 && n > 0 && payload[0] != Tag(c)
    ensures Counts(c, Frame(payload), n, false, 0)
  {
    SplitOne(payload, []);
    assert Frame(payload) + [] == Frame(payload);
  }

  lemma CountsOne(c: Codec, payload: seq<byte>, taken: seq<byte>, n: nat, ok: bool, trips: nat)
    requires 1 <= |payload| <= 63 && payload[0] == Tag(c) && Counts(c, taken, n, ok, trips)
    ensures Counts(c, Frame(payload) + taken, n + 1, ok, trips + 1)
  {
    SplitOne(payload, taken);
    var ps := SplitFrames(taken, 63).payloads;
    assert ([payload] + ps)[..trips + 1] == [payload] + ps[..trips];
  }

  ghost predicate Reads(c: Codec, n: nat, b: Inbox, g: Got, taken: seq<byte>) {
    b.incoming == taken + g.inbox.incoming && Counts(c, taken, n, g.ok, g.trips)
  }

  lemma ReadsNone(c: Codec, n: nat, b: Inbox) returns (taken: seq<byte>)
    requires n > 0 && ReadFrame(b).0.None?
    ensures Reads(c, n, b, Got(false, 0, ReadFrame(b).1), taken)
  {
    taken := ReadFrameFails(b);
    CountsFailed(c, taken, n);
  }

  lemma ReadsMore(c: Codec, n: nat, b: Inbox, payload: seq<byte>, b': Inbox, g: Got, taken: seq<byte>)
    requires b.incoming == Frame(payload) + b'.incoming && 1 <= |payload| <= 63 && payload[0] == Tag(c)
    requires Reads(c, n, b', g, taken)
    ensures Reads(c, n + 1, b, GotOne(g), Frame(payload) + taken)
  {
    CountsOne(c, payload, taken, n, g.ok, g.trips);
    Associative(Frame(payload), taken, g.inbox.incoming);
  }

  lemma RepliesStep(c: Codec, n: nat, b: Inbox, r: Option<seq<byte>>, b': Inbox)
    requires n > 0 && ReadFrame(b) == (r, b')
    ensures ReadReplies(c, n, b) ==
            if r.None? || r.value == [] || r.value[0] != Tag(c) then Got(false, 0, b')
            else GotOne(ReadReplies(c, n - 1, b'))
  {
  }

  /** Whatever is on the stream and whatever the reads do. */
  lemma {:induction false} ReadsCount(c: Codec, n: nat, b: Inbox) returns (taken: seq<byte>)
    ensures Reads(c, n, b, ReadReplies(c, n, b), taken)
    decreases n
  {
    if n == 0 {
      taken := [];
      CountsNone(c, n);
    } else {
      var (r, b') := ReadFrame(b);
      RepliesStep(c, n, b, r, b');
      ReadFrameConsumesOne(b);
      if r.None? {
        taken := ReadsNone(c, n, b);
      } else if r.value[0] != Tag(c) {
        taken := Frame(r.value);
        CountsForeign(c, r.value, n);
      } else {
        var more := ReadsCount(c, n - 1, b');
        ReadsMore(c, n - 1, b, r.value, b', ReadReplies(c, n - 1, b'), more);
        taken := Frame(r.value) + more;
      }
    }
  }

  // ----- the round -----

  /** A round in which every write is whole, on a connection in any state: x has grown by one per
      request, the server has seen all requests, and the count is that of the bytes read, also
      when a read fails. */
  lemma CountsOfRound(c: Codec, p: Player, limits: seq<int>, l: Link) returns (taken: seq<byte>)
    requires AllWhole(c, p, limits)
    ensures var r, n := RoundOf(c, p, limits, l), |limits|;
            var l' := Wrote(l, Frames(Payloads(Requests(c, p, n))));
            && r.x == PlayerAt(p, n).x && r.link.server == l'.server
            && l'.inbox.incoming == taken + r.link.inbox.incoming && Counts(c, taken, n, r.ok, r.trips)
  {
    SendsAllWhole(c, p, limits);
    taken := ReadsCount(c, |limits|, Wrote(l, Frames(Payloads(Requests(c, p, |limits|)))).inbox);
  }

  /** A round in which write d is the first that is not whole, on a connection in any state: it
      counts nothing, and the server has seen the requests before it and the front of its own. */
  lemma ShortRound(c: Codec, p: Player, limits: seq<int>, l: Link, d: nat, w: nat)
    requires FirstShort(c, p, limits, d) && w == (if limits[d] < 0 then 0 else limits[d])
    ensures w < |Frame(Encode(c, PlayerAt(p, d)))|
    ensures var q := PlayerAt(p, d);
            var front := Frame(Encode(c, q))[..w];
            RoundOf(c, p, limits, l) ==
            RoundResult(false, q.x, 0, Wrote(l, Frames(Payloads(Requests(c, p, d))) + front))
  {
    var q := PlayerAt(p, d);
    RequestSizeIs(c, q);
    var bytes := Frame(Encode(c, q));
    SendsFirstShort(c, p, limits, d, q, bytes, bytes[..Accepted(limits[d], |bytes|)]);
  }

  lemma TakenFrames(qs: seq<seq<byte>>, taken: seq<byte>, left: seq<byte>)
    requires LegalPayloads(qs, 63) && Frames(qs) == taken + left
    ensures SplitFrames(taken, 63).payloads <= qs
  {
    SplitOfFrames(qs, [], 63);
    assert Frames(qs) + [] == Frames(qs);
    SplitAppend(taken, left, 63);
  }

  /** While only own replies are on the stream, every whole frame read is counted. */
  lemma CountsOwn(c: Codec, taken: seq<byte>, n: nat, ok: bool, trips: nat, qs: seq<seq<byte>>)
    requires Counts(c, taken, n, ok, trips) && SplitFrames(taken, 63).payloads <= qs && Tagged(c, qs)
    ensures trips <= |qs| && SplitFrames(taken, 63).payloads == qs[..trips] && (ok <==> trips == n)
  {
  }

  /** On a clean connection with the replies `ps` still to be read the round trips are exactly the
      replies of `ps` and then of this round that were taken whole off the stream; the rest of the
      stream is left, and the round fails exactly when they are fewer than the requests. */
  lemma FailedReadCounts(c: Codec, p: Player, limits: seq<int>, l: Link, ps: seq<seq<byte>>)
      returns (taken: seq<byte>)
    requires AllWhole(c, p, limits) && Clean(c, ps, l)
    ensures var r, n, qs := RoundOf(c, p, limits, l), |limits|, ps + Replies(c, p, |limits|);
            && r.x == PlayerAt(p, n).x && r.link.server == Live([])
            && Frames(qs) == taken + r.link.inbox.incoming
            && r.trips <= |qs| && SplitFrames(taken, 63).payloads == qs[..r.trips]
            && (r.ok <==> r.trips == n)
  {
    var n, qs := |limits|, ps + Replies(c, p, |limits|);
    CleanWrites(c, p, n, 0, l, ps);
    var bytes := Frames(Payloads(Requests(c, p, n)));
    assert bytes + [] == bytes;
    taken := CountsOfRound(c, p, limits, l);
    var r := RoundOf(c, p, limits, l);
    TakenFrames(qs, taken, r.link.inbox.incoming);
    CountsOwn(c, taken, n, r.ok, r.trips, qs);
  }
}
