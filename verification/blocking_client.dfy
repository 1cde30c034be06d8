/** The blocking load generator: exact reads over a socket that may deliver any number of
    bytes, be interrupted, fail or end, and one round of `depth` requests and replies. */
module BlockingClient {
  import opened Wire
  import opened Memory
  import opened MsgPack
  import opened PlayerCodec
  import opened ServerParse

  const REPLY_CAP: nat := 63   // sizeof reply - 1
  const OUT_CAP: nat := 64

  /** What the operating system does with successive read calls. After the last event of a
      schedule reads deliver whatever is there. */
  datatype ReadEvent = Short(k: nat) | Interrupt(stop: bool) | Failure | EndOfFile

  datatype ReadResult = Bytes(data: seq<byte>) | End | Interrupted(stop: bool) | Failed

  /** The readable side of a socket. */
  datatype Inbox = Inbox(incoming: seq<byte>, schedule: seq<ReadEvent>)

  function Min(a: nat, b: nat): nat {
    if a < b then a else b
  }

  function Deliver(b: Inbox, k: nat, schedule: seq<ReadEvent>): (ReadResult, Inbox) {
    if b.incoming == [] then (End, b.(schedule := schedule))
    else
      var m := Min(if k == 0 then 1 else k, |b.incoming|);
      (Bytes(b.incoming[..m]), Inbox(b.incoming[m..], schedule))
  }

  /** One `read` of at most n bytes. */
  function ReadOnce(b: Inbox, n: nat): (r: (ReadResult, Inbox))
    requires n > 0
    ensures r.0.Bytes? ==> 1 <= |r.0.data| <= n && b.incoming == r.0.data + r.1.incoming
    ensures !r.0.Bytes? ==> r.1.incoming == b.incoming
    ensures |r.1.schedule| < |b.schedule| || (b.schedule == r.1.schedule == [] && !r.0.Interrupted?)
  {
    if b.schedule == [] then Deliver(b, n, [])
    else
      var rest := b.schedule[1..];
      match b.schedule[0]
      case Short(k) => Deliver(b, Min(k, n), rest)
      case Interrupt(stop) => (Interrupted(stop), b.(schedule := rest))
      case Failure => (Failed, b.(schedule := rest))
      case EndOfFile => (End, b.(schedule := rest))
  }

  /** No read fails, ends the stream or is interrupted after the stop signal. */
  predicate Benign(schedule: seq<ReadEvent>) {
    forall e <- schedule :: e.Short? || e == Interrupt(false)
  }

  /** The outcome of `read_n`: success, the bytes stored, and the socket afterwards. */
  datatype Exact = Exact(ok: bool, data: seq<byte>, inbox: Inbox)

  function ReadExactly(b: Inbox, n: nat): Exact
    decreases |b.schedule|, n
  {
    if n == 0 then Exact(true, [], b)
    else
      var (r, b') := ReadOnce(b, n);
      match r
      case Bytes(data) =>
        var rest := ReadExactly(b', n - |data|);
        After(data, rest)
      case Interrupted(stop) => if stop then Exact(false, [], b') else ReadExactly(b', n)
      case _ => Exact(false, [], b')
  }

  /** Whatever the schedule, the bytes stored are the next bytes of the stream in order and
      nothing is skipped; on success there are exactly n of them. */
  lemma {:induction false} ReadExactlyDelivers(b: Inbox, n: nat)
    ensures var r := ReadExactly(b, n);
            && b.incoming == r.data + r.inbox.incoming
            && (if r.ok then |r.data| == n else |r.data| < n)
    decreases |b.schedule|, n
  {
    if n > 0 {
      var (r, b') := ReadOnce(b, n);
      match r {
        case Bytes(data) =>
          ReadExactlyDelivers(b', n - |data|);
          Associative(data, ReadExactly(b', n - |data|).data, ReadExactly(b', n - |data|).inbox.incoming);
        case Interrupted(stop) =>
          if !stop {
            ReadExactlyDelivers(b', n);
          }
        case _ =>
      }
    }
  }

  /** With short reads and interruptions only, it succeeds exactly when enough bytes arrive. */
  lemma {:induction false} ReadExactlySucceeds(b: Inbox, n: nat)
    requires Benign(b.schedule)
    ensures ReadExactly(b, n).ok <==> n <= |b.incoming|
    ensures Benign(ReadExactly(b, n).inbox.schedule)
    decreases |b.schedule|, n
  {
    if n > 0 {
      var (r, b') := ReadOnce(b, n);
      assert Benign(b'.schedule);
      assert b.schedule != [] ==> b.schedule[0] in b.schedule;
      match r {
        case Bytes(data) => ReadExactlySucceeds(b', n - |data|);
        case Interrupted(_) => ReadExactlySucceeds(b', n);
        case _ =>
      }
    }
  }

  /** `read_reply`: a payload, or None for every failure. */
  function ReadFrame(b: Inbox): (Option<seq<byte>>, Inbox) {
    var head := ReadExactly(b, 2);
    if !head.ok || |head.data| != 2 then (None, head.inbox)
    else
      var len := U16At(head.data, 0);
      if len < 1 || len > REPLY_CAP then (None, head.inbox)
      else
        var body := ReadExactly(head.inbox, len);
        if body.ok then (Some(body.data), body.inbox) else (None, body.inbox)
  }

  lemma HeadThenBody(incoming: seq<byte>, head: seq<byte>, between: seq<byte>, body: seq<byte>, rest: seq<byte>)
    requires |head| == 2 && U16At(head, 0) == |body| && incoming == head + between && between == body + rest
    ensures incoming == Frame(body) + rest
  {
    HeaderOf(head, |body|);
    Associative(head, body, rest);
  }

  /** Two bytes are the header of the length they stand for. */
  lemma HeaderOf(head: seq<byte>, n: nat)
    requires |head| == 2 && U16At(head, 0) == n
    ensures head == [n / 256 % 256, n % 256]
  {
    var a: int, b: int := head[0], head[1];
    assert n == a * 256 + b && n / 256 == a && n % 256 == b;
  }

  /** On success exactly one frame has been taken off the stream, and it is the one returned. */
  lemma ReadFrameConsumesOne(b: Inbox)
    ensures var (r, b') := ReadFrame(b);
            r.Some? ==> 1 <= |r.value| <= 63 && b.incoming == Frame(r.value) + b'.incoming
  {
    var head := ReadExactly(b, 2);
    ReadExactlyDelivers(b, 2);
    if head.ok {
      var len := U16At(head.data, 0);
      var body := ReadExactly(head.inbox, len);
      ReadExactlyDelivers(head.inbox, len);
      if body.ok {
        HeadThenBody(b.incoming, head.data, head.inbox.incoming, body.data, body.inbox.incoming);
      }
    }
  }

  /** If the stream starts with a legal frame, a successful read returns that frame; and with
      short reads and interruptions only, the read is successful. */
  lemma ReadFrameOf(b: Inbox, payload: seq<byte>, more: seq<byte>)
    requires b.incoming == Frame(payload) + more && 1 <= |payload| <= REPLY_CAP
    ensures var (r, b') := ReadFrame(b);
            && (r.Some? ==> r.value == payload && b'.incoming == more)
            && (Benign(b.schedule) ==> r.Some? && Benign(b'.schedule))
  {
    var (r, b') := ReadFrame(b);
    ReadFrameConsumesOne(b);
    if r.Some? {
      NextFrameOfFrame(payload, more, REPLY_CAP);
      NextFrameOfFrame(r.value, b'.incoming, REPLY_CAP);
    }
    if Benign(b.schedule) {
      ReadExactlySucceeds(b, 2);
      ReadExactlyDelivers(b, 2);
      var head := ReadExactly(b, 2);
      assert head.data == b.incoming[..2] && head.inbox.incoming == b.incoming[2..];
      assert U16At(head.data, 0) == |payload|;
      ReadExactlySucceeds(head.inbox, |payload|);
    }
  }

  // ----- the program -----

  /** One connection seen from the client: what it can read, and the server behind it. */
  datatype Link = Link(inbox: Inbox, server: Outcome)

  /** The server sees the bytes that were written, if any, and its replies become readable. */
  function Wrote(l: Link, bytes: seq<byte>): Link {
    if bytes == [] then l
    else
      var r := Feed(Parsed(l.inbox.incoming, l.server), bytes);
      Link(l.inbox.(incoming := r.replies), r.outcome)
  }

  /** TCP keeps no write boundaries. */
  lemma WroteTwice(l: Link, a: seq<byte>, b: seq<byte>)
    ensures Wrote(Wrote(l, a), b) == Wrote(l, a + b)
  {
    if a == [] {
      assert a + b == b;
    } else if b == [] {
      assert a + b == a;
    } else if l.server.Live? {
      ParseAppend(l.server.rest + a, b);
      Associative(l.server.rest, a, b);
      var r := Parse(l.server.rest + a);
      if r.outcome.Live? {
        Associative(l.inbox.incoming, r.replies, Parse(r.outcome.rest + b).replies);
      }
    }
  }

  /** A connected socket together with the server behind it. */
  class Socket {
    var inbox: Inbox
    var server: Outcome

    constructor (schedule: seq<ReadEvent>)
      ensures inbox == Inbox([], schedule) && server == Live([])
    {
      inbox, server := Inbox([], schedule), Live([]);
    }

    method Read(n: nat) returns (r: ReadResult)
      requires n > 0
      modifies this`inbox
      ensures (r, inbox) == ReadOnce(old(inbox), n)
    {
      var (r', b) := ReadOnce(inbox, n);
      r, inbox := r', b;
    }

    function Value(): Link
      reads this
    {
      Link(inbox, server)
    }

    method Write(bytes: seq<byte>)
      modifies this
      ensures Value() == Wrote(old(Value()), bytes)
    {
      if server.Live? && bytes != [] {
        var r := Parse(server.rest + bytes);
        server, inbox := r.outcome, inbox.(incoming := inbox.incoming + r.replies);
      }
    }

    /** One `read` straight into the buffer, behind the bytes already there. */
    method ReadInto(buf: array<byte>, at: nat, n: nat, ghost start: seq<byte>, ghost sofar: seq<byte>)
        returns (r: ReadResult)
      requires n > 0 && at + n <= buf.Length
      requires at == |sofar| && |start| == buf.Length && Stored(start, buf[..], sofar)
      modifies this`inbox, buf
      ensures (r, inbox) == ReadOnce(old(inbox), n)
      ensures Stored(start, buf[..], if r.Bytes? then sofar + r.data else sofar)
    {
      r := Read(n);
      if r.Bytes? {
        var _ := Append(buf, at, r.data, start, sofar);
      }
    }

    /** `read_n` into buf[..n]. */
    method ReadN(buf: array<byte>, n: nat) returns (rc: int)
      requires n <= buf.Length
      modifies this`inbox, buf
      ensures var e := ReadExactly(old(inbox), n);
              && rc == (if e.ok then 0 else -1) && inbox == e.inbox
              && |e.data| <= n && buf[..] == e.data + old(buf[|e.data|..])
    {
      ghost var e, sofar: seq<byte>, start := ReadExactly(inbox, n), [], buf[..];
      ReadExactlyDelivers(inbox, n);
      var got := 0;
      rc := 0;
      while got < n
        invariant got == |sofar| <= n && Stored(start, buf[..], sofar)
        invariant rc == 0 && Pending(e, sofar, inbox, n - got)
        decreases |inbox.schedule|, n - got
      {
        ghost var b := inbox;
        var r := ReadInto(buf, got, n - got, start, sofar);
        PendingStep(e, sofar, b, n - got, r, inbox);
        if r.Bytes? {
          sofar := sofar + r.data;
          got := got + |r.data|;
        } else if r != Interrupted(false) {
          rc := -1;
          return;
        }
      }
      PendingDone(e, sofar, inbox);
    }

    /** `read_reply`: the payload length, or -1; the payload is left in `payload`. */
    method ReadReply(payload: array<byte>) returns (rc: int)
      requires payload.Length > REPLY_CAP
      modifies this`inbox, payload
      ensures var (r, b) := ReadFrame(old(inbox));
              && inbox == b
              && (if r.None? then rc == -1 else rc == |r.value| <= payload.Length && payload[..rc] == r.value)
    {
      var lenbuf := new byte[2];
      ghost var head := ReadExactly(inbox, 2);
      ReadExactlyDelivers(inbox, 2);
      var got := ReadN(lenbuf, 2);
      if got < 0 {
        return -1;
      }
      assert lenbuf[..] == head.data;
      var len := lenbuf[0] as int * 256 + lenbuf[1] as int;
      if len < 1 || len > REPLY_CAP {
        return -1;
      }
      ReadExactlyDelivers(inbox, len);
      got := ReadN(payload, len);
      if got < 0 {
        return -1;
      }
      return len;
    }
  }

  function After(sofar: seq<byte>, e: Exact): Exact {
    Exact(e.ok, sofar + e.data, e.inbox)
  }

  /** `sofar` has been read of a request whose whole outcome is `e`; m bytes are still wanted. */
  ghost predicate Pending(e: Exact, sofar: seq<byte>, b: Inbox, m: nat) {
    e == After(sofar, ReadExactly(b, m))
  }

  lemma PendingDone(e: Exact, sofar: seq<byte>, b: Inbox)
    requires Pending(e, sofar, b, 0)
    ensures e == Exact(true, sofar, b)
  {
    assert sofar + [] == sofar;
  }

  /** What one read contributes. */
  lemma PendingStep(e: Exact, sofar: seq<byte>, b: Inbox, m: nat, r: ReadResult, b': Inbox)
    requires m > 0 && Pending(e, sofar, b, m) && (r, b') == ReadOnce(b, m)
    ensures r.Bytes? ==> Pending(e, sofar + r.data, b', m - |r.data|)
    ensures r == Interrupted(false) ==> Pending(e, sofar, b', m)
    ensures !r.Bytes? && r != Interrupted(false) ==> e == Exact(false, sofar, b')
  {
    if r.Bytes? {
      AfterTwice(sofar, r.data, ReadExactly(b', m - |r.data|));
    }
    assert sofar + [] == sofar;
  }

  lemma AfterTwice(a: seq<byte>, b: seq<byte>, e: Exact)
    ensures After(a, After(b, e)) == After(a + b, e)
  {
    Associative(a, b, e.data);
  }

  // ----- one round, from any state of the connection -----

  /** How much of a request one write takes; a negative limit is a failing write. */
  function Accepted(limit: int, len: nat): nat {
    if limit < 0 then 0 else if limit < len then limit else len
  }

  function NextPlayer(p: Player): Player {
    p.(x := (p.x + 1) % 0x1_0000)
  }

  /** After sending: whether every write was whole, the next x, and all bytes that were taken. */
  datatype Sent = Sent(ok: bool, x: uint16, bytes: seq<byte>)

  function SendRequests(c: Codec, p: Player, limits: seq<int>): Sent
    decreases |limits|
  {
    if limits == [] then Sent(true, p.x, [])
    else
      var bytes := Frame(Encode(c, p));
      if limits[0] < |bytes| then Sent(false, p.x, bytes[..Accepted(limits[0], |bytes|)])
      else SentMore(bytes, SendRequests(c, NextPlayer(p), limits[1..]))
  }

  function SentMore(bytes: seq<byte>, s: Sent): Sent {
    s.(bytes := bytes + s.bytes)
  }

  /** `sofar` has been sent of a round that comes to `whole`, from a connection that was `start`
      and is `now`; `rest` is what is still to come. */
  ghost predicate Sending(whole: Sent, start: Link, sofar: seq<byte>, now: Link, rest: Sent) {
    whole == SentMore(sofar, rest) && now == Wrote(start, sofar)
  }

  lemma SendingNone(whole: Sent, start: Link)
    ensures Sending(whole, start, [], start, whole)
  {
    assert [] + whole.bytes == whole.bytes;
  }

  /** What one write takes of a request. */
  ghost predicate Took(c: Codec, p: Player, limit: int, part: seq<byte>, ok: bool) {
    var bytes := Frame(Encode(c, p));
    part == bytes[..Accepted(limit, |bytes|)] && (ok <==> limit >= |bytes|)
  }

  lemma SendingNext(c: Codec, p: Player, limits: seq<int>, rest: seq<int>, whole: Sent,
                    start: Link, sofar: seq<byte>, now: Link, part: seq<byte>, ok: bool, now': Link)
    requires limits != [] && rest == limits[1..] && Sending(whole, start, sofar, now, SendRequests(c, p, limits))
    requires Took(c, p, limits[0], part, ok) && now' == Wrote(now, part)
    ensures ok ==> Sending(whole, start, sofar + part, now', SendRequests(c, NextPlayer(p), rest))
    ensures !ok ==> whole == Sent(false, p.x, sofar + part) && now' == Wrote(start, sofar + part)
  {
    var bytes := Frame(Encode(c, p));
    WroteTwice(start, sofar, part);
    if ok {
      assert part == bytes;
      SendWholeFirst(c, p, limits, bytes, SendRequests(c, NextPlayer(p), rest));
      Associative(sofar, bytes, SendRequests(c, NextPlayer(p), rest).bytes);
    } else {
      SendShortFirst(c, p, limits, bytes);
    }
  }

  lemma SendingDone(c: Codec, p: Player, limits: seq<int>, whole: Sent, start: Link, sofar: seq<byte>, now: Link)
    requires limits == [] && Sending(whole, start, sofar, now, SendRequests(c, p, limits))
    ensures whole == Sent(true, p.x, sofar)
  {
    assert sofar + [] == sofar;
  }

  /** After reading replies: whether all were there with the right tag, how many were counted. */
  datatype Got = Got(ok: bool, trips: nat, inbox: Inbox)

  function ReadReplies(c: Codec, n: nat, b: Inbox): Got {
    if n == 0 then Got(true, 0, b)
    else
      match ReadFrame(b)
      case (None, b') => Got(false, 0, b')
      case (Some(payload), b') =>
        if payload == [] || payload[0] != Tag(c) then Got(false, 0, b')
        else GotOne(ReadReplies(c, n - 1, b'))
  }

  function GotOne(g: Got): Got {
    g.(trips := g.trips + 1)
  }

  /** d replies have been counted of a round that comes to `whole`; `rest` is still to come. */
  ghost predicate Reading(whole: Got, d: nat, rest: Got) {
    whole == rest.(trips := d + rest.trips)
  }

  lemma ReadingNext(c: Codec, whole: Got, d: nat, n: nat, b: Inbox)
    requires n > 0 && Reading(whole, d, ReadReplies(c, n, b))
    ensures var (r, b') := ReadFrame(b);
            if r.None? || r.value == [] || r.value[0] != Tag(c) then whole == Got(false, d, b')
            else Reading(whole, d + 1, ReadReplies(c, n - 1, b'))
  {
  }

  datatype RoundResult = RoundResult(ok: bool, x: uint16, trips: nat, link: Link)

  /** A round of |limits| requests and replies. */
  function RoundOf(c: Codec, p: Player, limits: seq<int>, l: Link): RoundResult {
    var s := SendRequests(c, p, limits);
    var l' := Wrote(l, s.bytes);
    if !s.ok then RoundResult(false, s.x, 0, l')
    else
      var g := ReadReplies(c, |limits|, l'.inbox);
      RoundResult(g.ok, s.x, g.trips, Link(g.inbox, l'.server))
  }

  // ----- what a round does -----

  /** Every payload carries the tag of codec `c`. */
  ghost predicate Tagged(c: Codec, ps: seq<seq<byte>>) {
    forall i :: 0 <= i < |ps| ==> ps[i] != [] && ps[i][0] == Tag(c)
  }

  /** The stream is a queue of replies a client of codec `c` can read and count. */
  ghost predicate Queued(c: Codec, ps: seq<seq<byte>>, incoming: seq<byte>) {
    LegalPayloads(ps, REPLY_CAP) && Tagged(c, ps) && incoming == Frames(ps)
  }

  lemma FramesHead(ps: seq<seq<byte>>, d: nat)
    requires d < |ps|
    ensures Frames(ps[d..]) == Frame(ps[d]) + Frames(ps[d + 1..])
  {
    assert ps[d..][0] == ps[d] && ps[d..][1..] == ps[d + 1..];
  }

  /** Both request builders: header, tag, encoded player. */
  method BuildRequest(out: array<byte>, c: Codec, p: Player) returns (len: nat)
    requires out.Length == OUT_CAP
    modifies out
    ensures len <= OUT_CAP && out[..len] == Frame(Encode(c, p))
  {
    if c.Raw? {
      Store(out, 0, [0, 6]);
      Store(out, 2, [PKT_RAW] + U16Bytes(p.x) + U16Bytes(p.y) + [p.hp]);
      len := 8;
    } else {
      var packed := PackPlayer(p);
      var payloadLen := 1 + |packed|;
      Store(out, 0, [payloadLen / 256 % 256, payloadLen % 256, PKT_MSGPACK]);
      Store(out, 3, packed);
      len := 2 + payloadLen;
    }
  }

  function PlayerAt(p: Player, d: nat): Player {
    p.(x := (p.x + d) % 0x1_0000)
  }

  lemma PlayerAtNext(p: Player, d: nat)
    ensures PlayerAt(NextPlayer(p), d) == PlayerAt(p, d + 1)
  {
  }

  function UintSize(n: uint16): nat {
    if n < 0x80 then 1 else if n < 0x100 then 2 else 3
  }

  /** The length of a request on the wire. */
  function RequestSize(c: Codec, p: Player): nat {
    if c.Raw? then 8 else 10 + UintSize(p.x) + UintSize(p.y) + UintSize(p.hp)
  }

  lemma RequestSizeIs(c: Codec, p: Player)
    ensures |Frame(Encode(c, p))| == RequestSize(c, p)
  {
    if c.MessagePack? {
      var es := PlayerEntries(p);
      assert PackEntries(es) == PackKey(KEY_X) + PackUint(p.x) + PackEntries(es[1..]);
      assert PackEntries(es[1..]) == PackKey(KEY_Y) + PackUint(p.y) + PackEntries(es[1..][1..]);
      assert PackEntries(es[1..][1..]) == PackKey(KEY_H) + PackUint(p.hp) + PackEntries([]);
    }
  }

  /** Write d takes its whole request. */
  predicate Whole(c: Codec, p: Player, limits: seq<int>, d: nat)
    requires d < |limits|
  {
    limits[d] >= RequestSize(c, PlayerAt(p, d))
  }

  /** All writes are whole. */
  predicate AllWhole(c: Codec, p: Player, limits: seq<int>) {
    forall d: nat :: d < |limits| ==> Whole(c, p, limits, d)
  }

  /** Write d is the first one that is not. */
  predicate FirstShort(c: Codec, p: Player, limits: seq<int>, d: nat) {
    d < |limits| && !Whole(c, p, limits, d) && forall e: nat :: e < d ==> Whole(c, p, limits, e)
  }

  lemma WholeNext(c: Codec, p: Player, limits: seq<int>, d: nat)
    requires d + 1 < |limits|
    ensures Whole(c, NextPlayer(p), limits[1..], d) <==> Whole(c, p, limits, d + 1)
  {
    PlayerAtNext(p, d);
  }

  lemma WholeFirst(c: Codec, p: Player, limits: seq<int>)
    requires limits != []
    ensures Whole(c, p, limits, 0) <==> limits[0] >= |Frame(Encode(c, p))|
  {
    RequestSizeIs(c, p);
    assert PlayerAt(p, 0) == p;
  }

  lemma WholesNext(c: Codec, p: Player, limits: seq<int>, n: nat)
    requires n < |limits| && forall d: nat :: d < n + 1 ==> Whole(c, p, limits, d)
    ensures forall d: nat :: d < n ==> Whole(c, NextPlayer(p), limits[1..], d)
  {
    forall d: nat | d < n ensures Whole(c, NextPlayer(p), limits[1..], d) {
      WholeNext(c, p, limits, d);
    }
  }

  /** A connection without half-written requests, with the replies `ps` still to be read. */
  ghost predicate Clean(c: Codec, ps: seq<seq<byte>>, l: Link) {
    l.server == Live([]) && Queued(c, ps, l.inbox.incoming)
  }

  /** The first n requests of a round, and the replies to them. */
  function Requests(c: Codec, p: Player, n: nat): seq<Message> {
    seq(n, d requires 0 <= d < n => Message(c, PlayerAt(p, d)))
  }

  function Replies(c: Codec, p: Player, n: nat): (ps: seq<seq<byte>>)
    ensures |ps| == n
  {
    Payloads(MutateAll(Requests(c, p, n)))
  }

  lemma RequestsShift(c: Codec, p: Player, n: nat)
    ensures Requests(c, p, n + 1) == [Message(c, p)] + Requests(c, NextPlayer(p), n)
  {
    assert PlayerAt(p, 0) == p;
    forall d | 0 <= d < n ensures Requests(c, p, n + 1)[d + 1] == Requests(c, NextPlayer(p), n)[d] {
      PlayerAtNext(p, d);
    }
  }

  lemma RequestsNext(c: Codec, p: Player, n: nat)
    ensures Frames(Payloads(Requests(c, p, n + 1))) ==
            Frame(Encode(c, p)) + Frames(Payloads(Requests(c, NextPlayer(p), n)))
  {
    RequestsShift(c, p, n);
    PayloadsCons(Message(c, p), Requests(c, NextPlayer(p), n));
    FramesCons(Encode(c, p), Payloads(Requests(c, NextPlayer(p), n)));
  }

  lemma {:induction false} SendsAllWhole(c: Codec, p: Player, limits: seq<int>)
    requires AllWhole(c, p, limits)
    ensures SendRequests(c, p, limits) == Sent(true, PlayerAt(p, |limits|).x,
            Frames(Payloads(Requests(c, p, |limits|))))
    decreases |limits|
  {
    if limits != [] {
      var n := |limits| - 1;
      WholeFirst(c, p, limits);
      WholesNext(c, p, limits, n);
      SendsAllWhole(c, NextPlayer(p), limits[1..]);
      RequestsNext(c, p, n);
      PlayerAtNext(p, n);
    }
  }

  lemma FrontMore(f: seq<byte>, rest: seq<byte>, front: seq<byte>, whole: seq<byte>)
    requires whole == f + rest
    ensures f + (rest + front) == whole + front
  {
    Associative(f, rest, front);
  }

  lemma SendWholeFirst(c: Codec, p: Player, limits: seq<int>, f: seq<byte>, rest: Sent)
    requires limits != [] && f == Frame(Encode(c, p)) && limits[0] >= |f|
    requires rest == SendRequests(c, NextPlayer(p), limits[1..])
    ensures SendRequests(c, p, limits) == SentMore(f, rest)
  {
  }

  lemma SendShortFirst(c: Codec, p: Player, limits: seq<int>, f: seq<byte>)
    requires limits != [] && f == Frame(Encode(c, p)) && limits[0] < |f|
    ensures SendRequests(c, p, limits) == Sent(false, p.x, f[..Accepted(limits[0], |f|)])
  {
  }

  lemma {:induction false} SendsFirstShort(c: Codec, p: Player, limits: seq<int>, d: nat, q: Player,
                                           bytes: seq<byte>, front: seq<byte>)
    requires FirstShort(c, p, limits, d) && q == PlayerAt(p, d) && bytes == Frame(Encode(c, q))
    requires front == bytes[..Accepted(limits[d], |bytes|)]
    ensures SendRequests(c, p, limits) == Sent(false, q.x, Frames(Payloads(Requests(c, p, d))) + front)
    decreases d
  {
    WholeFirst(c, p, limits);
    if d == 0 {
      assert PlayerAt(p, 0) == p;
      SendShortFirst(c, p, limits, bytes);
      NoRequests(c, p, front);
    } else {
      FirstShortNext(c, p, limits, d);
      PlayerAtNext(p, d - 1);
      SendsFirstShort(c, NextPlayer(p), limits[1..], d - 1, q, bytes, front);
      FrontAfterOne(c, p, limits, d, q.x, front);
    }
  }

  lemma NoRequests(c: Codec, p: Player, front: seq<byte>)
    ensures Frames(Payloads(Requests(c, p, 0))) + front == front
  {
  }

  lemma FrontAfterOne(c: Codec, p: Player, limits: seq<int>, d: nat, x: uint16, front: seq<byte>)
    requires limits != [] && limits[0] >= |Frame(Encode(c, p))| && d > 0
    requires SendRequests(c, NextPlayer(p), limits[1..])
          == Sent(false, x, Frames(Payloads(Requests(c, NextPlayer(p), d - 1))) + front)
    ensures SendRequests(c, p, limits) == Sent(false, x, Frames(Payloads(Requests(c, p, d))) + front)
  {
    var f, rest := Frame(Encode(c, p)), Frames(Payloads(Requests(c, NextPlayer(p), d - 1)));
    SendWholeFirst(c, p, limits, f, Sent(false, x, rest + front));
    RequestsNext(c, p, d - 1);
    FrontMore(f, rest, front, Frames(Payloads(Requests(c, p, d))));
  }

  lemma FirstShortNext(c: Codec, p: Player, limits: seq<int>, d: nat)
    requires FirstShort(c, p, limits, d) && d > 0
    ensures FirstShort(c, NextPlayer(p), limits[1..], d - 1) && limits[1..][d - 1] == limits[d]
  {
    WholesNext(c, p, limits, d - 1);
    WholeNext(c, p, limits, d - 1);
  }

  lemma {:induction false} SomeShort(c: Codec, p: Player, limits: seq<int>, k: nat) returns (d: nat)
    requires k < |limits| && !Whole(c, p, limits, k)
    ensures FirstShort(c, p, limits, d)
    decreases k
  {
    if e: nat :| e < k && !Whole(c, p, limits, e) {
      d := SomeShort(c, p, limits, e);
    } else {
      d := k;
    }
  }

  /** A front of a request is kept by the server and answered by nothing. */
  lemma FrontIsKept(c: Codec, p: Player, w: nat)
    requires w < |Frame(Encode(c, p))|
    ensures Parse(Frame(Encode(c, p))[..w]) == Parsed([], Live(Frame(Encode(c, p))[..w]))
  {
    var f := Frame(Encode(c, p));
    if w >= 2 {
      assert U16At(f[..w], 0) == U16At(f, 0) == |Encode(c, p)|;
    }
  }

  lemma RepliesAreLegal(c: Codec, p: Player, n: nat)
    ensures LegalPayloads(Replies(c, p, n), REPLY_CAP) && Tagged(c, Replies(c, p, n))
  {
  }

  lemma ParseWithFront(c: Codec, p: Player, n: nat, w: nat)
    requires w < |Frame(Encode(c, PlayerAt(p, n)))|
    ensures var front := Frame(Encode(c, PlayerAt(p, n)))[..w];
            Parse(Frames(Payloads(Requests(c, p, n))) + front) == Parsed(Frames(Replies(c, p, n)), Live(front))
  {
    var front := Frame(Encode(c, PlayerAt(p, n)))[..w];
    ServerAnswersInOrder(Requests(c, p, n));
    ParseAppend(Frames(Payloads(Requests(c, p, n))), front);
    FrontIsKept(c, PlayerAt(p, n), w);
    assert [] + front == front && Frames(Replies(c, p, n)) + [] == Frames(Replies(c, p, n));
  }

  lemma QueuedMore(c: Codec, ps: seq<seq<byte>>, qs: seq<seq<byte>>, incoming: seq<byte>)
    requires Queued(c, ps, incoming) && LegalPayloads(qs, REPLY_CAP) && Tagged(c, qs)
    ensures Queued(c, ps + qs, incoming + Frames(qs))
  {
    FramesAppend(ps, qs);
  }

  lemma WroteAnswered(l: Link, bytes: seq<byte>, replies: seq<byte>, rest: seq<byte>)
    requires l.server == Live([]) && Parse(bytes) == Parsed(replies, Live(rest))
    ensures Wrote(l, bytes) == Link(l.inbox.(incoming := l.inbox.incoming + replies), Live(rest))
  {
    assert [] + bytes == bytes;
    if bytes == [] {
      assert Parse([]) == Parsed([], Live([]));
      assert l.inbox.incoming + [] == l.inbox.incoming;
    }
  }

  /** Requests written to a clean connection, and the front of one more: the replies to all of
      them are behind those still to be read, and the server keeps the front. */
  lemma CleanWrites(c: Codec, p: Player, n: nat, w: nat, l: Link, ps: seq<seq<byte>>)
    requires Clean(c, ps, l) && w < |Frame(Encode(c, PlayerAt(p, n)))|
    ensures var front := Frame(Encode(c, PlayerAt(p, n)))[..w];
            var l' := Wrote(l, Frames(Payloads(Requests(c, p, n))) + front);
            && l'.server == Live(front) && l'.inbox.schedule == l.inbox.schedule
            && Queued(c, ps + Replies(c, p, n), l'.inbox.incoming)
  {
    var front := Frame(Encode(c, PlayerAt(p, n)))[..w];
    ParseWithFront(c, p, n, w);
    WroteAnswered(l, Frames(Payloads(Requests(c, p, n))) + front, Frames(Replies(c, p, n)), front);
    RepliesAreLegal(c, p, n);
    QueuedMore(c, ps, Replies(c, p, n), l.inbox.incoming);
  }

  /** The first write that is not whole, number d, ends the round and leaves the replies to the
      requests before it and the front of its own request. */
  lemma FailedSendLeaves(c: Codec, p: Player, limits: seq<int>, l: Link, ps: seq<seq<byte>>, d: nat)
    requires Clean(c, ps, l) && FirstShort(c, p, limits, d)
    ensures var r, bytes := RoundOf(c, p, limits, l), Frame(Encode(c, PlayerAt(p, d)));
            && !r.ok && r.trips == 0 && r.x == PlayerAt(p, d).x
            && Queued(c, ps + Replies(c, p, d), r.link.inbox.incoming)
            && r.link.server == Live(bytes[..Accepted(limits[d], |bytes|)])
  {
    var bytes := Frame(Encode(c, PlayerAt(p, d)));
    var w := Accepted(limits[d], |bytes|);
    RequestSizeIs(c, PlayerAt(p, d));
    SendsFirstShort(c, p, limits, d, PlayerAt(p, d), bytes, bytes[..w]);
    CleanWrites(c, p, d, w, l, ps);
  }

  /** Reading n of the replies that are on their way. */
  lemma {:induction false} ReadsInOrder(c: Codec, n: nat, b: Inbox, ps: seq<seq<byte>>)
    requires n <= |ps| && Queued(c, ps, b.incoming)
    ensures var g := ReadReplies(c, n, b);
            && (g.ok ==> g.trips == n && Queued(c, ps[n..], g.inbox.incoming))
            && (!g.ok ==> g.trips < n)
            && (Benign(b.schedule) ==> g.ok && Benign(g.inbox.schedule))
    decreases n
  {
    if n > 0 {
      FramesHead(ps, 0);
      assert ps[0..] == ps;
      ReadFrameOf(b, ps[0], Frames(ps[1..]));
      var (r, b') := ReadFrame(b);
      if r.Some? {
        ReadsInOrder(c, n - 1, b', ps[1..]);
        assert ps[1..][n - 1..] == ps[n..];
      }
    }
  }

  /** A round on a connection without half-written requests, on which the replies `ps` of earlier
      rounds are still to be read: it reads those first, counts them, and leaves as many of the
      newest replies behind. It is error-free only if every write is whole, and then if the reads
      are benign; an error ends it with fewer round trips. */
  lemma StaleRound(c: Codec, p: Player, limits: seq<int>, l: Link, ps: seq<seq<byte>>)
    requires Clean(c, ps, l)
    ensures var r, n, left := RoundOf(c, p, limits, l), |limits|, (ps + Replies(c, p, |limits|))[|limits|..];
            && |left| == |ps|
            && (r.ok ==> AllWhole(c, p, limits) && r.trips == n && r.x == PlayerAt(p, n).x && Clean(c, left, r.link))
            && (!r.ok ==> r.trips < n)
            && (AllWhole(c, p, limits) && Benign(l.inbox.schedule) ==> r.ok && Benign(r.link.inbox.schedule))
  {
    var n := |limits|;
    if AllWhole(c, p, limits) {
      SendsAllWhole(c, p, limits);
      CleanWrites(c, p, n, 0, l, ps);
      var bytes := Frames(Payloads(Requests(c, p, n)));
      assert bytes + [] == bytes;
      ReadsInOrder(c, n, Wrote(l, bytes).inbox, ps + Replies(c, p, n));
    } else {
      var k: nat :| k < |limits| && !Whole(c, p, limits, k);
      var d := SomeShort(c, p, limits, k);
      FailedSendLeaves(c, p, limits, l, ps, d);
    }
  }

  /** From a connection with nothing outstanding an error-free round adds exactly its depth and
      leaves nothing outstanding, and only short writes or reads that are not benign cause errors. */
  lemma CleanRound(c: Codec, p: Player, limits: seq<int>, l: Link)
    requires l.server == Live([]) && l.inbox.incoming == []
    ensures var r, n := RoundOf(c, p, limits, l), |limits|;
            && (r.ok ==> r.trips == n && r.x == PlayerAt(p, n).x)
            && (r.ok ==> r.link.inbox.incoming == [] && r.link.server == Live([]))
            && (!r.ok ==> r.trips < n)
            && (Benign(l.inbox.schedule) ==> (r.ok <==> AllWhole(c, p, limits)))
  {
    StaleRound(c, p, limits, l, []);
  }

  class Worker {
    const codec: Codec
    const depth: nat
    var x: uint16
    const y: uint16
    const hp: byte
    var roundTrips: nat
    var errors: nat

    constructor (codec: Codec, depth: int, x: uint16, y: uint16)
      ensures this.codec == codec && this.depth == (if depth > 0 then depth else 1)
      ensures this.x == x && this.y == y && hp == 200 && roundTrips == errors == 0
    {
      this.codec := codec;
      this.depth := if depth > 0 then depth else 1;
      this.x, this.y, this.hp := x, y, 200;
      roundTrips, errors := 0, 0;
    }

    function Next(): Player
      reads this
    {
      Player(x, y, hp)
    }

    /** Builds and writes one request; anything but a whole write is an error. */
    method SendOne(sock: Socket, outbuf: array<byte>, limit: int) returns (ok: bool, ghost part: seq<byte>)
      requires outbuf.Length == OUT_CAP
      modifies this`x, this`errors, sock, outbuf
      ensures Took(codec, old(Next()), limit, part, ok) && sock.Value() == Wrote(old(sock.Value()), part)
      ensures Next() == (if ok then NextPlayer(old(Next())) else old(Next())) && errors == old(errors) + if ok
              then 0 else 1
    {
      var len := BuildRequest(outbuf, codec, Next());
      var w := if limit < len then limit else len;
      ghost var bytes := Frame(Encode(codec, Next()));
      part := bytes[..Accepted(limit, len)];
      assert outbuf[..Accepted(limit, len)] == part;
      sock.Write(outbuf[..if w < 0 then 0 else w]);
      ok := w == len;
      if ok {
        x := (x + 1) % 0x1_0000;
      } else {
        errors := errors + 1;
      }
    }

    /** The requests of one round; the first write that is not whole ends it. */
    method SendAll(sock: Socket, limits: seq<int>) returns (ok: bool)
      requires |limits| == depth
      modifies this`x, this`errors, sock
      ensures var s := SendRequests(codec, old(Next()), limits);
              ok == s.ok && x == s.x && sock.Value() == Wrote(old(sock.Value()), s.bytes)
      ensures errors == old(errors) + if ok then 0 else 1
    {
      var outbuf := new byte[OUT_CAP];
      ghost var start, whole, sofar: seq<byte> := sock.Value(), SendRequests(codec, Next(), limits), [];
      ghost var rest := limits;
      SendingNone(whole, start);
      for d := 0 to depth
        invariant errors == old(errors) && rest == limits[d..]
        invariant Sending(whole, start, sofar, sock.Value(), SendRequests(codec, Next(), rest))
      {
        ghost var p, now, part := Next(), sock.Value(), [];
        ok, part := SendOne(sock, outbuf, limits[d]);
        SendingNext(codec, p, rest, rest[1..], whole, start, sofar, now, part, ok, sock.Value());
        sofar, rest := sofar + part, rest[1..];
        if !ok {
          return;
        }
      }
      SendingDone(codec, Next(), rest, whole, start, sofar, sock.Value());
      ok := true;
    }

    /** One reply, counted if it carries the right tag. */
    method ReceiveOne(sock: Socket, reply: array<byte>) returns (ok: bool)
      requires reply.Length > REPLY_CAP
      modifies sock`inbox, reply
      ensures var (r, b) := ReadFrame(old(sock.inbox));
              sock.inbox == b && (ok <==> r.Some? && r.value != [] && r.value[0] == Tag(codec))
    {
      ReadFrameConsumesOne(sock.inbox);
      var rlen := sock.ReadReply(reply);
      if rlen < 0 {
        return false;
      }
      assert reply[0] == reply[..rlen][0];
      ok := rlen >= 1 && reply[0] == Tag(codec);
    }

    /** One reply per request; a failed read or a foreign tag ends the round. */
    method ReceiveAll(sock: Socket) returns (ok: bool)
      modifies this`roundTrips, this`errors, sock`inbox
      ensures var g := ReadReplies(codec, depth, old(sock.inbox));
              ok == g.ok && roundTrips == old(roundTrips) + g.trips && sock.inbox == g.inbox
      ensures errors == old(errors) + if ok then 0 else 1
    {
      var reply := new byte[REPLY_CAP + 1];
      ghost var whole := ReadReplies(codec, depth, sock.inbox);
      assert Reading(whole, 0, whole);
      for d := 0 to depth
        invariant errors == old(errors) && roundTrips == old(roundTrips) + d
        invariant Reading(whole, d, ReadReplies(codec, depth - d, sock.inbox))
      {
        ReadingNext(codec, whole, d, depth - d, sock.inbox);
        ok := ReceiveOne(sock, reply);
        if !ok {
          errors := errors + 1;
          return;
        }
        roundTrips := roundTrips + 1;
      }
      ok := true;
    }

    /** One round, on a connection in whatever state. */
    method Round(sock: Socket, limits: seq<int>)
      requires |limits| == depth
      modifies this, sock
      ensures var r := RoundOf(codec, old(Next()), limits, old(sock.Value()));
              && x == r.x && roundTrips == old(roundTrips) + r.trips && sock.Value() == r.link
              && errors == old(errors) + if r.ok then 0 else 1
    {
      var ok := SendAll(sock, limits);
      if ok {
        ok := ReceiveAll(sock);
      }
    }
  }
}
