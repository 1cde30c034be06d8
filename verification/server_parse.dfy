/** What the server makes of the byte stream of one connection, independent of how
    the stream is cut into read events. */
module ServerParse {
  import opened Wire
  import opened PlayerCodec

  const MAX_PAYLOAD: nat := 256

  /** A connection is either live, holding the bytes it has not consumed, or closed. */
  datatype Outcome = Live(rest: seq<byte>) | Closed
  datatype Parsed = Parsed(replies: seq<byte>, outcome: Outcome)

  function Parse(s: seq<byte>): Parsed
    decreases |s|
  {
    match NextFrame(s, MAX_PAYLOAD)
    case Incomplete => Parsed([], Live(s))
    case Illegal => Parsed([], Closed)
    case Whole(payload, rest) =>
      match Respond(payload)
      case None => Parsed([], Closed)
      case Some(reply) =>
        Prepend(Frame(reply), Parse(rest))
  }

  function Prepend(replies: seq<byte>, r: Parsed): Parsed {
    Parsed(replies + r.replies, r.outcome)
  }

  lemma PrependTwice(a: seq<byte>, b: seq<byte>, r: Parsed)
    ensures Prepend(a, Prepend(b, r)) == Prepend(a + b, r)
  {
    Associative(a, b, r.replies);
  }

  lemma ParseCases(d: seq<byte>)
    ensures |d| < 2 ==> Parse(d) == Parsed([], Live(d))
    ensures |d| >= 2 ==>
              var len := U16At(d, 0);
              if len < 1 || len > 256 then Parse(d) == Parsed([], Closed)
              else if |d| < 2 + len then Parse(d) == Parsed([], Live(d))
              else match Respond(d[2..2 + len])
                   case None => Parse(d) == Parsed([], Closed)
                   case Some(reply) => Parse(d) == Prepend(Frame(reply), Parse(d[2 + len..]))
  {
  }

  // ----- the whole stream in one sentence -----

  /** The bytes at the head of `s` make the server drop the connection. */
  predicate Fatal(s: seq<byte>) {
    var h := NextFrame(s, MAX_PAYLOAD);
    h.Illegal? || (h.Whole? && Respond(h.payload).None?)
  }

  ghost predicate Answerable(payloads: seq<seq<byte>>) {
    && LegalPayloads(payloads, MAX_PAYLOAD)
    && forall i :: 0 <= i < |payloads| ==> Respond(payloads[i]).Some?
  }

  ghost function Responses(payloads: seq<seq<byte>>): (r: seq<seq<byte>>)
    requires Answerable(payloads)
    ensures |r| == |payloads|
  {
    seq(|payloads|, i requires 0 <= i < |payloads| => Respond(payloads[i]).value)
  }

  /** `r` is the result of answering the requests `payloads` and then stopping at `tail`. */
  ghost predicate Explains(s: seq<byte>, payloads: seq<seq<byte>>, tail: seq<byte>, r: Parsed) {
    && s == Frames(payloads) + tail
    && Answerable(payloads)
    && r.replies == Frames(Responses(payloads))
    && match r.outcome {
         case Live(rest) => rest == tail && NextFrame(tail, MAX_PAYLOAD).Incomplete?
         case Closed => Fatal(tail)
       }
  }

  lemma ParseOfFrame(payload: seq<byte>, more: seq<byte>)
    requires 1 <= |payload| <= MAX_PAYLOAD && Respond(payload).Some?
    ensures Parse(Frame(payload) + more) == Prepend(Frame(Respond(payload).value), Parse(more))
  {
    NextFrameOfFrame(payload, more, MAX_PAYLOAD);
  }

  lemma ResponsesCons(payloads: seq<seq<byte>>)
    requires payloads != [] && Answerable(payloads)
    ensures Answerable(payloads[1..])
    ensures Frames(Responses(payloads)) == Frame(Respond(payloads[0]).value) + Frames(Responses(payloads[1..]))
  {
    assert Responses(payloads)[1..] == Responses(payloads[1..]);
  }

  lemma {:induction false} ParseOfFrames(payloads: seq<seq<byte>>, tail: seq<byte>)
    requires Answerable(payloads)
    ensures Parse(Frames(payloads) + tail) == Prepend(Frames(Responses(payloads)), Parse(tail))
  {
    if payloads == [] {
      assert Frames(payloads) + tail == tail;
      assert Frames(Responses(payloads)) + Parse(tail).replies == Parse(tail).replies;
    } else {
      var p, ps := payloads[0], payloads[1..];
      Associative(Frame(p), Frames(ps), tail);
      ResponsesCons(payloads);
      ParseOfFrames(ps, tail);
      ParseOfFrame(p, Frames(ps) + tail);
      Associative(Frame(Respond(p).value), Frames(Responses(ps)), Parse(tail).replies);
    }
  }

  ghost function Taken(s: seq<byte>): (r: (seq<seq<byte>>, seq<byte>))
    decreases |s|
  {
    var h := NextFrame(s, MAX_PAYLOAD);
    if !h.Whole? || Respond(h.payload).None? then ([], s)
    else ([h.payload] + Taken(h.rest).0, Taken(h.rest).1)
  }

  lemma {:induction false} TakenExplains(s: seq<byte>)
    ensures Explains(s, Taken(s).0, Taken(s).1, Parse(s))
    decreases |s|
  {
    var h := NextFrame(s, MAX_PAYLOAD);
    if h.Whole? && Respond(h.payload).Some? {
      TakenExplains(h.rest);
      var ps, tail := Taken(h.rest).0, Taken(h.rest).1;
      var qs := [h.payload] + ps;
      assert qs[1..] == ps;
      FrameOfNext(s, MAX_PAYLOAD);
      Associative(Frame(h.payload), Frames(ps), tail);
      ResponsesCons(qs);
    } else {
      assert Responses([]) == [];
    }
  }

  /** At the tail of an explanation nothing is answered. */
  lemma ParseOfTail(tail: seq<byte>, outcome: Outcome)
    requires match outcome
             case Live(rest) => rest == tail && NextFrame(tail, MAX_PAYLOAD).Incomplete?
             case Closed => Fatal(tail)
    ensures Parse(tail) == Parsed([], outcome)
  {
  }

  lemma ExplanationIsTheParse(s: seq<byte>, payloads: seq<seq<byte>>, tail: seq<byte>, r: Parsed)
    requires Explains(s, payloads, tail, r)
    ensures Parse(s) == r
  {
    ParseOfTail(tail, r.outcome);
    AnsweredThenTail(payloads, tail, r.outcome, Frames(Responses(payloads)));
  }

  lemma AnsweredThenTail(payloads: seq<seq<byte>>, tail: seq<byte>, outcome: Outcome, replies: seq<byte>)
    requires Answerable(payloads) && replies == Frames(Responses(payloads)) && Parse(tail) == Parsed([], outcome)
    ensures Parse(Frames(payloads) + tail) == Parsed(replies, outcome)
  {
    ParseOfFrames(payloads, tail);
    assert replies + [] == replies;
  }

  /** The parse is the one and only reading of the stream as answered requests
      followed by an incomplete frame (live) or a fatal one (closed). */
  lemma ParseMeaning(s: seq<byte>, r: Parsed)
    ensures Parse(s) == r <==> exists payloads, tail :: Explains(s, payloads, tail, r)
  {
    TakenExplains(s);
    if payloads, tail :| Explains(s, payloads, tail, r) {
      ExplanationIsTheParse(s, payloads, tail, r);
    }
  }

  // ----- read events -----

  /** One read event: `chunk` is appended to the input of a live connection and processed. */
  function Feed(state: Parsed, chunk: seq<byte>): Parsed {
    match state.outcome
    case Closed => state
    case Live(rest) =>
      Prepend(state.replies, Parse(rest + chunk))
  }

  function FeedAll(chunks: seq<seq<byte>>): Parsed {
    if chunks == [] then Parsed([], Live([])) else Feed(FeedAll(chunks[..|chunks| - 1]), chunks[|chunks| - 1])
  }

  lemma {:induction false} ParseAppend(s: seq<byte>, more: seq<byte>)
    ensures Parse(s + more) == Feed(Parse(s), more)
    decreases |s|
  {
    NextFrameStable(s, more, MAX_PAYLOAD);
    var h := NextFrame(s, MAX_PAYLOAD);
    match h {
      case Incomplete =>
        assert [] + Parse(s + more).replies == Parse(s + more).replies;
      case Illegal =>
      case Whole(payload, rest) =>
        if Respond(payload).Some? {
          ParseAppend(rest, more);
          var f := Frame(Respond(payload).value);
          assert Parse(s) == Parsed(f + Parse(rest).replies, Parse(rest).outcome);
          assert Parse(s + more) == Parsed(f + Parse(rest + more).replies, Parse(rest + more).outcome);
          if Parse(rest).outcome.Live? {
            Associative(f, Parse(rest).replies, Parse(Parse(rest).outcome.rest + more).replies);
          }
        }
    }
  }

  /** However the stream is cut into read events, the replies, the open/closed outcome
      and the unconsumed bytes are those of parsing it in one piece. */
  lemma {:induction false} ChunkingInvariance(chunks: seq<seq<byte>>)
    ensures FeedAll(chunks) == Parse(Concat(chunks))
  {
    if chunks != [] {
      ChunkingInvariance(chunks[..|chunks| - 1]);
      ParseAppend(Concat(chunks[..|chunks| - 1]), chunks[|chunks| - 1]);
    }
  }

  /** Replies are never taken back, and a closed connection stays closed. */
  lemma RepliesGrow(s: seq<byte>, more: seq<byte>)
    ensures Parse(s).replies <= Parse(s + more).replies
    ensures Parse(s).outcome.Closed? ==> Parse(s + more) == Parse(s)
  {
    ParseAppend(s, more);
  }

  // ----- both codecs on one connection -----

  datatype Message = Message(codec: Codec, player: Player)

  function Payloads(ms: seq<Message>): seq<seq<byte>> {
    seq(|ms|, i requires 0 <= i < |ms| => Encode(ms[i].codec, ms[i].player))
  }

  function MutateAll(ms: seq<Message>): seq<Message> {
    seq(|ms|, i requires 0 <= i < |ms| => ms[i].(player := Mutate(ms[i].player)))
  }

  function DecodePayloads(payloads: seq<seq<byte>>): Option<seq<Message>> {
    if payloads == [] then Some([])
    else if payloads[0] == [] then None
    else
      match (Decode(payloads[0]), DecodePayloads(payloads[1..]))
      case (Some((c, p)), Some(ms)) => Some([Message(c, p)] + ms)
      case _ => None
  }

  /** The messages a client reads out of a reply stream. */
  function DecodeStream(s: seq<byte>, limit: nat): Option<seq<Message>> {
    var r := SplitFrames(s, limit);
    if r.tail != [] then None else DecodePayloads(r.payloads)
  }

  lemma PayloadsCons(m: Message, ms: seq<Message>)
    ensures Payloads([m] + ms) == [Encode(m.codec, m.player)] + Payloads(ms)
  {
  }

  lemma DecodePayloadsCons(payload: seq<byte>, payloads: seq<seq<byte>>, m: Message, ms: seq<Message>)
    requires payload != [] && Decode(payload) == Some((m.codec, m.player)) && DecodePayloads(payloads) == Some(ms)
    ensures DecodePayloads([payload] + payloads) == Some([m] + ms)
  {
    assert ([payload] + payloads)[1..] == payloads;
  }

  lemma {:induction false} DecodePayloadsOfMessages(ms: seq<Message>)
    ensures DecodePayloads(Payloads(ms)) == Some(ms)
  {
    if ms != [] {
      var m, rest := ms[0], ms[1..];
      assert [m] + rest == ms;
      DecodeEncoded(m.codec, m.player);
      DecodePayloadsOfMessages(rest);
      PayloadsCons(m, rest);
      DecodePayloadsCons(Encode(m.codec, m.player), Payloads(rest), m, rest);
    }
  }

  /** For any mix of codecs the server answers every request, in order and in its own
      codec, with the mutated player, and keeps nothing back. */
  lemma ServerAnswersInOrder(ms: seq<Message>)
    ensures Parse(Frames(Payloads(ms))) == Parsed(Frames(Payloads(MutateAll(ms))), Live([]))
  {
    var ps := Payloads(ms);
    forall i | 0 <= i < |ps| ensures Respond(ps[i]) == Some(Payloads(MutateAll(ms))[i]) {
      RespondEncoded(ms[i].codec, ms[i].player);
    }
    ParseOfFrames(ps, []);
    assert Responses(ps) == Payloads(MutateAll(ms));
    assert Frames(ps) + [] == Frames(ps);
    assert Frames(Responses(ps)) + [] == Frames(Responses(ps));
  }

  /** ... so the client decodes exactly the mutated players, whichever codec carried them. */
  lemma CodecAgreement(ms: seq<Message>, limit: nat)
    requires 16 <= limit < 0x1_0000
    ensures DecodeStream(Parse(Frames(Payloads(ms))).replies, limit) == Some(MutateAll(ms))
  {
    ServerAnswersInOrder(ms);
    var out := Payloads(MutateAll(ms));
    SplitOfFrames(out, [], limit);
    assert Frames(out) + [] == Frames(out);
    DecodePayloadsOfMessages(MutateAll(ms));
  }
}
