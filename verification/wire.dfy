/** The length-prefixed framing shared by the server and both clients:
    a big-endian 16-bit payload length, then the payload. */
module Wire {
  type byte = b: int | 0 <= b < 0x100
  type uint16 = n: int | 0 <= n < 0x1_0000

  datatype Option<+T> = None | Some(value: T)

  function U16Bytes(n: uint16): (s: seq<byte>)
    ensures |s| == 2 && U16At(s, 0) == n
  {
    [n / 256, n % 256]
  }

  function U16At(s: seq<byte>, i: nat): uint16
    requires i + 2 <= |s|
  {
    s[i] as int * 256 + s[i + 1] as int
  }

  /** One frame. Like the C casts, the header keeps only 16 bits of the length. */
  function Frame(payload: seq<byte>): (s: seq<byte>)
    ensures |s| == 2 + |payload|
  {
    [|payload| / 256 % 256, |payload| % 256] + payload
  }

  function Frames(payloads: seq<seq<byte>>): seq<byte> {
    if payloads == [] then [] else Frame(payloads[0]) + Frames(payloads[1..])
  }

  /** What a reader that accepts payloads of 1..limit bytes sees at the head of its buffer. */
  datatype Head = Incomplete | Illegal | Whole(payload: seq<byte>, rest: seq<byte>)

  function NextFrame(s: seq<byte>, limit: nat): (h: Head)
    ensures h.Whole? ==> 1 <= |h.payload| <= limit && |h.rest| < |s|
  {
    if |s| < 2 then Incomplete
    else
      var len := U16At(s, 0);
      if len < 1 || len > limit then Illegal
      else if |s| < 2 + len then Incomplete
      else Whole(s[2..2 + len], s[2 + len..])
  }

  /** All whole frames at the head of a byte stream, and what is left after them. */
  datatype Split = Split(payloads: seq<seq<byte>>, tail: seq<byte>)

  function SplitFrames(s: seq<byte>, limit: nat): (r: Split)
    decreases |s|
  {
    match NextFrame(s, limit)
    case Whole(payload, rest) =>
      var r := SplitFrames(rest, limit);
      Split([payload] + r.payloads, r.tail)
    case _ => Split([], s)
  }

  ghost predicate LegalPayloads(payloads: seq<seq<byte>>, limit: nat) {
    forall i :: 0 <= i < |payloads| ==> 1 <= |payloads[i]| <= limit
  }

  /** No frame header seen so far carries an illegal length. */
  predicate Legal(s: seq<byte>, limit: nat) {
    NextFrame(SplitFrames(s, limit).tail, limit).Incomplete?
  }

  lemma FramesCons(payload: seq<byte>, payloads: seq<seq<byte>>)
    ensures Frames([payload] + payloads) == Frame(payload) + Frames(payloads)
  {
    assert ([payload] + payloads)[1..] == payloads;
  }

  lemma FramesAppend(a: seq<seq<byte>>, b: seq<seq<byte>>)
    ensures Frames(a + b) == Frames(a) + Frames(b)
  {
    if a == [] {
      assert a + b == b;
    } else {
      assert (a + b)[1..] == a[1..] + b;
      FramesAppend(a[1..], b);
    }
  }

  /** A decision taken on a buffer is not changed by bytes that arrive later. */
  lemma NextFrameStable(s: seq<byte>, more: seq<byte>, limit: nat)
    ensures NextFrame(s, limit).Illegal? ==> NextFrame(s + more, limit).Illegal?
    ensures NextFrame(s, limit).Whole? ==>
              NextFrame(s + more, limit) == Whole(NextFrame(s, limit).payload, NextFrame(s, limit).rest + more)
  {
    if |s| >= 2 {
      assert U16At(s + more, 0) == U16At(s, 0);
    }
  }

  lemma NextFrameOfFrame(payload: seq<byte>, more: seq<byte>, limit: nat)
    requires 1 <= |payload| <= limit < 0x1_0000
    ensures NextFrame(Frame(payload) + more, limit) == Whole(payload, more)
  {
    var s := Frame(payload) + more;
    assert s[0] == |payload| / 256 && s[1] == |payload| % 256;
    assert U16At(s, 0) == |payload|;
    assert s[2..2 + |payload|] == payload;
    assert s[2 + |payload|..] == more;
  }

  lemma FrameOfNext(s: seq<byte>, limit: nat)
    requires NextFrame(s, limit).Whole?
    ensures s == Frame(NextFrame(s, limit).payload) + NextFrame(s, limit).rest
  {
  }

  lemma {:induction false} TailIsNotWhole(s: seq<byte>, limit: nat)
    ensures !NextFrame(SplitFrames(s, limit).tail, limit).Whole?
    decreases |s|
  {
    if NextFrame(s, limit).Whole? {
      TailIsNotWhole(NextFrame(s, limit).rest, limit);
    }
  }

  /** Splitting loses nothing and takes only legal payloads. */
  lemma {:induction false} SplitIsExact(s: seq<byte>, limit: nat)
    ensures s == Frames(SplitFrames(s, limit).payloads) + SplitFrames(s, limit).tail
    ensures LegalPayloads(SplitFrames(s, limit).payloads, limit)
    decreases |s|
  {
    var h := NextFrame(s, limit);
    if h.Whole? {
      SplitIsExact(h.rest, limit);
      FrameOfNext(s, limit);
      var r := SplitFrames(h.rest, limit);
      FramesCons(h.payload, r.payloads);
      Associative(Frame(h.payload), Frames(r.payloads), r.tail);
    }
  }

  /** ... and it is the only way to read the stream: the framing is uniquely decodable. */
  lemma {:induction false} SplitOfFrames(payloads: seq<seq<byte>>, tail: seq<byte>, limit: nat)
    requires LegalPayloads(payloads, limit) && limit < 0x1_0000
    requires !NextFrame(tail, limit).Whole?
    ensures SplitFrames(Frames(payloads) + tail, limit) == Split(payloads, tail)
  {
    if payloads == [] {
      assert Frames(payloads) + tail == tail;
    } else {
      var rest := Frames(payloads[1..]) + tail;
      assert Frames(payloads) + tail == Frame(payloads[0]) + rest;
      NextFrameOfFrame(payloads[0], rest, limit);
      SplitOfFrames(payloads[1..], tail, limit);
    }
  }

  /** Splitting a longer stream continues from the tail of the shorter one. */
  lemma {:induction false} SplitAppend(s: seq<byte>, more: seq<byte>, limit: nat)
    ensures var a := SplitFrames(s, limit);
            var b := SplitFrames(a.tail + more, limit);
            SplitFrames(s + more, limit) == Split(a.payloads + b.payloads, b.tail)
    decreases |s|
  {
    var h := NextFrame(s, limit);
    if h.Whole? {
      NextFrameStable(s, more, limit);
      SplitAppend(h.rest, more, limit);
      var a := SplitFrames(h.rest, limit);
      var b := SplitFrames(a.tail + more, limit);
      Associative([h.payload], a.payloads, b.payloads);
    } else {
      assert SplitFrames(s, limit) == Split([], s);
    }
  }

  lemma Associative<T>(a: seq<T>, b: seq<T>, c: seq<T>)
    ensures a + b + c == a + (b + c)
  {
  }

  /** After an illegal header nothing more is ever taken from the stream. */
  lemma SplitIllegal(s: seq<byte>, more: seq<byte>, limit: nat)
    requires !Legal(s, limit)
    ensures SplitFrames(s + more, limit) == Split(SplitFrames(s, limit).payloads, SplitFrames(s, limit).tail + more)
  {
    var a := SplitFrames(s, limit);
    TailIsNotWhole(s, limit);
    SplitAppend(s, more, limit);
    NextFrameStable(a.tail, more, limit);
    assert a.payloads + [] == a.payloads;
  }

  lemma IllegalStays(s: seq<byte>, more: seq<byte>, limit: nat)
    requires !Legal(s, limit)
    ensures !Legal(s + more, limit)
  {
    SplitIllegal(s, more, limit);
    TailIsNotWhole(s, limit);
    NextFrameStable(SplitFrames(s, limit).tail, more, limit);
  }

  /** An illegal header stays visible: legality is closed under prefixes. */
  lemma LegalPrefix(s: seq<byte>, more: seq<byte>, limit: nat)
    requires Legal(s + more, limit)
    ensures Legal(s, limit)
  {
    if !Legal(s, limit) {
      IllegalStays(s, more, limit);
    }
  }

  /** Between reads a legal stream leaves less than one frame in the buffer. */
  lemma LegalTailIsShort(s: seq<byte>, limit: nat)
    requires Legal(s, limit)
    ensures |SplitFrames(s, limit).tail| <= 1 + limit
  {
  }

  /** A byte stream put back together from the chunks it arrived in. */
  function Concat(chunks: seq<seq<byte>>): seq<byte> {
    if chunks == [] then [] else Concat(chunks[..|chunks| - 1]) + chunks[|chunks| - 1]
  }

  // ----- streams made of copies of one payload -----

  /** `s` is some whole number of frames, each carrying `payload`. */
  ghost predicate Uniform(s: seq<byte>, payload: seq<byte>, limit: nat) {
    var r := SplitFrames(s, limit);
    r.tail == [] && forall i :: 0 <= i < |r.payloads| ==> r.payloads[i] == payload
  }

  /** The number of whole frames at the head of `s`. */
  function FrameCount(s: seq<byte>, limit: nat): nat {
    |SplitFrames(s, limit).payloads|
  }

  lemma UniformPush(s: seq<byte>, payload: seq<byte>, limit: nat)
    requires Uniform(s, payload, limit) && 1 <= |payload| <= limit < 0x1_0000
    ensures Uniform(s + Frame(payload), payload, limit)
    ensures FrameCount(s + Frame(payload), limit) == FrameCount(s, limit) + 1
  {
    var f := Frame(payload);
    SplitAppend(s, f, limit);
    assert [] + f == f;
    NextFrameOfFrame(payload, [], limit);
    assert f + [] == f;
    assert SplitFrames(f, limit) == Split([payload], []);
  }

  /** Cutting a uniform stream anywhere leaves a uniform stream behind the cut's tail. */
  lemma UniformCut(s: seq<byte>, more: seq<byte>, payload: seq<byte>, limit: nat)
    requires Uniform(s + more, payload, limit)
    ensures Legal(s, limit)
    ensures var r := SplitFrames(s, limit);
            && (forall i :: 0 <= i < |r.payloads| ==> r.payloads[i] == payload)
            && Uniform(r.tail + more, payload, limit)
            && FrameCount(s + more, limit) == |r.payloads| + FrameCount(r.tail + more, limit)
  {
    LegalPrefix(s, more, limit);
    SplitAppend(s, more, limit);
    var a := SplitFrames(s, limit);
    var b := SplitFrames(a.tail + more, limit);
    AllOfConcat(a.payloads, b.payloads, payload);
  }

  lemma AllOfConcat<T>(a: seq<T>, b: seq<T>, x: T)
    requires forall i :: 0 <= i < |a + b| ==> (a + b)[i] == x
    ensures forall i :: 0 <= i < |a| ==> a[i] == x
    ensures forall i :: 0 <= i < |b| ==> b[i] == x
  {
    forall i | 0 <= i < |a| ensures a[i] == x {
      assert (a + b)[i] == a[i];
    }
    forall i | 0 <= i < |b| ensures b[i] == x {
      assert (a + b)[|a| + i] == b[i];
    }
  }
}
