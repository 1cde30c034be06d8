/** What the server makes of a request that completes a half-written one. */
module HalfWritten {
  import opened Wire
  import opened MsgPack
  import opened PlayerCodec
  import opened ServerParse

  /** Behind two bytes or more of an old frame its length still counts: the next payload is put
      together from the old frame and what follows. */
  lemma OldFrameFirst(payload: seq<byte>, w: nat, g: seq<byte>)
    requires 1 <= |payload| <= MAX_PAYLOAD && 2 <= w < |Frame(payload)|
    ensures var f := Frame(payload); var s := f[..w] + g;
            NextFrame(s, MAX_PAYLOAD) == if |s| < |f| then Incomplete else Whole(s[2..|f|], g[|f| - w..])
  {
    var f := Frame(payload);
    var s := f[..w] + g;
    assert s[0] == f[0] && s[1] == f[1];
    if |s| >= |f| {
      assert s[|f|..] == g[|f| - w..];
    }
  }

  /** With one byte the length is read from the first bytes of both frames, and is 0. */
  lemma OneByteCloses(f: seq<byte>, g: seq<byte>)
    requires f != [] && g != [] && f[0] == g[0] == 0
    ensures Parse(f[..1] + g) == Parsed([], Closed)
  {
    assert (f[..1] + g)[0] == 0 && (f[..1] + g)[1] == 0;
  }

  lemma FramesAreLow(c: Codec, p: Player)
    ensures LowFront(Frame(Encode(c, p))) && Frame(Encode(c, p))[1] == |Encode(c, p)|
  {
    var f := Frame(Encode(c, p));
    assert f[0] == 0 && f[1] <= 16 && f[2] == Tag(c);
  }

  lemma AnsweredNext(s: seq<byte>, payload: seq<byte>, rest: seq<byte>, reply: seq<byte>)
    requires NextFrame(s, MAX_PAYLOAD) == Whole(payload, rest) && payload != [] && Respond(payload) == Some(reply)
    ensures Parse(s) == Prepend(Frame(reply), Parse(rest))
  {
  }

  lemma WaitingNext(s: seq<byte>)
    requires NextFrame(s, MAX_PAYLOAD) == Incomplete
    ensures Parse(s) == Parsed([], Live(s))
  {
  }

  lemma RefusedNext(s: seq<byte>, payload: seq<byte>, rest: seq<byte>)
    requires NextFrame(s, MAX_PAYLOAD) == Whole(payload, rest) && payload != [] && Respond(payload) == None
    ensures Parse(s) == Parsed([], Closed)
  {
  }

  lemma RespondRaw(payload: seq<byte>)
    requires |payload| == 6 && payload[0] == PKT_RAW
    ensures Respond(payload) ==
            Some(Encode(Raw, Mutate(Player(U16At(payload, 1), U16At(payload, 3), payload[5]))))
  {
  }

  lemma RefusedTag(payload: seq<byte>)
    requires payload != [] && payload[0] == 0
    ensures Respond(payload) == None
  {
  }

  /** A half-written raw request: after one or two bytes the server drops the connection, after
      three or more it answers the player read across both requests and goes on in the middle
      of the second. */
  lemma HalfWrittenRaw(p: Player, q: Player, w: nat)
    requires 1 <= w < 8
    ensures var f, g := Frame(Encode(Raw, p)), Frame(Encode(Raw, q)); var s := f[..w] + g;
            && |f| == |g| == 8
            && (w <= 2 ==> Parse(s) == Parsed([], Closed))
            && (w >= 3 ==>
                  var mixed := Player(U16At(s, 3), U16At(s, 5), s[7]);
                  Parse(s) == Prepend(Frame(Encode(Raw, Mutate(mixed))), Parse(g[8 - w..])))
  {
    var f, g := Frame(Encode(Raw, p)), Frame(Encode(Raw, q));
    FramesAreLow(Raw, p);
    FramesAreLow(Raw, q);
    if w == 1 {
      OneByteCloses(f, g);
    } else {
      var s := f[..w] + g;
      OldFrameFirst(Encode(Raw, p), w, g);
      MixedRaw(f, w, g, s[2..8]);
      if w == 2 {
        RefusedNext(s, s[2..8], g[8 - w..]);
      } else {
        AnsweredNext(s, s[2..8], g[8 - w..], Encode(Raw, Mutate(Player(U16At(s, 3), U16At(s, 5), s[7]))));
      }
    }
  }

  lemma MixedRaw(f: seq<byte>, w: nat, g: seq<byte>, payload: seq<byte>)
    requires |f| == |g| == 8 && 2 <= w < 8 && f[2] == PKT_RAW && g[0] == 0 && payload == (f[..w] + g)[2..8]
    ensures var s := f[..w] + g;
            Respond(payload) ==
            if w == 2 then None else Some(Encode(Raw, Mutate(Player(U16At(s, 3), U16At(s, 5), s[7]))))
  {
    var s := f[..w] + g;
    assert payload[0] == if w == 2 then g[0] else f[2];
    if w == 2 {
      RefusedTag(payload);
    } else {
      RespondRaw(payload);
      assert payload[1] == s[3] && payload[2] == s[4] && payload[3] == s[5] && payload[4] == s[6] && payload[5] == s[7];
    }
  }

  // ----- a MessagePack map that is cut -----

  /** The first bytes of a frame: none of them starts a key. */
  ghost predicate LowFront(g: seq<byte>) {
    g != [] && g[0] == 0 && (|g| > 1 ==> g[1] < 0x80) && (|g| > 2 ==> g[2] < 0x80)
  }

  ghost predicate NoKey(s: seq<byte>) {
    s == [] || s[0] < 0x80
  }

  function EntryBytes(e: Entry): (s: seq<byte>)
    ensures |s| >= 3
  {
    PackKey(e.key) + PackUint(e.n)
  }

  /** An entry that is cut behind its first byte is completed by whatever follows: into one with
      another key, or with a value that is 0 if it was to have at most two bytes. */
  lemma CutEntry(e: Entry, j: nat, g: seq<byte>) returns (key: seq<byte>, s1: seq<byte>, n: nat, rest: seq<byte>)
    requires 1 <= j < |EntryBytes(e)| && LowFront(g) && |g| >= |EntryBytes(e)| - j
    ensures UnpackKey(EntryBytes(e)[..j] + g) == Some((key, s1)) && UnpackValue(s1) == Some((Uint(n), rest))
    ensures NoKey(rest) && key != []
    ensures key == [0] || (key == [e.key] && (|PackUint(e.n)| <= 2 ==> n == 0))
  {
    var b := EntryBytes(e);
    var t := b[..j] + g;
    assert b[0] == 0xa1 && b[1] == e.key;
    if j == 1 {
      key, s1, n, rest := [0], g[1..], g[1], g[2..];
      assert t[1..2] == key && t[2..] == s1;
    } else {
      key, s1 := [e.key], b[2..j] + g;
      assert t[1..2] == key && t[2..] == s1;
      n, rest := CutValue(e.n, j - 2, g);
      assert b[2..j] == PackUint(e.n)[..j - 2];
    }
  }

  lemma CutValue(v: uint16, j: nat, g: seq<byte>) returns (n: nat, rest: seq<byte>)
    requires j < |PackUint(v)| && LowFront(g) && |g| >= |PackUint(v)| - j
    ensures UnpackValue(PackUint(v)[..j] + g) == Some((Uint(n), rest))
    ensures NoKey(rest) && (|PackUint(v)| <= 2 ==> n == 0)
  {
    var b := PackUint(v);
    var s := b[..j] + g;
    if j == 0 {
      assert s == g;
      n, rest := 0, g[1..];
    } else {
      var width := |b| - 1;
      var used := |b| - j;
      assert b[0] == if width == 1 then 0xcc else 0xcd;
      n, rest := BigEndian(s[1..][..width]), g[used..];
      assert s[1..][width..] == rest;
      if width == 1 {
        assert s[1..][..1] == [0];
        assert BigEndian([0]) == 256 * BigEndian([0][..0]) + 0;
      }
    }
  }

  /** Where the last entry starts. */
  function LastStart(es: seq<Entry>): nat
    requires es != []
  {
    |PackEntries(es[..|es| - 1])|
  }

  lemma {:induction false} EntriesAre(es: seq<Entry>)
    requires es != []
    ensures PackEntries(es) == EntryBytes(es[0]) + PackEntries(es[1..])
    ensures |PackEntries(es)| == LastStart(es) + |EntryBytes(es[|es| - 1])|
    ensures |es| > 1 ==> LastStart(es) == |EntryBytes(es[0])| + LastStart(es[1..])
  {
    if |es| > 1 {
      var init := es[..|es| - 1];
      assert init[1..] == es[1..][..|es| - 2] && init[0] == es[0];
      EntriesAre(es[1..]);
    } else {
      assert es[..0] == [] && es[1..] == [];
    }
  }

  /** The field that completes a cut last entry. */
  ghost predicate Completes(f: Field, e: Entry) {
    f.val.Uint? && (f.key == [0] || (f.key == [e.key] && (|PackUint(e.n)| <= 2 ==> f.val.n == 0)))
  }

  lemma CutFirst(es: seq<Entry>, j: nat, g: seq<byte>) returns (f: Field)
    requires es != [] && 1 <= j < |EntryBytes(es[0])| && LowFront(g) && |g| >= |EntryBytes(es[0])| - j
    ensures |es| > 1 ==> UnpackFields(EntryBytes(es[0])[..j] + g, |es|) == None
    ensures |es| == 1 ==> UnpackFields(EntryBytes(es[0])[..j] + g, 1).Some?
                          && UnpackFields(EntryBytes(es[0])[..j] + g, 1).value.0 == [f] && Completes(f, es[0])
  {
    var key, s1, n, rest := CutEntry(es[0], j, g);
    f := Field(key, Uint(n));
    if |es| > 1 {
      assert UnpackKey(rest) == None;
      assert UnpackFields(rest, |es| - 1) == None;
    } else {
      assert UnpackFields(rest, 0) == Some(([], rest));
    }
  }

  /** A map cut at j decodes if and only if the cut is inside its last entry. */
  ghost predicate CutDecodes(es: seq<Entry>, j: nat, r: Option<(seq<Field>, seq<byte>)>, f: Field)
    requires es != []
  {
    if j <= LastStart(es) then r == None
    else r.Some? && r.value.0 == FieldsOf(es[..|es| - 1]) + [f] && Completes(f, es[|es| - 1])
  }

  /** ... when the bytes `g` stand behind the cut. */
  ghost predicate CutGives(es: seq<Entry>, j: nat, g: seq<byte>, f: Field) {
    && es != [] && j <= |PackEntries(es)|
    && CutDecodes(es, j, UnpackFields(PackEntries(es)[..j] + g, |es|), f)
  }

  lemma CutInFirst(es: seq<Entry>, j: nat, g: seq<byte>) returns (f: Field)
    requires es != [] && j < |EntryBytes(es[0])| && LowFront(g) && |g| >= |EntryBytes(es[0])| - j
    ensures CutGives(es, j, g, f)
  {
    var b := EntryBytes(es[0]);
    EntriesAre(es);
    assert PackEntries(es)[..j] == b[..j];
    if j == 0 {
      f := Field([0], Uint(0));
      assert b[..0] + g == g && UnpackKey(g) == None;
    } else {
      f := CutFirst(es, j, g);
      assert |es| == 1 ==> es[..0] == [] && FieldsOf([]) + [f] == [f];
      assert |es| == 1 ==> LastStart(es) == 0;
      assert |es| > 1 ==> LastStart(es) >= |b|;
    }
  }

  /** What a cut in a later entry does to a map is what it does to the map without its first. */
  lemma CutLater(es: seq<Entry>, j: nat, g: seq<byte>, f: Field)
    requires |es| > 1 && |EntryBytes(es[0])| <= j < |PackEntries(es)|
    requires CutGives(es[1..], j - |EntryBytes(es[0])|, g, f)
    ensures CutGives(es, j, g, f)
  {
    var e, s2 := es[0], PackEntries(es[1..])[..j - |EntryBytes(es[0])|] + g;
    CutBytes(es, j, g);
    EntryThenFields(e, s2, |es|);
    CutWithFirst(es, j, UnpackFields(s2, |es| - 1), f);
  }

  /** One more field in front of what has been decoded. */
  function InFront(first: Field, r: Option<(seq<Field>, seq<byte>)>): Option<(seq<Field>, seq<byte>)> {
    match r
    case None => None
    case Some((fields, rest)) => Some(([first] + fields, rest))
  }

  lemma EntryThenFields(e: Entry, s2: seq<byte>, count: nat)
    requires count > 0
    ensures UnpackFields(PackKey(e.key) + (PackUint(e.n) + s2), count)
         == InFront(FieldOf(e), UnpackFields(s2, count - 1))
  {
    UnpackPackedKey(e.key, PackUint(e.n) + s2);
    UnpackPackedUint(e.n, s2);
  }

  lemma CutWithFirst(es: seq<Entry>, j: nat, r: Option<(seq<Field>, seq<byte>)>, f: Field)
    requires |es| > 1 && |EntryBytes(es[0])| <= j
    requires CutDecodes(es[1..], j - |EntryBytes(es[0])|, r, f)
    ensures CutDecodes(es, j, InFront(FieldOf(es[0]), r), f)
  {
    EntriesAre(es);
    FieldsWithout(es, f);
  }

  lemma CutBytes(es: seq<Entry>, j: nat, g: seq<byte>)
    requires es != [] && |EntryBytes(es[0])| <= j <= |PackEntries(es)|
    ensures j - |EntryBytes(es[0])| <= |PackEntries(es[1..])|
    ensures PackEntries(es)[..j] + g
         == PackKey(es[0].key) + (PackUint(es[0].n) + (PackEntries(es[1..])[..j - |EntryBytes(es[0])|] + g))
  {
    EntriesAre(es);
    var b, t := EntryBytes(es[0]), PackEntries(es[1..])[..j - |EntryBytes(es[0])|];
    assert PackEntries(es)[..j] == b + t;
    Associative(b, t, g);
    Associative(PackKey(es[0].key), PackUint(es[0].n), t + g);
  }

  lemma FieldsWithout(es: seq<Entry>, f: Field)
    requires |es| > 1
    ensures [FieldOf(es[0])] + (FieldsOf(es[1..][..|es| - 2]) + [f]) == FieldsOf(es[..|es| - 1]) + [f]
  {
    var init := es[..|es| - 1];
    assert init[1..] == es[1..][..|es| - 2] && init[0] == es[0];
    assert FieldsOf(init) == [FieldOf(es[0])] + FieldsOf(init[1..]);
  }

  lemma {:induction false} CutFields(es: seq<Entry>, j: nat, g: seq<byte>) returns (f: Field)
    requires es != [] && j < |PackEntries(es)| && LowFront(g) && |g| >= |PackEntries(es)| - j
    ensures CutGives(es, j, g, f)
    decreases |es|
  {
    var b := EntryBytes(es[0]);
    EntriesAre(es);
    if j < |b| {
      f := CutInFirst(es, j, g);
    } else {
      f := CutFields(es[1..], j - |b|, g);
      CutLater(es, j, g, f);
    }
  }

  /** A half-written MessagePack request and the next request of either codec. As long as there
      are too few bytes the server waits; then it answers if and only if the old request was cut
      inside its hit points, with these lost, and goes on in the middle of the second request;
      otherwise it drops the connection. */
  lemma HalfWrittenMsgPack(p: Player, d: Codec, q: Player, w: nat)
    requires 1 <= w < |Frame(Encode(MessagePack, p))|
    ensures var f, g := Frame(Encode(MessagePack, p)), Frame(Encode(d, q));
            var s, hit := f[..w] + g, |f| - |EntryBytes(Entry(KEY_H, p.hp))|;
            if w == 1 then Parse(s) == Parsed([], Closed)
            else if |s| < |f| then Parse(s) == Parsed([], Live(s))
            else if w <= hit then Parse(s) == Parsed([], Closed)
            else Parse(s) == Prepend(Frame(Encode(MessagePack, Mutate(Player(p.x, p.y, 0)))), Parse(g[|f| - w..]))
  {
    var f, g := Frame(Encode(MessagePack, p)), Frame(Encode(d, q));
    FramesAreLow(MessagePack, p);
    FramesAreLow(d, q);
    if w == 1 {
      OneByteCloses(f, g);
    } else {
      HeaderAndMore(p, f, w, g, f[..w] + g, |f| - |EntryBytes(Entry(KEY_H, p.hp))|,
                    Frame(Encode(MessagePack, Mutate(Player(p.x, p.y, 0)))));
    }
  }

  lemma HeaderAndMore(p: Player, f: seq<byte>, w: nat, g: seq<byte>, s: seq<byte>, hit: int, reply: seq<byte>)
    requires f == Frame(Encode(MessagePack, p)) && 2 <= w < |f| && LowFront(g) && s == f[..w] + g
    requires hit == |f| - |EntryBytes(Entry(KEY_H, p.hp))|
    requires reply == Frame(Encode(MessagePack, Mutate(Player(p.x, p.y, 0))))
    ensures |s| < |f| ==> Parse(s) == Parsed([], Live(s))
    ensures |s| >= |f| ==>
              Parse(s) == if w <= hit then Parsed([], Closed) else Prepend(reply, Parse(g[|f| - w..]))
  {
    OldFrameFirst(Encode(MessagePack, p), w, g);
    if |s| >= |f| {
      MixedAnswer(p, f, w, g, s);
    } else {
      WaitingNext(s);
    }
  }

  lemma MixedAnswer(p: Player, f: seq<byte>, w: nat, g: seq<byte>, s: seq<byte>)
    requires f == Frame(Encode(MessagePack, p)) && 2 <= w < |f| && LowFront(g) && w + |g| >= |f| && s == f[..w] + g
    requires NextFrame(s, MAX_PAYLOAD) == Whole(s[2..|f|], g[|f| - w..])
    ensures Parse(s) == if w <= |f| - |EntryBytes(Entry(KEY_H, p.hp))| then Parsed([], Closed)
                        else Prepend(Frame(Encode(MessagePack, Mutate(Player(p.x, p.y, 0)))), Parse(g[|f| - w..]))
  {
    MixedMap(p, f, w, g, s[2..|f|]);
    if w <= |f| - |EntryBytes(Entry(KEY_H, p.hp))| {
      RefusedNext(s, s[2..|f|], g[|f| - w..]);
    } else {
      AnsweredNext(s, s[2..|f|], g[|f| - w..], Encode(MessagePack, Mutate(Player(p.x, p.y, 0))));
    }
  }

  /** The bytes of the payload put together from both requests. */
  lemma MixedBytes(f: seq<byte>, body: seq<byte>, w: nat, g: seq<byte>, payload: seq<byte>)
    requires |f| >= 4 && f[4..] == body && 2 <= w < |f| && w + |g| >= |f| && payload == (f[..w] + g)[2..|f|]
    ensures |payload| >= 2 && payload[0] == if w == 2 then g[0] else f[2]
    ensures w == 3 ==> payload[1..][0] == g[0]
    ensures w >= 4 ==> payload[1..][0] == f[3] && payload[1..][1..] == body[..w - 4] + g[..|f| - w]
  {
    var s := f[..w] + g;
    assert payload[0] == s[2] && payload[1] == s[3];
    if w >= 4 {
      assert payload[1..][1..] == s[4..|f|];
      assert s[4..|f|] == f[4..w] + g[..|f| - w];
    }
  }

  lemma MixedMap(p: Player, f: seq<byte>, w: nat, g: seq<byte>, payload: seq<byte>)
    requires f == Frame(Encode(MessagePack, p)) && 2 <= w < |f| && LowFront(g) && w + |g| >= |f|
    requires payload == (f[..w] + g)[2..|f|]
    ensures payload != []
    ensures Respond(payload) ==
            if w <= |f| - |EntryBytes(Entry(KEY_H, p.hp))| then None
            else Some(Encode(MessagePack, Mutate(Player(p.x, p.y, 0))))
  {
    MapBytes(p);
    MixedBytes(f, PackEntries(PlayerEntries(p)), w, g, payload);
    if w == 2 {
      RefusedTag(payload);
    } else {
      RespondMsgPack(payload);
      if w >= 4 {
        CutPlayer(p, w - 4, payload[1..], g[..|f| - w]);
      }
    }
  }

  lemma MapBytes(p: Player)
    ensures var f, es := Frame(Encode(MessagePack, p)), PlayerEntries(p);
            && f[2] == PKT_MSGPACK && f[3] == 0x83 && f[4..] == PackEntries(es)
            && LastStart(es) + 4 == |f| - |EntryBytes(Entry(KEY_H, p.hp))|
  {
    EntriesAre(PlayerEntries(p));
  }

  lemma CutPlayer(p: Player, j: nat, m: seq<byte>, more: seq<byte>)
    requires m != [] && m[0] == 0x83 && j < |PackEntries(PlayerEntries(p))|
    requires m[1..] == PackEntries(PlayerEntries(p))[..j] + more
    requires LowFront(more) && |more| >= |PackEntries(PlayerEntries(p))| - j
    ensures j <= LastStart(PlayerEntries(p)) ==> UnpackMap(m) == None
    ensures j > LastStart(PlayerEntries(p)) ==>
              UnpackMap(m).Some? && |UnpackMap(m).value.0| == 3 && ApplyFields(UnpackMap(m).value.0) ==
                  Player(p.x, p.y, 0)
  {
    var h := CutFields(PlayerEntries(p), j, more);
    assert UnpackMap(m) == UnpackFields(m[1..], 3);
    if j > LastStart(PlayerEntries(p)) {
      HitPointsLost(p, h, UnpackMap(m).value.0);
    }
  }

  lemma HitPointsLost(p: Player, h: Field, fields: seq<Field>)
    requires fields == FieldsOf(PlayerEntries(p)[..2]) + [h] && Completes(h, Entry(KEY_H, p.hp))
    ensures |fields| == 3 && (forall f <- fields :: f.key != []) && ApplyFields(fields) == Player(p.x, p.y, 0)
  {
    var x, y := Entry(KEY_X, p.x), Entry(KEY_Y, p.y);
    assert PlayerEntries(p)[..2] == [x, y];
    assert FieldsOf([x, y]) == [FieldOf(x), FieldOf(y)];
    assert fields == [FieldOf(x), FieldOf(y), h];
    ApplyThree(FieldOf(x), FieldOf(y), h);
  }
}
