/** Player states, their two encodings and the server's answer to one payload. */
module PlayerCodec {
  import opened Wire
  import opened MsgPack

  const PKT_RAW: byte := 0x01
  const PKT_MSGPACK: byte := 0x02

  const KEY_X: byte := 0x78
  const KEY_Y: byte := 0x79
  const KEY_H: byte := 0x68

  datatype Player = Player(x: uint16, y: uint16, hp: byte)

  function Mutate(p: Player): Player {
    Player((p.x + 1) % 0x1_0000, (p.y + 1) % 0x1_0000, if p.hp == 0 then 0 else p.hp - 1)
  }

  // ----- MessagePack maps -----

  /** One map entry as the packer writes it. */
  datatype Entry = Entry(key: byte, n: uint16)

  function FieldOf(e: Entry): Field {
    Field([e.key], Uint(e.n))
  }

  function PackEntries(es: seq<Entry>): seq<byte> {
    if es == [] then [] else PackKey(es[0].key) + PackUint(es[0].n) + PackEntries(es[1..])
  }

  function PackMap(es: seq<Entry>): seq<byte>
    requires |es| < 16
  {
    [0x80 + |es|] + PackEntries(es)
  }

  function PlayerEntries(p: Player): seq<Entry> {
    [Entry(KEY_X, p.x), Entry(KEY_Y, p.y), Entry(KEY_H, p.hp)]
  }

  function PackPlayer(p: Player): (s: seq<byte>)
    ensures 10 <= |s| <= 15
  {
    var es := PlayerEntries(p);
    assert PackEntries(es) == PackKey(KEY_X) + PackUint(p.x) + PackEntries(es[1..]);
    assert PackEntries(es[1..]) == PackKey(KEY_Y) + PackUint(p.y) + PackEntries(es[1..][1..]);
    assert PackEntries(es[1..][1..]) == PackKey(KEY_H) + PackUint(p.hp) + PackEntries([]);
    PackMap(es)
  }

  /** The server's handling of one decoded entry: the first key character selects
      the field, non-integers are skipped, wide integers are cut by the C cast. */
  function ApplyField(p: Player, f: Field): Player
    requires f.key != []
  {
    if f.key[0] == KEY_X && f.val.Uint? then p.(x := f.val.n % 0x1_0000)
    else if f.key[0] == KEY_Y && f.val.Uint? then p.(y := f.val.n % 0x1_0000)
    else if f.key[0] == KEY_H && f.val.Uint? then p.(hp := f.val.n % 0x100)
    else p
  }

  function ApplyFields(fs: seq<Field>): Player
    requires forall f <- fs :: f.key != []
  {
    if fs == [] then Player(0, 0, 0) else ApplyField(ApplyFields(fs[..|fs| - 1]), fs[|fs| - 1])
  }

  function UnpackPlayer(s: seq<byte>): Option<(Player, seq<byte>)> {
    match UnpackMap(s)
    case None => None
    case Some((fields, rest)) => if |fields| != 3 then None else Some((ApplyFields(fields), rest))
  }

  function UnpackPlayers(s: seq<byte>): Option<seq<Player>>
    decreases |s|
  {
    if s == [] then Some([])
    else
      match UnpackPlayer(s)
      case None => None
      case Some((p, rest)) =>
        if |rest| >= |s| then None
        else
          match UnpackPlayers(rest)
          case None => None
          case Some(ps) => Some([p] + ps)
  }

  function PackPlayers(ps: seq<Player>): seq<byte> {
    if ps == [] then [] else PackPlayer(ps[0]) + PackPlayers(ps[1..])
  }

  function FieldsOf(es: seq<Entry>): seq<Field> {
    seq(|es|, i requires 0 <= i < |es| => FieldOf(es[i]))
  }

  lemma EntryThenRest(es: seq<Entry>, rest: seq<byte>)
    requires es != []
    ensures PackEntries(es) + rest == PackKey(es[0].key) + (PackUint(es[0].n) + (PackEntries(es[1..]) + rest))
  {
    Associative(PackKey(es[0].key) + PackUint(es[0].n), PackEntries(es[1..]), rest);
    Associative(PackKey(es[0].key), PackUint(es[0].n), PackEntries(es[1..]) + rest);
  }

  lemma {:induction false} UnpackPackedEntries(es: seq<Entry>, rest: seq<byte>)
    ensures UnpackFields(PackEntries(es) + rest, |es|) == Some((FieldsOf(es), rest))
  {
    if es == [] {
      assert PackEntries(es) + rest == rest;
    } else {
      var e, s2 := es[0], PackEntries(es[1..]) + rest;
      EntryThenRest(es, rest);
      UnpackPackedKey(e.key, PackUint(e.n) + s2);
      UnpackPackedUint(e.n, s2);
      UnpackPackedEntries(es[1..], rest);
      UnpackFieldsStep(PackEntries(es) + rest, |es|);
      assert FieldsOf(es) == [FieldOf(e)] + FieldsOf(es[1..]);
    }
  }

  lemma UnpackPackedMap(es: seq<Entry>, rest: seq<byte>)
    requires |es| < 16
    ensures UnpackMap(PackMap(es) + rest) == Some((FieldsOf(es), rest))
  {
    assert (PackMap(es) + rest)[1..] == PackEntries(es) + rest;
    UnpackPackedEntries(es, rest);
  }

  // ----- the field loop does not depend on the order of the keys -----

  ghost predicate DistinctKeys(fs: seq<Field>) {
    && (forall f <- fs :: f.key != [])
    && forall i, j :: 0 <= i < j < |fs| ==> fs[i].key[0] != fs[j].key[0]
  }

  /** The number the last integer field selected by `c` carries, 0 when there is none. */
  function LastUint(fs: seq<Field>, c: byte): nat
    requires forall f <- fs :: f.key != []
  {
    if fs == [] then 0
    else
      var f := fs[|fs| - 1];
      if f.key[0] == c && f.val.Uint? then f.val.n else LastUint(fs[..|fs| - 1], c)
  }

  /** The field loop is three independent look-ups. */
  lemma {:induction false} FieldLoopLooksUp(fs: seq<Field>)
    requires forall f <- fs :: f.key != []
    ensures ApplyFields(fs) ==
            Player(LastUint(fs, 0x78) % 0x1_0000, LastUint(fs, 0x79) % 0x1_0000, LastUint(fs, 0x68) % 0x100)
  {
    if fs != [] {
      FieldLoopLooksUp(fs[..|fs| - 1]);
    }
  }

  lemma {:induction false} LastUintIsTheField(fs: seq<Field>, c: byte)
    requires DistinctKeys(fs)
    ensures forall f <- fs :: f.key[0] == c && f.val.Uint? ==> LastUint(fs, c) == f.val.n
    ensures (forall f <- fs :: f.key[0] == c ==> !f.val.Uint?) ==> LastUint(fs, c) == 0
  {
    if fs != [] {
      var init := fs[..|fs| - 1];
      LastUintIsTheField(init, c);
      assert fs == init + [fs[|fs| - 1]];
    }
  }

  /** Any order of distinct keys gives the same player. */
  lemma FieldOrderIrrelevant(fs: seq<Field>, gs: seq<Field>)
    requires multiset(fs) == multiset(gs) && DistinctKeys(fs) && DistinctKeys(gs)
    ensures ApplyFields(fs) == ApplyFields(gs)
  {
    FieldLoopLooksUp(fs);
    FieldLoopLooksUp(gs);
    forall c: byte ensures LastUint(fs, c) == LastUint(gs, c) {
      LastUintIsTheField(fs, c);
      LastUintIsTheField(gs, c);
      assert forall f :: f in fs <==> f in multiset(fs);
      assert forall f :: f in gs <==> f in multiset(gs);
    }
  }

  /** The three entries of a player, packed in any order, decode to that player. */
  lemma UnpackAnyOrder(p: Player, es: seq<Entry>, rest: seq<byte>)
    requires |es| == 3 && multiset(es) == multiset(PlayerEntries(p))
    ensures UnpackPlayer(PackMap(es) + rest) == Some((p, rest))
  {
    UnpackPackedMap(es, rest);
    assert es == [es[0], es[1], es[2]];
    assert FieldsOf(es) == [FieldOf(es[0]), FieldOf(es[1]), FieldOf(es[2])];
    ApplyThree(FieldOf(es[0]), FieldOf(es[1]), FieldOf(es[2]));
    var ps := PlayerEntries(p);
    SameThree(es[0], es[1], es[2], ps[0], ps[1], ps[2]);
    ApplyInAnyOrder(p, es);
  }

  lemma SameThree<T>(a: T, b: T, c: T, x: T, y: T, z: T)
    requires multiset{a, b, c} == multiset{x, y, z}
    requires x != y && y != z && x != z
    ensures (a == x && b == y && c == z) || (a == x && b == z && c == y)
         || (a == y && b == x && c == z) || (a == y && b == z && c == x)
         || (a == z && b == x && c == y) || (a == z && b == y && c == x)
  {
    assert x in multiset{a, b, c} && y in multiset{a, b, c} && z in multiset{a, b, c};
    assert a in multiset{x, y, z} && b in multiset{x, y, z} && c in multiset{x, y, z};
  }

  lemma ApplyInAnyOrder(p: Player, es: seq<Entry>)
    requires |es| == 3
    requires var x, y, h := Entry(KEY_X, p.x), Entry(KEY_Y, p.y), Entry(KEY_H, p.hp);
             es == [x, y, h] || es == [x, h, y] || es == [y, x, h] || es == [y, h, x] || es == [h, x, y]
                 || es == [h, y, x]
    ensures ApplyField(ApplyField(ApplyField(Player(0, 0, 0), FieldOf(es[0])), FieldOf(es[1])), FieldOf(es[2])) == p
  {
  }

  lemma ApplyThree(a: Field, b: Field, c: Field)
    requires a.key != [] && b.key != [] && c.key != []
    ensures ApplyFields([a, b, c]) == ApplyField(ApplyField(ApplyField(Player(0, 0, 0), a), b), c)
  {
    var fs := [a, b, c];
    assert fs[..2][..1] == fs[..1] && fs[..1][..0] == [];
    assert ApplyFields(fs[..1]) == ApplyField(Player(0, 0, 0), fs[0]);
    assert ApplyFields(fs[..2]) == ApplyField(ApplyFields(fs[..1]), fs[1]);
  }

  lemma UnpackPackedPlayer(p: Player, rest: seq<byte>)
    ensures UnpackPlayer(PackPlayer(p) + rest) == Some((p, rest))
  {
    UnpackAnyOrder(p, PlayerEntries(p), rest);
  }

  /** Concatenated encodings need no separators: decoding gives the players back. */
  lemma {:induction false} UnpackPackedPlayers(ps: seq<Player>)
    ensures UnpackPlayers(PackPlayers(ps)) == Some(ps)
  {
    if ps != [] {
      UnpackPackedPlayer(ps[0], PackPlayers(ps[1..]));
      UnpackPackedPlayers(ps[1..]);
      assert PackPlayers(ps) == PackPlayer(ps[0]) + PackPlayers(ps[1..]);
      assert [ps[0]] + ps[1..] == ps;
    }
  }

  /** No encoding is a proper prefix of another. */
  lemma PackPlayerPrefixFree(p: Player, q: Player)
    requires PackPlayer(p) <= PackPlayer(q)
    ensures p == q
  {
    var rest := PackPlayer(q)[|PackPlayer(p)|..];
    assert PackPlayer(q) == PackPlayer(p) + rest;
    UnpackPackedPlayer(p, rest);
    UnpackPackedPlayer(q, []);
    assert PackPlayer(q) + [] == PackPlayer(q);
  }

  // ----- payloads: a type tag, then the encoded player -----

  datatype Codec = Raw | MessagePack

  function Tag(c: Codec): byte {
    if c.Raw? then PKT_RAW else PKT_MSGPACK
  }

  function Encode(c: Codec, p: Player): (payload: seq<byte>)
    ensures 6 <= |payload| <= 16 && payload[0] == Tag(c)
  {
    match c
    case Raw => [PKT_RAW] + U16Bytes(p.x) + U16Bytes(p.y) + [p.hp]
    case MessagePack => [PKT_MSGPACK] + PackPlayer(p)
  }

  function Decode(payload: seq<byte>): Option<(Codec, Player)>
    requires payload != []
  {
    if payload[0] == PKT_RAW then
      if |payload| != 6 then None
      else Some((Raw, Player(U16At(payload, 1), U16At(payload, 3), payload[5])))
    else if payload[0] == PKT_MSGPACK then
      match UnpackPlayer(payload[1..])
      case None => None
      case Some((p, _)) => Some((MessagePack, p))
    else None
  }

  /** The server's reply payload, or None when it drops the connection. */
  function Respond(payload: seq<byte>): (r: Option<seq<byte>>)
    requires payload != []
    ensures r.Some? ==> 6 <= |r.value| <= 16 && r.value[0] == payload[0]
  {
    match Decode(payload)
    case None => None
    case Some((c, p)) => Some(Encode(c, Mutate(p)))
  }

  lemma RespondMsgPack(payload: seq<byte>)
    requires payload != [] && payload[0] == PKT_MSGPACK
    ensures var msg := UnpackMap(payload[1..]);
            Respond(payload) == if msg.None? || |msg.value.0| != 3 then None
                                else Some([PKT_MSGPACK] + PackPlayer(Mutate(ApplyFields(msg.value.0))))
  {
  }

  lemma DecodeEncoded(c: Codec, p: Player)
    ensures Decode(Encode(c, p)) == Some((c, p))
  {
    if c.MessagePack? {
      assert Encode(c, p)[1..] == PackPlayer(p) + [];
      UnpackPackedPlayer(p, []);
    } else {
      var s := Encode(c, p);
      assert U16At(s, 1) == U16At(U16Bytes(p.x), 0) && U16At(s, 3) == U16At(U16Bytes(p.y), 0);
    }
  }

  /** The raw codec has exactly one encoding per player, so re-encoding is the identity. */
  lemma RawEncodingIsCanonical(payload: seq<byte>)
    requires payload != [] && Decode(payload).Some? && payload[0] == PKT_RAW
    ensures Encode(Raw, Decode(payload).value.1) == payload
  {
  }

  /** A run of exchanges in which the client sends each reply back as the next request. */
  ghost predicate EchoRun(run: seq<seq<byte>>) {
    forall i :: 0 <= i < |run| - 1 ==> run[i] != [] && Respond(run[i]) == Some(run[i + 1])
  }

  /** The player after n mutations, in closed form. */
  function Advance(p: Player, n: nat): Player {
    Player((p.x + n) % 0x1_0000, (p.y + n) % 0x1_0000, if p.hp > n then p.hp - n else 0)
  }

  lemma ModSucc(a: nat)
    ensures (a % 0x1_0000 + 1) % 0x1_0000 == (a + 1) % 0x1_0000
  {
  }

  lemma MutateAdvance(p: Player, n: nat)
    ensures Mutate(Advance(p, n)) == Advance(p, n + 1)
  {
    ModSucc(p.x + n);
    ModSucc(p.y + n);
  }

  lemma RespondEncoded(c: Codec, p: Player)
    ensures Respond(Encode(c, p)) == Some(Encode(c, Mutate(p)))
  {
    DecodeEncoded(c, p);
  }

  lemma RespondAdvanced(c: Codec, p: Player, n: nat)
    ensures Respond(Encode(c, Advance(p, n))) == Some(Encode(c, Advance(p, n + 1)))
  {
    RespondEncoded(c, Advance(p, n));
    MutateAdvance(p, n);
  }

  lemma AdvanceZero(p: Player)
    ensures Advance(p, 0) == p
  {
  }

  /** Every reply is a legal request, and after n exchanges the coordinates have grown by n
      (modulo 2^16) and the hit points have shrunk by n (never below zero). */
  lemma {:induction false} EchoIteration(c: Codec, p: Player, run: seq<seq<byte>>, n: nat)
    requires EchoRun(run) && n < |run| && run[0] == Encode(c, p)
    ensures run[n] == Encode(c, Advance(p, n))
    ensures Respond(run[n]) == Some(Encode(c, Advance(p, n + 1)))
  {
    if n == 0 {
      AdvanceZero(p);
    } else {
      EchoIteration(c, p, run, n - 1);
    }
    RespondAdvanced(c, p, n);
  }
}
