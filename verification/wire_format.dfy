/** The bytes on the wire, written out: what the encoders produce, which forms the decoder reads,
    and which requests the server takes. */
module WireFormat {
  import opened Wire
  import opened MsgPack
  import opened PlayerCodec
  import opened ServerParse

  // ----- what is written -----

  /** A frame starts with the length of its payload, most significant byte first. */
  lemma FrameBytes(payload: seq<byte>)
    requires |payload| < 0x1_0000
    ensures var f := Frame(payload);
            f[2..] == payload && f[0] as int * 256 + f[1] as int == |payload|
  {
  }

  /** The MessagePack form of an unsigned number: positive fixint, uint 8 or uint 16. */
  lemma PackUintBytes(n: uint16)
    ensures n <= 0x7f ==> PackUint(n) == [n]
    ensures 0x80 <= n <= 0xff ==> PackUint(n) == [0xcc, n]
    ensures n >= 0x100 ==> PackUint(n) == [0xcd, n / 256, n % 256]
  {
  }

  lemma PackThree(a: Entry, b: Entry, c: Entry)
    ensures PackEntries([a, b, c]) ==
            PackKey(a.key) + PackUint(a.n) + (PackKey(b.key) + PackUint(b.n) + (PackKey(c.key) + PackUint(c.n)))
  {
    assert [a, b, c][1..] == [b, c] && [b, c][1..] == [c] && [c][1..] == [];
    assert PackEntries([c]) == PackKey(c.key) + PackUint(c.n) + PackEntries([]);
    assert PackKey(c.key) + PackUint(c.n) + [] == PackKey(c.key) + PackUint(c.n);
  }

  /** A player is a map of three entries with the keys `x`, `y` and `h`, in this order. */
  lemma PackPlayerBytes(p: Player)
    ensures PackPlayer(p) == [0x83, 0xa1, 0x78] + PackUint(p.x) + [0xa1, 0x79] + PackUint(p.y)
                             + [0xa1, 0x68] + PackUint(p.hp)
  {
    PackThree(Entry(0x78, p.x), Entry(0x79, p.y), Entry(0x68, p.hp));
  }

  /** Tag 1 is followed by both coordinates, most significant byte first, and the hit points; tag 2
      by the map. */
  lemma EncodeBytes(p: Player)
    ensures Encode(Raw, p) == [1, p.x / 256, p.x % 256, p.y / 256, p.y % 256, p.hp]
    ensures Encode(MessagePack, p) == [2] + PackPlayer(p)
  {
  }

  // ----- what is read -----

  lemma BigEndianMore(s: seq<byte>, b: byte)
    ensures BigEndian(s + [b]) == 256 * BigEndian(s) + b as int
  {
  }

  lemma BigEndianPair(a: byte, b: byte)
    ensures BigEndian([a]) == a as int && BigEndian([a, b]) == 0x100 * a + b
  {
    BigEndianMore([], a);
    BigEndianMore([a], b);
    assert [] + [a] == [a] && [a] + [b] == [a, b];
  }

  /** Big-endian numbers split anywhere; so two halves of four bytes each give one of eight. */
  lemma {:induction false} BigEndianSplit(s: seq<byte>, a: byte, b: byte)
    ensures BigEndian(s + [a, b]) == 0x1_0000 * BigEndian(s) + 0x100 * a + b
  {
    BigEndianMore(s, a);
    BigEndianMore(s + [a], b);
    assert s + [a] + [b] == s + [a, b];
  }

  lemma WideRead(s: seq<byte>, body: seq<byte>, rest: seq<byte>)
    requires s == body + rest
    ensures UnpackWide(s, |body|) == Some((Uint(BigEndian(body)), rest))
  {
  }

  /** Positive fixint, uint 8, uint 16, uint 32 and uint 64 ("Int format family"). */
  lemma UintForms(n: byte, a: byte, b: byte, c: byte, d: byte, rest: seq<byte>)
    ensures n <= 0x7f ==> UnpackValue([n] + rest) == Some((Uint(n), rest))
    ensures UnpackValue([0xcc, a] + rest) == Some((Uint(a), rest))
    ensures UnpackValue([0xcd, a, b] + rest) == Some((Uint(0x100 * a + b), rest))
    ensures UnpackValue([0xce, a, b, c, d] + rest)
         == Some((Uint(0x1_0000 * (0x100 * a + b) + 0x100 * c + d), rest))
  {
    assert ([n] + rest)[1..] == rest;
    assert ([0xcc, a] + rest)[1..] == [a] + rest;
    assert ([0xcd, a, b] + rest)[1..] == [a, b] + rest;
    assert ([0xce, a, b, c, d] + rest)[1..] == [a, b, c, d] + rest;
    WideRead([a] + rest, [a], rest);
    WideRead([a, b] + rest, [a, b], rest);
    WideRead([a, b, c, d] + rest, [a, b, c, d], rest);
    BigEndianPair(a, b);
    BigEndianSplit([a, b], c, d);
    assert [a, b] + [c, d] == [a, b, c, d];
  }

  lemma EightBytes(high: seq<byte>, e: byte, f: byte, g: byte, h: byte)
    ensures BigEndian(high + [e, f, g, h])
         == 0x1_0000 * (0x1_0000 * BigEndian(high) + 0x100 * e + f) + 0x100 * g + h
  {
    BigEndianSplit(high, e, f);
    BigEndianSplit(high + [e, f], g, h);
    assert high + [e, f] + [g, h] == high + [e, f, g, h];
  }

  lemma LowBits(v: nat, g: byte, h: byte)
    ensures (0x1_0000 * v + 0x100 * g + h) % 0x1_0000 == 0x100 * g + h
    ensures (0x1_0000 * v + 0x100 * g + h) % 0x100 == h
  {
    var w: int := 0x100 * v + g;
    assert 0x1_0000 * v + 0x100 * g + h == 0x100 * w + h;
  }

  /** A uint 64; the casts of the program keep its last two bytes, or the last. */
  lemma WidestUint(high: seq<byte>, e: byte, f: byte, g: byte, h: byte, rest: seq<byte>, s: seq<byte>)
    requires |high| == 4 && s == [0xcf] + (high + [e, f, g, h] + rest)
    ensures var n := 0x1_0000 * (0x1_0000 * BigEndian(high) + 0x100 * e + f) + 0x100 * g + h;
            && UnpackValue(s) == Some((Uint(n), rest))
            && n % 0x1_0000 == 0x100 * g + h && n % 0x100 == h
  {
    var body := high + [e, f, g, h];
    assert s[1..] == body + rest;
    WideRead(s[1..], body, rest);
    EightBytes(high, e, f, g, h);
    LowBits(0x1_0000 * BigEndian(high) + 0x100 * e + f, g, h);
  }

  /** nil, the booleans and the negative fixints are read and carry no number. */
  lemma OneByteForms(b: byte, rest: seq<byte>)
    ensures b == 0xc0 || b == 0xc2 || b == 0xc3 || 0xe0 <= b ==> UnpackValue([b] + rest) == Some((Other, rest))
  {
    assert ([b] + rest)[1..] == rest;
  }

  /** Short string keys ("Str format family"): the low five bits are the length. */
  lemma KeyForms(key: seq<byte>, rest: seq<byte>)
    requires 1 <= |key| <= 31
    ensures UnpackKey([0xa0 + |key|] + key + rest) == Some((key, rest))
  {
    var s := [0xa0 + |key|] + key + rest;
    assert s[1..1 + |key|] == key && s[1 + |key|..] == rest;
  }

  /** The first character of a key selects the field, `x`, `y` or `h`; a number too wide for the
      field loses its high bits, and a value that is not an unsigned number leaves 0. */
  lemma FirstCharacterSelects(kx: seq<byte>, ky: seq<byte>, kh: seq<byte>, a: nat, b: nat, c: nat)
    ensures ApplyFields([Field([0x78] + kx, Uint(a)), Field([0x79] + ky, Uint(b)), Field([0x68] + kh, Uint(c))])
         == Player(a % 0x1_0000, b % 0x1_0000, c % 0x100)
    ensures ApplyFields([Field([0x78] + kx, Other), Field([0x79] + ky, Uint(b)), Field([0x68] + kh, Other)])
         == Player(0, b % 0x1_0000, 0)
  {
    ApplyThree(Field([0x78] + kx, Uint(a)), Field([0x79] + ky, Uint(b)), Field([0x68] + kh, Uint(c)));
    ApplyThree(Field([0x78] + kx, Other), Field([0x79] + ky, Uint(b)), Field([0x68] + kh, Other));
  }

  // ----- what the server takes -----

  /** It answers six bytes with tag 1 and, with tag 2, whatever starts with a map of three entries
      that can be read; it drops the connection on everything else. */
  lemma AnsweredExactly(payload: seq<byte>)
    requires payload != []
    ensures Respond(payload).Some? <==>
              || (payload[0] == 1 && |payload| == 6)
              || (payload[0] == 2 && |payload| >= 2 && payload[1] == 0x83 && UnpackFields(payload[2..], 3).Some?)
  {
    if |payload| >= 2 {
      assert payload[1..][0] == payload[1] && payload[1..][1..] == payload[2..];
    }
  }

  /** Both coordinates go up by one modulo 2^16, the hit points down by one but not below 0. */
  lemma RawAnswer(x: uint16, y: uint16, hp: byte)
    ensures var x', y', hp' := (x + 1) % 0x1_0000, (y + 1) % 0x1_0000, if hp == 0 then 0 else hp - 1;
            Respond([1, x / 256, x % 256, y / 256, y % 256, hp]) ==
            Some([1, x' / 256, x' % 256, y' / 256, y' % 256, hp'])
  {
    EncodeBytes(Player(x, y, hp));
    EncodeBytes(Mutate(Player(x, y, hp)));
    RespondEncoded(Raw, Player(x, y, hp));
  }

  /** Payloads of 1 to 256 bytes are waited for; any other length drops the connection at once. */
  lemma LengthLimits(s: seq<byte>)
    requires |s| >= 2
    ensures var len: int := 256 * s[0] as int + s[1] as int;
            && (len == 0 || len > 256 ==> Parse(s) == Parsed([], Closed))
            && (1 <= len <= 256 && |s| < 2 + len ==> Parse(s) == Parsed([], Live(s)))
  {
    ParseCases(s);
  }

  lemma AnsweredAlone(c: Codec, p: Player, q: Player, request: seq<byte>, reply: seq<byte>)
    requires q == Mutate(p) && request == Frame(Encode(c, p)) && reply == Frame(Encode(c, q))
    ensures Parse(request) == Parsed(reply, Live([]))
  {
    RespondEncoded(c, p);
    ParseOfFrame(Encode(c, p), []);
    ParseCases([]);
    assert request + [] == request && reply + [] == reply;
  }

  /** The MessagePack request of the pipelined load generator, and the answer to it. */
  lemma TemplateExchange(request: seq<byte>, reply: seq<byte>)
    requires request == [0x00, 0x0c, 0x02, 0x83, 0xa1, 0x78, 0x01, 0xa1, 0x79, 0x02, 0xa1, 0x68, 0xcc, 0xc8]
    requires reply == [0x00, 0x0c, 0x02, 0x83, 0xa1, 0x78, 0x02, 0xa1, 0x79, 0x03, 0xa1, 0x68, 0xcc, 0xc7]
    ensures request == Frame(Encode(MessagePack, Player(1, 2, 200)))
    ensures Parse(request) == Parsed(reply, Live([]))
  {
    TemplateBytes(1, 2, 200);
    TemplateBytes(2, 3, 199);
    AnsweredAlone(MessagePack, Player(1, 2, 200), Player(2, 3, 199), request, reply);
  }

  lemma TemplateBytes(x: byte, y: byte, hp: byte)
    requires x < 0x80 && y < 0x80 && 0x80 <= hp
    ensures Frame(Encode(MessagePack, Player(x, y, hp)))
         == [0x00, 0x0c, 0x02, 0x83, 0xa1, 0x78, x, 0xa1, 0x79, y, 0xa1, 0x68, 0xcc, hp]
  {
    PackPlayerBytes(Player(x, y, hp));
    PackUintBytes(x);
    PackUintBytes(y);
    PackUintBytes(hp);
    EncodeBytes(Player(x, y, hp));
    FramedTwelve(Encode(MessagePack, Player(x, y, hp)));
  }

  lemma FramedTwelve(payload: seq<byte>)
    requires |payload| == 12
    ensures Frame(payload) == [0x00, 0x0c] + payload
  {
  }
}
