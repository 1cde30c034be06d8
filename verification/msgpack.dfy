/** The part of MessagePack that the player codec reads and writes: maps of up to
    15 entries ("Map format family"), short string keys ("Str format family"),
    unsigned integers of every width ("Int format family"), and the one-byte values
    nil, booleans and negative fixint, which the codec skips over. */
module MsgPack {
  import opened Wire

  datatype Value = Uint(n: nat) | Other
  datatype Field = Field(key: seq<byte>, val: Value)

  /** The packer always chooses the shortest form that holds the number. */
  function PackUint(n: uint16): (s: seq<byte>)
    ensures 1 <= |s| <= 3 && (n < 256 ==> |s| <= 2)
  {
    if n < 0x80 then [n] else if n < 0x100 then [0xcc, n] else [0xcd] + U16Bytes(n)
  }

  /** A one-character key, as in `msgpack_pack_str` followed by its body. */
  function PackKey(c: byte): seq<byte> {
    [0xa1, c]
  }

  function BigEndian(s: seq<byte>): nat {
    if s == [] then 0 else 256 * BigEndian(s[..|s| - 1]) + s[|s| - 1] as int
  }

  function UnpackWide(s: seq<byte>, width: nat): Option<(Value, seq<byte>)> {
    if |s| < width then None else Some((Uint(BigEndian(s[..width])), s[width..]))
  }

  function UnpackValue(s: seq<byte>): (r: Option<(Value, seq<byte>)>)
    ensures r.Some? ==> |r.value.1| < |s|
  {
    if s == [] then None
    else if s[0] < 0x80 then Some((Uint(s[0]), s[1..]))
    else if s[0] == 0xcc then UnpackWide(s[1..], 1)
    else if s[0] == 0xcd then UnpackWide(s[1..], 2)
    else if s[0] == 0xce then UnpackWide(s[1..], 4)
    else if s[0] == 0xcf then UnpackWide(s[1..], 8)
    else if s[0] == 0xc0 || s[0] == 0xc2 || s[0] == 0xc3 || s[0] >= 0xe0 then Some((Other, s[1..]))
    else None
  }

  function UnpackKey(s: seq<byte>): (r: Option<(seq<byte>, seq<byte>)>)
    ensures r.Some? ==> 1 <= |r.value.0| && |r.value.1| < |s|
  {
    if s == [] || s[0] <= 0xa0 || s[0] > 0xbf then None
    else
      var len := s[0] as int - 0xa0;
      if |s| < 1 + len then None else Some((s[1..1 + len], s[1 + len..]))
  }

  function UnpackFields(s: seq<byte>, count: nat): (r: Option<(seq<Field>, seq<byte>)>)
    ensures r.Some? ==> |r.value.0| == count && (forall f <- r.value.0 :: f.key != [])
    decreases count
  {
    if count == 0 then Some(([], s))
    else
      match UnpackKey(s)
      case None => None
      case Some((key, s1)) =>
        match UnpackValue(s1)
        case None => None
        case Some((val, s2)) =>
          match UnpackFields(s2, count - 1)
          case None => None
          case Some((fields, rest)) => Some(([Field(key, val)] + fields, rest))
  }

  /** One map off the front of a buffer; bytes after it are left alone. */
  function UnpackMap(s: seq<byte>): (r: Option<(seq<Field>, seq<byte>)>)
    ensures r.Some? ==> forall f <- r.value.0 :: f.key != []
  {
    if s == [] || s[0] < 0x80 || s[0] > 0x8f then None
    else UnpackFields(s[1..], s[0] as int - 0x80)
  }

  lemma UnpackFieldsStep(s: seq<byte>, count: nat)
    requires count > 0
    requires UnpackKey(s).Some? && UnpackValue(UnpackKey(s).value.1).Some?
    ensures var (key, s1) := UnpackKey(s).value;
            var (val, s2) := UnpackValue(s1).value;
            UnpackFields(s2, count - 1).Some? ==>
              UnpackFields(s, count) == Some(([Field(key, val)] + UnpackFields(s2, count - 1).value.0,
                                              UnpackFields(s2, count - 1).value.1))
  {
  }

  lemma UnpackPackedUint(n: uint16, rest: seq<byte>)
    ensures UnpackValue(PackUint(n) + rest) == Some((Uint(n), rest))
  {
    var s := PackUint(n) + rest;
    if n < 0x80 {
      assert s[1..] == rest;
    } else if n < 0x100 {
      assert s[1..] == [n] + rest;
      assert ([n] + rest)[..1] == [n] && ([n] + rest)[1..] == rest;
      assert BigEndian([n]) == 256 * BigEndian([n][..0]) + n;
    } else {
      var b := U16Bytes(n);
      assert s[1..] == b + rest;
      assert (b + rest)[..2] == b && (b + rest)[2..] == rest;
      assert b[..1] == [b[0]] && [b[0]][..0] == [];
      assert BigEndian([b[0]]) == b[0];
      assert BigEndian(b) == 256 * BigEndian(b[..1]) + b[1];
    }
  }

  lemma UnpackPackedKey(c: byte, rest: seq<byte>)
    ensures UnpackKey(PackKey(c) + rest) == Some(([c], rest))
  {
    var s := PackKey(c) + rest;
    assert s[1..2] == [c] && s[2..] == rest;
  }
}
