/** Byte buffers that are filled from the front, and C strings. */
module Memory {
  /** `mem` is `start` with its front overwritten by `sofar`. */
  ghost predicate Stored<T>(start: seq<T>, mem: seq<T>, sofar: seq<T>) {
    |sofar| <= |start| && mem == sofar + start[|sofar|..]
  }

  lemma StoreNext<T>(start: seq<T>, mem: seq<T>, sofar: seq<T>, data: seq<T>)
    requires Stored(start, mem, sofar) && |sofar| + |data| <= |start|
    ensures Stored(start, mem[..|sofar|] + data + mem[|sofar| + |data|..], sofar + data)
  {
  }

  lemma StoredTail<T>(start: seq<T>, mem: seq<T>, sofar: seq<T>, size: nat)
    requires Stored(start, mem, sofar) && |sofar| <= size <= |start|
    ensures mem[size..] == start[size..]
  {
  }

  /** `memcpy(buf + at, data, |data|)`. */
  method Store<T>(buf: array<T>, at: nat, data: seq<T>)
    requires at + |data| <= buf.Length
    modifies buf
    ensures buf[..] == old(buf[..at]) + data + old(buf[at + |data|..])
  {
    for i := 0 to |data|
      invariant forall j :: 0 <= j < buf.Length ==> buf[j] == if at <= j < at + i then data[j - at] else old(buf[j])
    {
      buf[at + i] := data[i];
    }
  }

  /** Puts the next piece behind what is already there. */
  method Append<T>(buf: array<T>, at: nat, data: seq<T>, ghost start: seq<T>, ghost sofar: seq<T>) returns (next: nat)
    requires at == |sofar| && |start| == buf.Length && Stored(start, buf[..], sofar)
    requires at + |data| <= buf.Length
    modifies buf
    ensures next == at + |data| && Stored(start, buf[..], sofar + data)
  {
    ghost var mem := buf[..];
    Store(buf, at, data);
    StoreNext(start, mem, sofar, data);
    next := at + |data|;
  }

  /** The characters before the first NUL, as `strlen` and `%s` see them. */
  function CString(s: string): string {
    if s == [] || s[0] == '\0' then [] else [s[0]] + CString(s[1..])
  }

  lemma {:induction false} CStringOf(text: string, rest: string)
    requires '\0' !in text
    ensures CString(text + ['\0'] + rest) == text
  {
    if text == [] {
      assert (text + ['\0'] + rest)[0] == '\0';
    } else {
      assert text[0] in text && forall c <- text[1..] :: c in text;
      assert (text + ['\0'] + rest)[1..] == text[1..] + ['\0'] + rest;
      CStringOf(text[1..], rest);
    }
  }
}
