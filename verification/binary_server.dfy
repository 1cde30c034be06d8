/** The server side of the binary protocol: the packet loop of one connection and
    the list of live connections. */
module BinaryServer {
  import opened Wire
  import opened MsgPack
  import opened PlayerCodec
  import opened ServerParse

  /** The raw branch: six bytes decoded, mutated and written back behind a length header. */
  method RawReply(payload: seq<byte>) returns (out: seq<byte>)
    requires |payload| == 6 && payload[0] == PKT_RAW
    ensures Respond(payload).Some? && out == Frame(Respond(payload).value)
  {
    var x: int, y: int, hp: int := U16At(payload, 1), U16At(payload, 3), payload[5];
    x := (x + 1) % 0x1_0000;
    y := (y + 1) % 0x1_0000;
    hp := if hp == 0 then 0 else hp - 1;
    out := [0, 6] + ([PKT_RAW] + U16Bytes(x) + U16Bytes(y) + [hp]);
  }

  /** The loop over the entries of a decoded map. */
  method ReadFields(fields: seq<Field>) returns (p: Player)
    requires forall f <- fields :: f.key != []
    ensures p == ApplyFields(fields)
  {
    var x: uint16, y: uint16, hp: byte := 0, 0, 0;
    for i := 0 to |fields|
      invariant Player(x, y, hp) == ApplyFields(fields[..i])
    {
      assert fields[..i + 1][..i] == fields[..i];
      var f := fields[i];
      if f.key[0] == KEY_X && f.val.Uint? {
        x := f.val.n % 0x1_0000;
      } else if f.key[0] == KEY_Y && f.val.Uint? {
        y := f.val.n % 0x1_0000;
      } else if f.key[0] == KEY_H && f.val.Uint? {
        hp := f.val.n % 0x100;
      }
    }
    assert fields[..|fields|] == fields;
    p := Player(x, y, hp);
  }

  /** The MessagePack branch; `ok` is false when the connection has to be dropped. */
  method MsgPackReply(payload: seq<byte>) returns (ok: bool, out: seq<byte>)
    requires payload != [] && payload[0] == PKT_MSGPACK
    ensures ok <==> Respond(payload).Some?
    ensures ok ==> out == Frame(Respond(payload).value)
  {
    out := [];
    RespondMsgPack(payload);
    var msg := UnpackMap(payload[1..]);
    ok := msg.Some? && |msg.value.0| == 3;
    if ok {
      var p := ReadFields(msg.value.0);
      out := MsgPackFrame(Mutate(p));
    }
  }

  method MsgPackFrame(p: Player) returns (out: seq<byte>)
    ensures out == Frame([PKT_MSGPACK] + PackPlayer(p))
  {
    var packed := PackPlayer(p);
    var size := |packed| + 1;
    out := [size / 256 % 256, size % 256] + ([PKT_MSGPACK] + packed);
  }

  /** Decode, mutate, encode: dispatch on the type tag. */
  method Reply(payload: seq<byte>) returns (ok: bool, out: seq<byte>)
    requires payload != []
    ensures ok <==> Respond(payload).Some?
    ensures ok ==> out == Frame(Respond(payload).value)
  {
    ok, out := false, [];
    if payload[0] == PKT_RAW {
      if |payload| == 6 {
        out := RawReply(payload);
        ok := true;
      }
    } else if payload[0] == PKT_MSGPACK {
      ok, out := MsgPackReply(payload);
    }
  }

  class Connection {
    const fd: int
    var active: bool
    var input: seq<byte>     // received, not yet consumed
    var pending: seq<byte>   // written, not yet flushed
    var sent: seq<byte>      // flushed
    ghost var received: seq<byte>

    constructor (fd: int)
      ensures this.fd == fd && Settled() && received == sent == []
    {
      this.fd := fd;
      active := true;
      input, pending, sent, received := [], [], [], [];
      assert Parse([]) == Parsed([], Live([]));
    }

    /** Between events: everything received so far has been answered and flushed
        exactly as the whole-stream parse prescribes, and the rest is kept. */
    ghost predicate Settled()
      reads this
    {
      active && pending == [] && Parse(received) == Parsed(sent, Live(input))
    }
  }

  datatype Event = Read(chunk: seq<byte>) | Close

  /** A connection waiting to be accepted: its descriptor, and whether a list node can be had. */
  datatype Arrival = Arrival(fd: int, haveNode: bool)

  const ACCEPTS: nat := 32   // per call of the listener

  /** The arrivals one call of the listener takes. */
  function Batch(backlog: seq<Arrival>): (r: seq<Arrival>)
    ensures r <= backlog && |r| == if |backlog| < 32 then |backlog| else 32
  {
    backlog[..if |backlog| < ACCEPTS then |backlog| else ACCEPTS]
  }

  function AcceptedFds(arrivals: seq<Arrival>): multiset<int> {
    if arrivals == [] then multiset{}
    else AcceptedFds(arrivals[..|arrivals| - 1]) + multiset{arrivals[|arrivals| - 1].fd}
  }

  /** The descriptors that are closed at once. */
  function RefusedFds(arrivals: seq<Arrival>): multiset<int> {
    if arrivals == [] then multiset{}
    else
      var last := arrivals[|arrivals| - 1];
      RefusedFds(arrivals[..|arrivals| - 1]) + if last.haveNode then multiset{} else multiset{last.fd}
  }

  /** What there is to know of a connection ever opened. */
  datatype Life = Life(fd: int, received: seq<byte>, sent: seq<byte>, active: bool)

  /** The connections the arrivals become, in order. */
  function OpenedLives(arrivals: seq<Arrival>): seq<Life> {
    if arrivals == [] then []
    else
      var last := arrivals[|arrivals| - 1];
      OpenedLives(arrivals[..|arrivals| - 1]) + if last.haveNode then [Life(last.fd, [], [], true)] else []
  }

  /** `accepted` and `closed` after n arrivals. */
  ghost predicate Accepting(arrivals: seq<Arrival>, n: nat, accepted0: multiset<int>, closed0: multiset<int>,
                            accepted: multiset<int>, closed: multiset<int>) {
    n <= |arrivals| && accepted == accepted0 + AcceptedFds(arrivals[..n])
        && closed == closed0 + RefusedFds(arrivals[..n])
  }

  lemma AcceptingNext(arrivals: seq<Arrival>, n: nat, accepted0: multiset<int>, closed0: multiset<int>,
                      accepted: multiset<int>, closed: multiset<int>)
    requires n < |arrivals| && Accepting(arrivals, n, accepted0, closed0, accepted, closed)
    ensures var a := arrivals[n];
            && Accepting(arrivals, n + 1, accepted0, closed0, accepted + multiset{a.fd},
                         if a.haveNode then closed else closed + multiset{a.fd})
            && OpenedLives(arrivals[..n + 1]) == OpenedLives(arrivals[..n]) + if a.haveNode
                then [Life(a.fd, [], [], true)] else []
  {
    assert arrivals[..n + 1][..n] == arrivals[..n];
  }

  /** The accept loop has ended. */
  lemma AcceptingDone(backlog: seq<Arrival>, n: nat, accepted0: multiset<int>, closed0: multiset<int>,
                      accepted: multiset<int>, closed: multiset<int>)
    requires n <= ACCEPTS && (n == ACCEPTS || n == |backlog|)
            && Accepting(backlog, n, accepted0, closed0, accepted, closed)
    ensures backlog == Batch(backlog) + backlog[n..] && Batch(backlog) == backlog[..n]
    ensures accepted == accepted0 + AcceptedFds(Batch(backlog)) && closed == closed0 + RefusedFds(Batch(backlog))
  {
    assert Batch(backlog) == backlog[..n];
  }

  lemma AcceptingNone(backlog: seq<Arrival>, accepted: multiset<int>, closed: multiset<int>)
    ensures Accepting(backlog, 0, accepted, closed, accepted, closed) && OpenedLives(backlog[..0]) == []
  {
  }

  ghost function LifeOf(c: Connection): Life
    reads c
  {
    Life(c.fd, c.received, c.sent, c.active)
  }

  ghost predicate Shows(cs: seq<Connection>, lives: seq<Life>)
    reads cs
  {
    && |lives| == |cs|
    && forall i :: 0 <= i < |cs| ==> lives[i] == LifeOf(cs[i])
  }

  ghost function Fds(cs: seq<Connection>): multiset<int> {
    if cs == [] then multiset{} else multiset{cs[0].fd} + Fds(cs[1..])
  }

  function Erase(cs: seq<Connection>, c: Connection): seq<Connection> {
    if cs == [] then [] else if cs[0] == c then cs[1..] else [cs[0]] + Erase(cs[1..], c)
  }

  ghost predicate NoDuplicates(cs: seq<Connection>) {
    forall i, j :: 0 <= i < j < |cs| ==> cs[i] != cs[j]
  }

  lemma {:induction false} EraseElements(cs: seq<Connection>, c: Connection)
    requires c in cs && NoDuplicates(cs)
    ensures NoDuplicates(Erase(cs, c))
    ensures forall i :: 0 <= i < |Erase(cs, c)| ==> Erase(cs, c)[i] in cs && Erase(cs, c)[i] != c
  {
    assert cs == [cs[0]] + cs[1..];
    if cs[0] != c {
      EraseElements(cs[1..], c);
    }
  }

  lemma {:induction false} EraseKeepsTheOthers(cs: seq<Connection>, c: Connection, d: Connection)
    requires d in cs && d != c
    ensures d in Erase(cs, c)
  {
    if cs[0] != c && cs[0] != d {
      EraseKeepsTheOthers(cs[1..], c, d);
    }
  }

  lemma {:induction false} EraseFds(cs: seq<Connection>, c: Connection)
    requires c in cs
    ensures Fds(cs) == Fds(Erase(cs, c)) + multiset{c.fd}
  {
    if cs[0] != c {
      assert cs == [cs[0]] + cs[1..];
      EraseFds(cs[1..], c);
      assert Erase(cs, c)[1..] == Erase(cs[1..], c);
    }
  }

  lemma {:induction false} FdsAppend(cs: seq<Connection>, c: Connection)
    ensures Fds(cs + [c]) == Fds(cs) + multiset{c.fd}
  {
    if cs == [] {
      assert [] + [c] == [c] && [c][1..] == [];
    } else {
      assert (cs + [c])[1..] == cs[1..] + [c];
      FdsAppend(cs[1..], c);
    }
  }

  lemma FdsFirst(cs: seq<Connection>)
    requires cs != []
    ensures Fds(cs) == multiset{cs[0].fd} + Fds(cs[1..])
  {
  }

  lemma NoDuplicatesAppend(cs: seq<Connection>, c: Connection)
    requires NoDuplicates(cs) && c !in cs
    ensures NoDuplicates(cs + [c])
  {
  }

  class Server {
    var connections: seq<Connection>
    var isOpen: bool
    ghost var accepted: multiset<int>  // every descriptor ever returned by accept
    ghost var closed: multiset<int>    // every descriptor ever closed

    /** The list holds exactly the live connections; descriptors are neither leaked nor closed twice. */
    ghost predicate Valid()
      reads this, connections
    {
      && NoDuplicates(connections)
      && (forall c <- connections :: c.Settled())
      && accepted == closed + Fds(connections)
      && (!isOpen ==> connections == [])
    }

    ghost predicate Listening()
      reads this, connections
    {
      isOpen && Valid()
    }

    constructor ()
      ensures Valid() && connections == [] && !isOpen && accepted == closed == multiset{}
    {
      connections, isOpen := [], false;
      accepted, closed := multiset{}, multiset{};
    }

    method Open()
      requires Valid()
      modifies this`isOpen
      ensures Valid() && isOpen
    {
      isOpen := true;
    }

    /** `haveNode` is false when the list node cannot be allocated. */
    method ConnOpen(fd: int, haveNode: bool) returns (added: seq<Connection>)
      requires Listening()
      modifies this`connections, this`accepted, this`closed
      ensures Listening() && accepted == old(accepted) + multiset{fd}
      ensures connections == old(connections) + added && fresh(added)
      ensures closed == if haveNode then old(closed) else old(closed) + multiset{fd}
      ensures Shows(added, if haveNode then [Life(fd, [], [], true)] else [])
    {
      accepted, added := accepted + multiset{fd}, [];
      if !haveNode {
        closed := closed + multiset{fd};
        return;
      }
      var conn := new Connection(fd);
      connections, added := connections + [conn], [conn];
      StillValidOpened(conn);
    }

    /** A new connection at the end of the list disturbs nothing. */
    twostate lemma StillValidOpened(new conn: Connection)
      requires old(Valid()) && conn !in old(connections) && conn.Settled()
      requires forall c <- old(connections) :: unchanged(c)
      requires connections == old(connections) + [conn] && isOpen && accepted == old(accepted) + multiset{conn.fd}
      requires closed == old(closed)
      ensures Valid()
    {
      NoDuplicatesAppend(old(connections), conn);
      FdsAppend(old(connections), conn);
      forall i | 0 <= i < |connections| ensures connections[i].Settled() {
        var c := connections[i];
        assert c != conn ==> c in old(connections) && old(c.Settled());
      }
    }

    method ConnClose(conn: Connection)
      requires NoDuplicates(connections) && (conn.active ==> conn in connections)
      modifies this`connections, this`closed, conn`active
      ensures !conn.active
      ensures old(conn.active) ==>
                connections == old(Erase(connections, conn)) && closed == old(closed) + multiset{conn.fd}
      ensures !old(conn.active) ==> connections == old(connections) && closed == old(closed)
    {
      if !conn.active {
        return;
      }
      conn.active := false;
      closed := closed + multiset{conn.fd};
      connections := Erase(connections, conn);
    }

    /** One turn of the accept loop. */
    method AcceptNext(backlog: seq<Arrival>, n: nat, ghost accepted0: multiset<int>, ghost closed0: multiset<int>,
                      ghost start: seq<Connection>, ghost added: seq<Connection>) returns (more: seq<Connection>)
      requires Listening() && n < |backlog| && connections == start + added
      requires Accepting(backlog, n, accepted0, closed0, accepted, closed) && Shows(added, OpenedLives(backlog[..n]))
      modifies this`connections, this`accepted, this`closed
      ensures Listening() && connections == start + (added + more) && fresh(more)
      ensures Accepting(backlog, n + 1, accepted0, closed0, accepted, closed)
              && Shows(added + more, OpenedLives(backlog[..n + 1]))
    {
      AcceptingNext(backlog, n, accepted0, closed0, accepted, closed);
      more := ConnOpen(backlog[n].fd, backlog[n].haveNode);
      Associative(start, added, more);
    }

    /** Accepts at most 32 of the waiting connections, in order; the others stay in the backlog. */
    method ListenerCallback(backlog: seq<Arrival>) returns (rest: seq<Arrival>, added: seq<Connection>)
      requires Valid() && isOpen
      modifies this`connections, this`accepted, this`closed
      ensures Valid() && backlog == Batch(backlog) + rest
      ensures connections == old(connections) + added && fresh(added)
      ensures accepted == old(accepted) + AcceptedFds(Batch(backlog))
      ensures closed == old(closed) + RefusedFds(Batch(backlog))
      ensures Shows(added, OpenedLives(Batch(backlog)))
    {
      var n := 0;
      added := [];
      ghost var accepted0, closed0 := accepted, closed;
      AcceptingNone(backlog, accepted, closed);
      while n < ACCEPTS && n < |backlog|
        invariant n <= ACCEPTS && Listening()
        invariant connections == old(connections) + added && fresh(added)
        invariant Accepting(backlog, n, accepted0, closed0, accepted, closed) && Shows(added, OpenedLives(backlog[..n]))
      {
        var more := AcceptNext(backlog, n, accepted0, closed0, old(connections), added);
        added := added + more;
        n := n + 1;
      }
      AcceptingDone(backlog, n, accepted0, closed0, accepted, closed);
      rest := backlog[n..];
    }

    /** One turn of the packet loop; `again` asks for another one. */
    method ConnPacket(conn: Connection) returns (again: bool)
      requires NoDuplicates(connections) && conn in connections && conn.active && conn.pending == []
      modifies this`connections, this`closed, conn`active, conn`input, conn`pending, conn`sent
      ensures conn.pending == []
      ensures again ==> conn.active && |conn.input| < |old(conn.input)| && old(conn.sent) <= conn.sent
                        && Parse(old(conn.input)) == Prepend(conn.sent[|old(conn.sent)|..], Parse(conn.input))
      ensures !again ==> conn.sent == old(conn.sent) && conn.input == old(conn.input)
                         && Parse(conn.input) == Parsed([], if conn.active then Live(conn.input) else Closed)
      ensures if conn.active then connections == old(connections) && closed == old(closed)
              else connections == old(Erase(connections, conn)) && closed == old(closed) + multiset{conn.fd}
    {
      again := false;
      var d := conn.input;
      ParseCases(d);
      if |d| < 2 {
        return;
      }
      var len := U16At(d, 0);
      if len < 1 || len > MAX_PAYLOAD {
        ConnClose(conn);
        return;
      }
      if |d| < 2 + len {
        return;
      }
      var ok, out := Reply(d[2..2 + len]);
      if !ok {
        ConnClose(conn);
        return;
      }
      conn.pending := conn.pending + out;
      conn.sent, conn.pending := conn.sent + conn.pending, [];
      conn.input := d[2 + len..];
      again := true;
      assert conn.sent[|old(conn.sent)|..] == out;
    }

    /** The packet loop: replies, consumes or closes exactly as `Parse` says. */
    method ConnProcess(conn: Connection)
      requires NoDuplicates(connections) && conn in connections && conn.active && conn.pending == []
      modifies this`connections, this`closed, conn`active, conn`input, conn`pending, conn`sent
      ensures conn.pending == []
      ensures Prepend(old(conn.sent), Parse(old(conn.input)))
              == Parsed(conn.sent, if conn.active then Live(conn.input) else Closed)
      ensures if conn.active then connections == old(connections) && closed == old(closed)
              else connections == old(Erase(connections, conn)) && closed == old(closed) + multiset{conn.fd}
    {
      ghost var whole := Prepend(conn.sent, Parse(conn.input));
      var again := true;
      while again
        invariant conn.pending == []
        invariant again ==> conn.active
        invariant whole == Prepend(conn.sent, Parse(conn.input))
        invariant !again ==> Parse(conn.input) == Parsed([], if conn.active then Live(conn.input) else Closed)
        invariant if conn.active then connections == old(connections) && closed == old(closed)
                  else connections == old(Erase(connections, conn)) && closed == old(closed) + multiset{conn.fd}
        decreases again, |conn.input|
      {
        ghost var before := conn.sent;
        again := ConnPacket(conn);
        if again {
          PrependTwice(before, conn.sent[|before|..], Parse(conn.input));
          assert conn.sent == before + conn.sent[|before|..];
        }
      }
    }

    /** After handling one connection the others are untouched and the list is in order. */
    twostate lemma StillValid(conn: Connection)
      requires old(Valid()) && conn in old(connections)
      requires forall c <- old(connections) :: c != conn ==> unchanged(c)
      requires conn.active ==> conn.Settled()
      requires connections == if conn.active then old(connections) else old(Erase(connections, conn))
      requires closed == if conn.active then old(closed) else old(closed) + multiset{conn.fd}
      requires isOpen == old(isOpen) && accepted == old(accepted)
      ensures Valid()
    {
      EraseElements(old(connections), conn);
      EraseFds(old(connections), conn);
      forall i | 0 <= i < |connections| ensures connections[i].Settled() {
        var c := connections[i];
        assert c in old(connections);
        assert c != conn ==> old(c.Settled());
      }
    }

    /** One reactor event for a live connection. */
    method ConnCallback(conn: Connection, event: Event)
      requires Valid() && conn in connections
      modifies this`connections, this`closed, conn
      ensures Valid()
      ensures conn.received == old(conn.received) + (if event.Read? then event.chunk else [])
      ensures event.Read? ==>
                Parse(conn.received) == Parsed(conn.sent, if conn.active then Live(conn.input) else Closed)
      ensures event.Close? ==> !conn.active && conn.sent == old(conn.sent)
      ensures connections == if conn.active then old(connections) else old(Erase(connections, conn))
      ensures closed == if conn.active then old(closed) else old(closed) + multiset{conn.fd}
    {
      assert conn.Settled();
      match event {
        case Read(chunk) =>
          ParseAppend(conn.received, chunk);
          conn.input := conn.input + chunk;
          conn.received := conn.received + chunk;
          ConnProcess(conn);
        case Close =>
          ConnClose(conn);
          assert conn.received + [] == conn.received;
      }
      StillValid(conn);
    }

    /** Stops listening and closes every live connection. */
    method Shutdown()
      requires Valid()
      modifies this, connections`active
      ensures Valid() && connections == [] && !isOpen && accepted == old(accepted)
      ensures closed == accepted
      ensures forall c <- old(connections) :: !c.active
    {
      if !isOpen {
        return;
      }
      isOpen := false;
      ghost var all, n := connections, 0;
      while connections != []
        invariant n <= |all| && connections == all[n..] && !isOpen && accepted == old(accepted)
        invariant forall i :: 0 <= i < n ==> !all[i].active
        invariant accepted == closed + Fds(connections)
        decreases |connections|
      {
        FdsFirst(connections);
        connections[0].active := false;
        closed := closed + multiset{connections[0].fd};
        connections, n := connections[1..], n + 1;
      }
    }
  }
}
