/** Every run of the server: what a script of events makes of it, as a fold over the script and
    as the objects that go through it. */
module ServerRuns {
  import opened Wire
  import opened ServerParse
  import opened BinaryServer

  /** What the reactor delivers: a ready listener, an event for the id-th connection ever opened,
      or the end of the program. */
  datatype Happening = Ready(backlog: seq<Arrival>) | Deliver(id: nat, event: Event) | Stop

  /** Every connection ever opened, in order, and what became of the descriptors. */
  datatype History = History(lives: seq<Life>, isOpen: bool, accepted: multiset<int>, closed: multiset<int>)

  function LiveFds(lives: seq<Life>): multiset<int> {
    if lives == [] then multiset{}
    else
      var last := lives[|lives| - 1];
      LiveFds(lives[..|lives| - 1]) + if last.active then multiset{last.fd} else multiset{}
  }

  function Ended(lives: seq<Life>): seq<Life> {
    seq(|lives|, i requires 0 <= i < |lives| => lives[i].(active := false))
  }

  /** A connection that gets an event: it lives on while what it received is answerable. */
  function AfterEvent(l: Life, event: Event): Life {
    match event
    case Read(chunk) =>
      var received := l.received + chunk;
      Life(l.fd, received, Parse(received).replies, Parse(received).outcome.Live?)
    case Close => l.(active := false)
  }

  function Next(h: History, e: Happening): History {
    match e
    case Ready(backlog) =>
      if !h.isOpen then h
      else h.(lives := h.lives + OpenedLives(Batch(backlog)),
              accepted := h.accepted + AcceptedFds(Batch(backlog)),
              closed := h.closed + RefusedFds(Batch(backlog)))
    case Deliver(id, event) =>
      if id >= |h.lives| || !h.lives[id].active then h
      else
        var l := AfterEvent(h.lives[id], event);
        h.(lives := h.lives[id := l], closed := if l.active then h.closed else h.closed + multiset{l.fd})
    case Stop =>
      if !h.isOpen then h else History(Ended(h.lives), false, h.accepted, h.closed + LiveFds(h.lives))
  }

  /** What a script makes of a server that has just been opened. */
  function Fold(script: seq<Happening>): History {
    if script == [] then History([], true, multiset{}, multiset{})
    else Next(Fold(script[..|script| - 1]), script[|script| - 1])
  }

  // ----- what the fold means -----

  predicate Stopped(script: seq<Happening>) {
    exists e <- script :: e.Stop?
  }

  /** The arrivals an open server takes over the whole script. */
  function Arrivals(script: seq<Happening>): seq<Arrival> {
    if script == [] then []
    else
      var init, last := script[..|script| - 1], script[|script| - 1];
      Arrivals(init) + if last.Ready? && !Stopped(init) then Batch(last.backlog) else []
  }

  /** The chunks delivered to connection `id`, in order. */
  function ChunksTo(script: seq<Happening>, id: nat): seq<seq<byte>> {
    if script == [] then []
    else
      var last := script[|script| - 1];
      ChunksTo(script[..|script| - 1], id)
      + if last.Deliver? && last.id == id && last.event.Read? then [last.event.chunk] else []
  }

  predicate ClosedByPeer(script: seq<Happening>, id: nat) {
    Deliver(id, Close) in script
  }

  /** The reactor delivers events to live connections only. */
  predicate OnlyToLive(script: seq<Happening>) {
    script == [] ||
    var init, last := script[..|script| - 1], script[|script| - 1];
    OnlyToLive(init) && (last.Deliver? ==> last.id < |Fold(init).lives| && Fold(init).lives[last.id].active)
  }

  lemma ArrivalsPush(a: seq<Arrival>, x: Arrival)
    ensures AcceptedFds(a + [x]) == AcceptedFds(a) + multiset{x.fd}
    ensures RefusedFds(a + [x]) == RefusedFds(a) + if x.haveNode then multiset{} else multiset{x.fd}
    ensures OpenedLives(a + [x]) == OpenedLives(a) + if x.haveNode then [Life(x.fd, [], [], true)] else []
  {
    assert (a + [x])[..|a|] == a;
  }

  lemma LastApart<T>(a: seq<T>, b: seq<T>)
    requires b != []
    ensures b == b[..|b| - 1] + [b[|b| - 1]]
    ensures a + b == a + b[..|b| - 1] + [b[|b| - 1]]
  {
  }

  lemma {:induction false} AcceptedConcat(a: seq<Arrival>, b: seq<Arrival>)
    ensures AcceptedFds(a + b) == AcceptedFds(a) + AcceptedFds(b)
  {
    if b == [] {
      assert a + b == a;
    } else {
      var init, x := b[..|b| - 1], b[|b| - 1];
      AcceptedConcat(a, init);
      LastApart(a, b);
      ArrivalsPush(a + init, x);
      ArrivalsPush(init, x);
      MultisetsAssociate(AcceptedFds(a), AcceptedFds(init), multiset{x.fd});
    }
  }

  lemma MultisetsAssociate(a: multiset<int>, b: multiset<int>, c: multiset<int>)
    ensures (a + b) + c == a + (b + c)
  {
  }

  lemma {:induction false} OpenedConcat(a: seq<Arrival>, b: seq<Arrival>)
    ensures OpenedLives(a + b) == OpenedLives(a) + OpenedLives(b)
  {
    if b == [] {
      assert a + b == a;
    } else {
      var init, x := b[..|b| - 1], b[|b| - 1];
      OpenedConcat(a, init);
      LastApart(a, b);
      ArrivalsPush(a + init, x);
      Associative(OpenedLives(a), OpenedLives(init), if x.haveNode then [Life(x.fd, [], [], true)] else []);
    }
  }

  lemma {:induction false} LiveFdsConcat(a: seq<Life>, b: seq<Life>)
    ensures LiveFds(a + b) == LiveFds(a) + LiveFds(b)
  {
    if b == [] {
      assert a + b == a;
    } else {
      assert (a + b)[..|a + b| - 1] == a + b[..|b| - 1];
      LiveFdsConcat(a, b[..|b| - 1]);
    }
  }

  lemma {:induction false} LiveFdsUpdate(lives: seq<Life>, i: nat, l: Life)
    requires i < |lives| && lives[i].active && l.fd == lives[i].fd
    ensures LiveFds(lives) == LiveFds(lives[i := l]) + if l.active then multiset{} else multiset{l.fd}
  {
    var n := |lives| - 1;
    if i < n {
      assert lives[i := l][..n] == lives[..n][i := l];
      LiveFdsUpdate(lives[..n], i, l);
    } else {
      assert lives[i := l][..n] == lives[..n];
    }
  }

  lemma {:induction false} LiveFdsEnded(lives: seq<Life>)
    ensures LiveFds(Ended(lives)) == multiset{}
  {
    if lives != [] {
      assert Ended(lives)[..|lives| - 1] == Ended(lives[..|lives| - 1]);
      LiveFdsEnded(lives[..|lives| - 1]);
    }
  }

  lemma LiveFdsPush(lives: seq<Life>, l: Life)
    ensures LiveFds(lives + [l]) == LiveFds(lives) + if l.active then multiset{l.fd} else multiset{}
  {
    assert (lives + [l])[..|lives|] == lives;
  }

  lemma {:induction false} OpenedLivesFds(arrivals: seq<Arrival>)
    ensures AcceptedFds(arrivals) == RefusedFds(arrivals) + LiveFds(OpenedLives(arrivals))
    ensures forall l <- OpenedLives(arrivals) :: l.active && l.received == l.sent == []
  {
    if arrivals != [] {
      var init, x := arrivals[..|arrivals| - 1], arrivals[|arrivals| - 1];
      assert arrivals == init + [x];
      OpenedLivesFds(init);
      ArrivalsPush(init, x);
      if x.haveNode {
        LiveFdsPush(OpenedLives(init), Life(x.fd, [], [], true));
      } else {
        assert OpenedLives(init) + [] == OpenedLives(init);
      }
    }
  }

  ghost predicate Balanced(h: History) {
    h.accepted == h.closed + LiveFds(h.lives) && (!h.isOpen ==> forall l <- h.lives :: !l.active)
  }

  lemma ReadyBalanced(h: History, backlog: seq<Arrival>)
    requires Balanced(h) && h.isOpen
    ensures Balanced(Next(h, Ready(backlog)))
  {
    OpenedLivesFds(Batch(backlog));
    LiveFdsConcat(h.lives, OpenedLives(Batch(backlog)));
  }

  lemma DeliverBalanced(h: History, id: nat, event: Event)
    requires Balanced(h) && id < |h.lives| && h.lives[id].active
    ensures Balanced(Next(h, Deliver(id, event)))
  {
    assert h.lives[id] in h.lives;
    LiveFdsUpdate(h.lives, id, AfterEvent(h.lives[id], event));
  }

  lemma StopBalanced(h: History)
    requires Balanced(h) && h.isOpen
    ensures Balanced(Next(h, Stop))
  {
    LiveFdsEnded(h.lives);
  }

  lemma NextBalanced(h: History, e: Happening)
    requires Balanced(h)
    ensures Balanced(Next(h, e))
  {
    match e
    case Ready(backlog) =>
      if h.isOpen {
        ReadyBalanced(h, backlog);
      }
    case Deliver(id, event) =>
      if id < |h.lives| && h.lives[id].active {
        DeliverBalanced(h, id, event);
      }
    case Stop =>
      if h.isOpen {
        StopBalanced(h);
      }
  }

  lemma FoldNext(script: seq<Happening>, e: Happening)
    ensures Fold(script + [e]) == Next(Fold(script), e)
    ensures Stopped(script + [e]) <==> Stopped(script) || e.Stop?
  {
    assert (script + [e])[..|script|] == script;
    assert forall x :: x in script + [e] <==> x in script || x == e;
    assert e in script + [e];
  }

  lemma OpenNext(h: History, e: Happening)
    ensures Next(h, e).isOpen == (h.isOpen && !e.Stop?)
  {
  }

  lemma {:induction false} OpenUntilStopped(script: seq<Happening>)
    ensures Fold(script).isOpen == !Stopped(script)
  {
    if script != [] {
      var init, last := script[..|script| - 1], script[|script| - 1];
      assert script == init + [last];
      OpenUntilStopped(init);
      FoldNext(init, last);
      OpenNext(Fold(init), last);
    }
  }

  lemma {:induction false} FoldBalanced(script: seq<Happening>)
    ensures Balanced(Fold(script))
  {
    if script != [] {
      var init, last := script[..|script| - 1], script[|script| - 1];
      assert script == init + [last];
      FoldBalanced(init);
      FoldNext(init, last);
      NextBalanced(Fold(init), last);
    }
  }

  lemma ReadyNext(h: History, backlog: seq<Arrival>, r: History)
    requires Balanced(h) && h.isOpen && r.isOpen && r.lives == h.lives + OpenedLives(Batch(backlog))
    requires r.accepted == h.accepted + AcceptedFds(Batch(backlog)) && r.closed == h.closed + RefusedFds(Batch(backlog))
    ensures r == Next(h, Ready(backlog)) && Balanced(r)
  {
    ReadyBalanced(h, backlog);
  }

  lemma StopNext(h: History, r: History)
    requires Balanced(h) && h.isOpen && !r.isOpen && r.lives == Ended(h.lives) && r.accepted == h.accepted == r.closed
    ensures r == Next(h, Stop) && Balanced(r)
  {
    StopBalanced(h);
  }

  lemma DeliverNext(h: History, id: nat, event: Event, r: History)
    requires Balanced(h) && id < |h.lives| && h.lives[id].active && r.isOpen == h.isOpen && r.accepted == h.accepted
    requires var l := AfterEvent(h.lives[id], event);
             r.lives == h.lives[id := l] && r.closed == h.closed + if l.active then multiset{}
                 else multiset{h.lives[id].fd}
    ensures r == Next(h, Deliver(id, event)) && Balanced(r)
  {
    DeliverBalanced(h, id, event);
  }

  /** Over every run, accepted = closed + live: no descriptor is leaked or closed twice, and a
      stopped server has closed them all. */
  lemma DescriptorsBalance(script: seq<Happening>)
    ensures var h := Fold(script);
            && h.accepted == h.closed + LiveFds(h.lives)
            && (Stopped(script) ==> h.closed == h.accepted && forall l <- h.lives :: !l.active)
  {
    FoldBalanced(script);
    OpenUntilStopped(script);
    if Stopped(script) {
      NoneLive(Fold(script).lives);
    }
  }

  lemma {:induction false} NoneLive(lives: seq<Life>)
    requires forall l <- lives :: !l.active
    ensures LiveFds(lives) == multiset{}
  {
    if lives != [] {
      assert lives[|lives| - 1] in lives;
      NoneLive(lives[..|lives| - 1]);
    }
  }

  ghost predicate SameFds(a: seq<Life>, b: seq<Life>) {
    |a| == |b| && forall i :: 0 <= i < |a| ==> a[i].fd == b[i].fd
  }

  lemma SameFdsConcat(a: seq<Life>, b: seq<Life>, c: seq<Life>)
    requires SameFds(a, b)
    ensures SameFds(a + c, b + c)
  {
  }

  /** An event opens no connection and changes no descriptor. */
  lemma SameFdsNext(h: History, e: Happening)
    requires e.Ready? ==> !h.isOpen
    ensures SameFds(Next(h, e).lives, h.lives) && Next(h, e).accepted == h.accepted
  {
  }

  lemma ArrivalsNext(script: seq<Happening>, e: Happening)
    ensures Arrivals(script + [e]) == if e.Ready? && !Stopped(script) then Arrivals(script) + Batch(e.backlog)
            else Arrivals(script)
  {
    assert (script + [e])[..|script|] == script;
  }

  /** Accepted are exactly the arrivals the open server took, at most 32 a call; the connections
      ever opened are those of them with a node, in order. */
  lemma {:induction false} AcceptedAreTheArrivals(script: seq<Happening>)
    ensures Fold(script).accepted == AcceptedFds(Arrivals(script))
    ensures SameFds(Fold(script).lives, OpenedLives(Arrivals(script)))
  {
    if script != [] {
      var init, last := script[..|script| - 1], script[|script| - 1];
      assert script == init + [last];
      AcceptedAreTheArrivals(init);
      OpenUntilStopped(init);
      FoldNext(init, last);
      ArrivalsNext(init, last);
      if last.Ready? && !Stopped(init) {
        AcceptedConcat(Arrivals(init), Batch(last.backlog));
        OpenedConcat(Arrivals(init), Batch(last.backlog));
        SameFdsConcat(Fold(init).lives, OpenedLives(Arrivals(init)), OpenedLives(Batch(last.backlog)));
      } else {
        SameFdsNext(Fold(init), last);
      }
    }
  }

  lemma ChunksNext(script: seq<Happening>, e: Happening, id: nat)
    ensures ChunksTo(script + [e], id) ==
            if e.Deliver? && e.id == id && e.event.Read? then ChunksTo(script, id) + [e.event.chunk]
                else ChunksTo(script, id)
    ensures ClosedByPeer(script + [e], id) <==> ClosedByPeer(script, id) || e == Deliver(id, Close)
    ensures OnlyToLive(script + [e]) ==>
              OnlyToLive(script) && (e.Deliver? ==> e.id < |Fold(script).lives| && Fold(script).lives[e.id].active)
  {
    assert (script + [e])[..|script|] == script;
  }

  lemma {:induction false} NothingForTheUnopened(script: seq<Happening>, id: nat)
    requires OnlyToLive(script) && id >= |Fold(script).lives|
    ensures ChunksTo(script, id) == [] && !ClosedByPeer(script, id)
  {
    if script != [] {
      var init, last := script[..|script| - 1], script[|script| - 1];
      assert script == init + [last];
      ChunksNext(init, last, id);
      NothingForTheUnopened(init, id);
    }
  }

  /** A connection, given the chunks delivered to it, whether the server was stopped and whether
      the peer closed. */
  ghost predicate Described(chunks: seq<seq<byte>>, stopped: bool, closed: bool, l: Life) {
    && l.received == Concat(chunks) && l.sent == Parse(l.received).replies
    && (l.active <==> !stopped && !closed && Parse(l.received).outcome.Live?)
  }

  lemma DescribedNew(script: seq<Happening>, e: Happening, id: nat)
    requires OnlyToLive(script + [e]) && |Fold(script).lives| <= id < |Next(Fold(script), e).lives|
    ensures Described(ChunksTo(script + [e], id), Stopped(script + [e]), ClosedByPeer(script + [e], id),
            Next(Fold(script), e).lives[id])
  {
    ChunksNext(script, e, id);
    FoldNext(script, e);
    OpenUntilStopped(script);
    NothingForTheUnopened(script, id);
    OpenedLivesFds(Batch(e.backlog));
    assert Next(Fold(script), e).lives[id] in OpenedLives(Batch(e.backlog));
    assert Parse([]) == Parsed([], Live([]));
  }

  lemma NextLife(h: History, e: Happening, id: nat)
    requires id < |h.lives|
    ensures id < |Next(h, e).lives|
    ensures Next(h, e).lives[id] ==
            if e.Deliver? && e.id == id && h.lives[id].active then AfterEvent(h.lives[id], e.event)
            else if e.Stop? && h.isOpen then h.lives[id].(active := false)
            else h.lives[id]
  {
  }

  lemma DescribedNext(chunks: seq<seq<byte>>, stopped: bool, closed: bool, l: Life, e: Happening, id: nat, l': Life)
    requires Described(chunks, stopped, closed, l)
    requires e.Deliver? && e.id == id ==> l.active
    requires l' == if e.Deliver? && e.id == id then AfterEvent(l, e.event)
                   else if e.Stop? && !stopped then l.(active := false) else l
    ensures Described(if e.Deliver? && e.id == id && e.event.Read? then chunks + [e.event.chunk] else chunks,
                      stopped || e.Stop?, closed || e == Deliver(id, Close), l')
  {
    if e.Deliver? && e.id == id && e.event.Read? {
      ConcatPush(chunks, e.event.chunk);
    }
  }

  lemma ConcatPush(chunks: seq<seq<byte>>, chunk: seq<byte>)
    ensures Concat(chunks + [chunk]) == Concat(chunks) + chunk
  {
    assert (chunks + [chunk])[..|chunks|] == chunks;
  }

  /** A connection has received exactly the chunks delivered to it, it was sent exactly the
      replies the whole-stream parse prescribes, and it is active exactly when the
      server runs, the peer has not closed and what it received is answerable. */
  lemma {:induction false} ReceivedAreTheChunks(script: seq<Happening>, id: nat)
    requires OnlyToLive(script) && id < |Fold(script).lives|
    ensures var l := Fold(script).lives[id];
            && l.received == Concat(ChunksTo(script, id)) && l.sent == Parse(l.received).replies
            && (l.active <==> !Stopped(script) && !ClosedByPeer(script, id) && Parse(l.received).outcome.Live?)
  {
    var init, last := script[..|script| - 1], script[|script| - 1];
    assert script == init + [last];
    ChunksNext(init, last, id);
    FoldNext(init, last);
    if id < |Fold(init).lives| {
      ReceivedAreTheChunks(init, id);
      NextLife(Fold(init), last, id);
      OpenUntilStopped(init);
      DescribedNext(ChunksTo(init, id), Stopped(init), ClosedByPeer(init, id), Fold(init).lives[id], last, id,
          Fold(script).lives[id]);
    } else {
      DescribedNew(init, last, id);
    }
  }

  // ----- the objects -----

  lemma AllActive(cs: seq<Connection>, lives: seq<Life>)
    requires Shows(cs, lives) && forall l <- lives :: l.active
    ensures forall c <- cs :: c.active
  {
    forall i | 0 <= i < |cs| ensures cs[i].active {
      assert lives[i] in lives;
    }
  }

  /** The server together with every connection it ever opened, oldest first. */
  class Reactor {
    const server: Server
    var conns: seq<Connection>
    ghost var lives: seq<Life>

    ghost function Value(): History
      reads this, server
    {
      History(lives, server.isOpen, server.accepted, server.closed)
    }

    /** A connection ever opened is on the server's list exactly when it is active. */
    ghost predicate Listed()
      reads this, server, server.connections, conns
    {
      && NoDuplicates(conns)
      && (forall c <- server.connections :: c in conns)
      && (forall c <- conns :: c.active <==> c in server.connections)
    }

    ghost predicate Tracks(ls: seq<Life>)
      reads this, server, server.connections, conns
    {
      server.Valid() && Listed() && Shows(conns, ls)
    }

    ghost predicate Consistent(h: History)
      reads this, server, server.connections, conns
    {
      Tracks(h.lives) && Balanced(h)
    }

    ghost predicate Valid()
      reads this, server, server.connections, conns
    {
      Consistent(Value())
    }

    constructor ()
      ensures Valid() && fresh(server) && conns == [] && Value() == Fold([])
    {
      var s := new Server();
      s.Open();
      server, conns, lives := s, [], [];
    }

    twostate lemma AcceptListed(new added: seq<Connection>)
      requires old(Listed()) && fresh(added) && forall c <- old(conns) :: unchanged(c)
      requires conns == old(conns) + added && server.connections == old(server.connections) + added
      requires NoDuplicates(server.connections) && forall c <- added :: c.active
      ensures Listed()
    {
      var n := |old(server.connections)|;
      forall i, j | 0 <= i < j < |added| ensures added[i] != added[j] {
        assert server.connections[n + i] == added[i] && server.connections[n + j] == added[j];
      }
    }

    twostate lemma AcceptShows(new added: seq<Connection>, more: seq<Life>)
      requires old(Shows(conns, lives)) && forall c <- old(conns) :: unchanged(c)
      requires conns == old(conns) + added && lives == old(lives) && Shows(added, more)
      ensures Shows(conns, lives + more)
    {
      forall i | 0 <= i < |old(conns)| ensures lives[i] == LifeOf(conns[i]) {
        assert conns[i] == old(conns)[i] && conns[i] in old(conns);
      }
    }

    method Listen(backlog: seq<Arrival>) returns (added: seq<Connection>)
      requires Valid() && server.isOpen
      modifies server
      ensures server.Valid() && server.isOpen && server.connections == old(server.connections) + added
      ensures server.accepted == old(server.accepted) + AcceptedFds(Batch(backlog))
      ensures server.closed == old(server.closed) + RefusedFds(Batch(backlog))
      ensures fresh(added) && Shows(added, OpenedLives(Batch(backlog))) && forall c <- added :: c.active
    {
      var _, more := server.ListenerCallback(backlog);
      OpenedLivesFds(Batch(backlog));
      AllActive(more, OpenedLives(Batch(backlog)));
      added := more;
    }

    method Enlist(backlog: seq<Arrival>) returns (added: seq<Connection>)
      requires Valid() && server.isOpen
      modifies this`conns, server
      ensures Tracks(lives + OpenedLives(Batch(backlog))) && server.isOpen
      ensures server.accepted == old(server.accepted) + AcceptedFds(Batch(backlog))
      ensures server.closed == old(server.closed) + RefusedFds(Batch(backlog))
      ensures conns == old(conns) + added && fresh(added)
    {
      added := Listen(backlog);
      conns := conns + added;
      AcceptListed(added);
      AcceptShows(added, OpenedLives(Batch(backlog)));
    }

    method Accept(backlog: seq<Arrival>) returns (added: seq<Connection>)
      requires Valid()
      modifies this`conns, this`lives, server
      ensures Valid() && Value() == Next(old(Value()), Ready(backlog))
      ensures conns == old(conns) + added && fresh(added)
    {
      added := [];
      if server.isOpen {
        ghost var h := Value();
        added := Enlist(backlog);
        lives := lives + OpenedLives(Batch(backlog));
        ReadyNext(h, backlog, Value());
      }
    }

    twostate lemma DispatchListed(conn: Connection)
      requires old(Listed()) && conn in conns && conns == old(conns) && old(conn.active)
      requires forall c <- conns :: c != conn ==> unchanged(c)
      requires NoDuplicates(old(server.connections))
      requires server.connections == if conn.active then old(server.connections)
              else Erase(old(server.connections), conn)
      ensures Listed()
    {
      var before := old(server.connections);
      EraseElements(before, conn);
      forall c <- before | c != conn ensures c in Erase(before, conn) {
        EraseKeepsTheOthers(before, conn, c);
      }
    }

    /** The event reaches its connection and no other. */
    method Notify(id: nat, event: Event)
      requires Valid() && id < |conns| && conns[id].active
      modifies server, conns[id]
      ensures Tracks(lives[id := AfterEvent(lives[id], event)])
      ensures server.isOpen == old(server.isOpen) && server.accepted == old(server.accepted)
      ensures server.closed ==
              old(server.closed) + if AfterEvent(lives[id], event).active then multiset{} else multiset{lives[id].fd}
    {
      var conn := conns[id];
      server.ConnCallback(conn, event);
      assert conn.received + [] == conn.received;
      assert LifeOf(conn) == AfterEvent(lives[id], event);
      DispatchListed(conn);
    }

    method Dispatch(id: nat, event: Event)
      requires Valid()
      modifies this`lives, server, conns
      ensures Valid() && Value() == Next(old(Value()), Deliver(id, event))
    {
      if id < |conns| && conns[id].active {
        ghost var h := Value();
        Notify(id, event);
        lives := lives[id := AfterEvent(lives[id], event)];
        DeliverNext(h, id, event, Value());
      }
    }

    method EndAll()
      requires Valid() && server.isOpen
      modifies server, conns
      ensures Tracks(Ended(lives)) && !server.isOpen && server.accepted == old(server.accepted) == server.closed
    {
      forall i | 0 <= i < |server.connections|
        ensures exists j :: 0 <= j < |conns| && conns[j] == server.connections[i]
      {
        assert server.connections[i] in conns;
      }
      server.Shutdown();
    }

    method Halt()
      requires Valid()
      modifies this`lives, server, conns
      ensures Valid() && Value() == Next(old(Value()), Stop)
    {
      if server.isOpen {
        ghost var h := Value();
        EndAll();
        lives := Ended(lives);
        StopNext(h, Value());
      }
    }

    method Happen(e: Happening) returns (added: seq<Connection>)
      requires Valid()
      modifies this`conns, this`lives, server, conns
      ensures Valid() && Value() == Next(old(Value()), e)
      ensures conns == old(conns) + added && fresh(added)
    {
      added := [];
      match e {
        case Ready(backlog) => added := Accept(backlog);
        case Deliver(id, event) => Dispatch(id, event);
        case Stop => Halt();
      }
    }
  }

  /** Every run: whatever is delivered to a server that has just been opened, in whatever order,
      the server and all connections ever opened are what the fold says, with what they received
      and were sent, and the server's list holds exactly the active ones. */
  method Run(script: seq<Happening>) returns (r: Reactor)
    ensures r.Valid() && r.Value() == Fold(script) && Shows(r.conns, Fold(script).lives)
    ensures forall c <- r.conns :: c.active <==> c in r.server.connections
    ensures forall c <- r.server.connections :: c in r.conns && c.Settled()
  {
    r := new Reactor();
    for i := 0 to |script|
      invariant fresh(r) && fresh(r.server) && fresh(r.conns) && r.Valid() && r.Value() == Fold(script[..i])
    {
      assert script[..i + 1][..i] == script[..i];
      var _ := r.Happen(script[i]);
    }
    assert script[..|script|] == script;
  }
}
