/** Callers waiting for a connection to be ready: the `WaitSocketReady` command
    (src/net/tunnel/manager/commands.rs), `notify_ready_waiters` and the end of a socket
    (src/net/tunnel/manager/phases.rs). A caller gets one answer, and it is never `Connecting`. */
module Waiters {
  import opened Common

  datatype State = Connecting | Established | Closed

  /** What the stack says about a socket. */
  datatype Probe = Probe(active: bool, maySend: bool, mayRecv: bool)

  function Seen(p: Probe): State {
    if !p.active then Closed else if p.maySend && p.mayRecv then Established else Connecting
  }

  datatype Live = Live(closeRequested: bool, waiters: seq<nat>)

  type Sockets = map<Handle, Live>

  /** get_tcp_socket_state. */
  function SocketState(sockets: Sockets, h: Handle, p: Probe): State {
    if h !in sockets || sockets[h].closeRequested then Closed else Seen(p)
  }

  /** A caller is told that a connection is established exactly when the socket is live, nobody asked to
      close it, and the stack has it active with both directions open; it is told closed when the socket is
      gone, closing or inactive. */
  lemma ToldExactly(sockets: Sockets, h: Handle, p: Probe)
    ensures SocketState(sockets, h, p) == Established <==>
              h in sockets && !sockets[h].closeRequested && p.active && p.maySend && p.mayRecv
    ensures SocketState(sockets, h, p) == Closed <==> !(h in sockets && !sockets[h].closeRequested && p.active)
    ensures Seen(p) == Established <==> p.active && p.maySend && p.mayRecv
    ensures Seen(p) == Closed <==> !p.active
  {
  }

  // ---------------------------------------------------------------- callers

  /** Caller `id`, who asked about socket `home[id]`, was answered, or is waiting there. */
  ghost predicate Placed(id: nat, sockets: Sockets, answered: map<nat, State>, home: map<nat, Handle>) {
    id in home && (id in answered <==> !(home[id] in sockets && id in sockets[home[id]].waiters))
  }

  ghost predicate AtHome(h: Handle, sockets: Sockets, home: map<nat, Handle>)
    requires h in sockets
  {
    && NoDuplicates(sockets[h].waiters)
    && forall id :: id in sockets[h].waiters ==> id in home && home[id] == h
  }

  ghost predicate Inv(sockets: Sockets, answered: map<nat, State>, home: map<nat, Handle>) {
    && (forall id {:trigger Placed(id, sockets, answered, home)} :: id in home ==> Placed(id, sockets, answered, home))
    && (forall h {:trigger AtHome(h, sockets, home)} :: h in sockets ==> AtHome(h, sockets, home))
    && (forall id :: id in answered ==> id in home && answered[id] != Connecting)
  }

  /** The answers when all of `ids` are told `state`. */
  function Told(answered: map<nat, State>, ids: seq<nat>, state: State): map<nat, State> {
    map id | id in answered.Keys + Elements(ids) :: if id in ids then state else answered[id]
  }

  /** A socket's waiters are told, and it has none left or is gone. */
  lemma Tell(
    sockets: Sockets, answered: map<nat, State>, home: map<nat, Handle>, h: Handle, state: State, sockets': Sockets)
    requires Inv(sockets, answered, home) && h in sockets && state != Connecting
    requires || sockets' == sockets - {h}
             || (h in sockets' && sockets' == sockets[h := sockets'[h]] && sockets'[h].waiters == [])
    ensures Inv(sockets', Told(answered, sockets[h].waiters, state), home)
    ensures forall id :: id in sockets[h].waiters ==> id !in answered
  {
    var answered' := Told(answered, sockets[h].waiters, state);
    assert AtHome(h, sockets, home);
    forall id | id in home
      ensures Placed(id, sockets', answered', home)
    {
      assert Placed(id, sockets, answered, home);
    }
    forall g | g in sockets'
      ensures AtHome(g, sockets', home)
    {
      assert g in sockets ==> AtHome(g, sockets, home);
    }
    forall id | id in sockets[h].waiters
      ensures id !in answered
    {
      assert Placed(id, sockets, answered, home);
    }
  }

  /** A new caller is told at once, or joins the waiters of a live socket. */
  lemma Join(sockets: Sockets, answered: map<nat, State>, home: map<nat, Handle>, id: nat, h: Handle)
    requires Inv(sockets, answered, home) && id !in home && h in sockets
    ensures Inv(sockets[h := sockets[h].(waiters := sockets[h].waiters + [id])], answered, home[id := h])
  {
    var sockets' := sockets[h := sockets[h].(waiters := sockets[h].waiters + [id])];
    var home' := home[id := h];
    assert AtHome(h, sockets, home);
    forall i | i in home'
      ensures Placed(i, sockets', answered, home')
    {
      assert i in home ==> Placed(i, sockets, answered, home);
    }
    forall g | g in sockets'
      ensures AtHome(g, sockets', home')
    {
      assert AtHome(g, sockets, home);
    }
  }

  lemma AtOnce(sockets: Sockets, answered: map<nat, State>, home: map<nat, Handle>, id: nat, h: Handle, state: State)
    requires Inv(sockets, answered, home) && id !in home && state != Connecting
    ensures Inv(sockets, answered[id := state], home[id := h])
  {
    var answered', home' := answered[id := state], home[id := h];
    forall i | i in home'
      ensures Placed(i, sockets, answered', home')
    {
      assert i in home ==> Placed(i, sockets, answered, home);
      assert h in sockets ==> AtHome(h, sockets, home);
    }
    forall g | g in sockets
      ensures AtHome(g, sockets, home')
    {
      assert AtHome(g, sockets, home);
    }
  }

  /** A new socket, or one with the same waiters as before. */
  lemma SameWaiters(sockets: Sockets, answered: map<nat, State>, home: map<nat, Handle>, h: Handle, live: Live)
    requires Inv(sockets, answered, home)
    requires live.waiters == if h in sockets then sockets[h].waiters else []
    ensures Inv(sockets[h := live], answered, home)
  {
    var sockets' := sockets[h := live];
    forall id | id in home
      ensures Placed(id, sockets', answered, home)
    {
      assert Placed(id, sockets, answered, home);
    }
    forall g | g in sockets'
      ensures AtHome(g, sockets', home)
    {
      assert g in sockets ==> AtHome(g, sockets, home);
    }
  }

  ghost predicate AllTold(ids: seq<nat>, state: State, answered: map<nat, State>) {
    forall i :: 0 <= i < |ids| ==> ids[i] in answered && answered[ids[i]] == state
  }

  lemma KeptTold(ids: seq<nat>, state: State, before: map<nat, State>, after: map<nat, State>)
    requires Kept(before, after)
    ensures AllTold(ids, state, before) ==> AllTold(ids, state, after)
  {
  }

  /** A socket still connecting keeps its waiters; the waiters of any other are told what was seen. */
  ghost predicate Notified(before: Live, after: Live, state: State, answered: map<nat, State>) {
    if state == Connecting then after == before
    else after == before.(waiters := []) && AllTold(before.waiters, state, answered)
  }

  class Manager {
    var sockets: Sockets
    var answered: map<nat, State>
    ghost var home: map<nat, Handle>

    ghost predicate Valid()
      reads this
    {
      Inv(sockets, answered, home)
    }

    constructor ()
      ensures Valid() && sockets == map[] && answered == map[] && home == map[]
    {
      sockets, answered, home := map[], map[], map[];
    }

    method OpenSocket(h: Handle)
      requires Valid() && h !in sockets
      modifies this`sockets
      ensures Valid() && sockets == old(sockets)[h := Live(false, [])]
    {
      SameWaiters(sockets, answered, home, h, Live(false, []));
      sockets := sockets[h := Live(false, [])];
    }

    /** A close event from the client: later callers are told, those waiting wait on. */
    method ClosedEvent(h: Handle)
      requires Valid() && h in sockets
      modifies this`sockets
      ensures Valid() && sockets == old(sockets)[h := Live(true, old(sockets)[h].waiters)]
    {
      SameWaiters(sockets, answered, home, h, Live(true, sockets[h].waiters));
      sockets := sockets[h := Live(true, sockets[h].waiters)];
    }

    method WaitSocketReady(id: nat, h: Handle, p: Probe)
      requires Valid() && id !in home
      modifies this
      ensures Valid() && home == old(home)[id := h]
      ensures SocketState(old(sockets), h, p).Connecting? ==>
                && answered == old(answered) && h in old(sockets)
                && sockets == old(sockets)[h := old(sockets)[h].(waiters := old(sockets)[h].waiters + [id])]
      ensures !SocketState(old(sockets), h, p).Connecting? ==>
                sockets == old(sockets) && answered == old(answered)[id := SocketState(old(sockets), h, p)]
    {
      var state := SocketState(sockets, h, p);
      if state != Connecting {
        AtOnce(sockets, answered, home, id, h, state);
        answered, home := answered[id := state], home[id := h];
      } else if h in sockets {
        Join(sockets, answered, home, id, h);
        sockets := sockets[h := sockets[h].(waiters := sockets[h].waiters + [id])];
        home := home[id := h];
      } else {
        assert false;
      }
    }

    /** close_connection for a live socket. */
    method CloseConnection(h: Handle)
      requires Valid()
      modifies this`sockets, this`answered
      ensures Valid()
      ensures h !in old(sockets) ==> sockets == old(sockets) && answered == old(answered)
      ensures h in old(sockets) ==>
                && sockets == old(sockets)[h := Live(true, [])]
                && answered == Told(old(answered), old(sockets)[h].waiters, Closed)
    {
      if h in sockets {
        var live := sockets[h];
        Tell(sockets, answered, home, h, Closed, sockets[h := Live(true, [])]);
        sockets := sockets[h := Live(true, [])];
        answered := Told(answered, live.waiters, Closed);
      }
    }

    /** The end of a socket in a sweep: every caller still waiting on it is told. */
    method RemoveSocket(h: Handle)
      requires Valid()
      modifies this`sockets, this`answered
      ensures Valid() && sockets == old(sockets) - {h}
      ensures h in old(sockets) ==> answered == Told(old(answered), old(sockets)[h].waiters, Closed)
      ensures h !in old(sockets) ==> answered == old(answered)
    {
      if h in sockets {
        Tell(sockets, answered, home, h, Closed, sockets - {h});
        answered := Told(answered, sockets[h].waiters, Closed);
      }
      sockets := sockets - {h};
      assert h !in old(sockets) ==> sockets == old(sockets);
    }

    method NotifyOne(h: Handle, state: State)
      requires Valid() && h in sockets
      modifies this`sockets, this`answered
      ensures Valid() && Kept(old(answered), answered)
      ensures state == Connecting ==> sockets == old(sockets) && answered == old(answered)
      ensures state != Connecting ==>
                && sockets == old(sockets)[h := old(sockets)[h].(waiters := [])]
                && AllTold(old(sockets)[h].waiters, state, answered)
    {
      if state != Connecting {
        var live := sockets[h];
        Tell(sockets, answered, home, h, state, sockets[h := live.(waiters := [])]);
        sockets := sockets[h := live.(waiters := [])];
        answered := Told(answered, live.waiters, state);
      }
    }

    /** After a poll, nobody waits on a socket that has become ready or is done. */
    method NotifyReadyWaiters(see: Handle -> Probe)
      requires Valid()
      modifies this`sockets, this`answered
      ensures Valid() && Kept(old(answered), answered) && sockets.Keys == old(sockets.Keys)
      ensures forall h :: h in sockets ==> Notified(old(sockets)[h], sockets[h], Seen(see(h)), answered)
    {
      var todo := sockets.Keys;
      while todo != {}
        invariant Valid() && Kept(old(answered), answered) && sockets.Keys == old(sockets.Keys) && todo <= sockets.Keys
        invariant forall h :: h in todo ==> sockets[h] == old(sockets)[h]
        invariant forall h :: h in sockets && h !in todo ==>
                    Notified(old(sockets)[h], sockets[h], Seen(see(h)), answered)
        decreases |todo|
      {
        var h :| h in todo;
        ghost var before := answered;
        NotifyOne(h, Seen(see(h)));
        forall g | g in sockets && g !in todo
          ensures Notified(old(sockets)[g], sockets[g], Seen(see(g)), answered)
        {
          KeptTold(old(sockets)[g].waiters, Seen(see(g)), before, answered);
        }
        todo := todo - {h};
      }
    }
  }

  /** In every state: a caller is answered or waits on a live socket, not both, and no answer is
      `Connecting`; so once its socket is gone a caller has its answer. */
  lemma AnsweredOnceGone(sockets: Sockets, answered: map<nat, State>, home: map<nat, Handle>, id: nat)
    requires Inv(sockets, answered, home) && id in home
    ensures home[id] !in sockets ==> id in answered
    ensures id in answered ==> answered[id] != Connecting
    ensures id in answered ==> forall h :: h in sockets ==> id !in sockets[h].waiters
  {
    assert Placed(id, sockets, answered, home);
    if id in answered {
      forall h | h in sockets
        ensures id !in sockets[h].waiters
      {
        assert AtHome(h, sockets, home);
      }
    }
  }
}
