/** The books `RuntimeState` keeps about the TCP sockets (src/net/tunnel/manager.rs): four counters, a
    list of handles, a queue of ready handles with its shadow set, and the flow index. Each is a
    shortcut for a scan over `sockets`; the commands (src/net/tunnel/manager/commands.rs) and the sweeps
    (src/net/tunnel/manager/phases.rs) keep every one of them exact. */
module Runtime {
  import opened Common
  import opened ReadyQueue
  import opened FlowIndex
  import EventFlags

  type Kind = EventFlags.Kind

  /** The flags of a socket that the four counters count. */
  datatype Flags = Flags(from: bool, to: bool, close: bool, connecting: bool)

  datatype Socket = Socket(
    key: Key,
    events: set<Kind>,
    closeRequested: bool,
    writeShutdown: bool,
    finSent: bool,
    counted: Flags)

  type Sockets = map<Handle, Socket>

  /** What a sweep observes of a socket: the stack's view of it, the client's flags and whether the
      rings hold bytes, before and after it was serviced. */
  datatype Observation = Observation(
    active: bool, pastHandshake: bool, maySend: bool,
    dropped: bool, writeShut: bool,
    fromBefore: bool, toBefore: bool, fromAfter: bool, toAfter: bool, fromAtFin: bool)

  // ---------------------------------------------------------------- counting

  datatype Counters = Counters(from: int, to: int, close: int, connecting: int)

  function Bit(b: bool): nat {
    if b then 1 else 0
  }

  function Bits(f: Flags): Counters {
    Counters(Bit(f.from), Bit(f.to), Bit(f.close), Bit(f.connecting))
  }

  function Minus(a: Counters, b: Counters): Counters {
    Counters(a.from - b.from, a.to - b.to, a.close - b.close, a.connecting - b.connecting)
  }

  /** What the counters hold for the sockets other than `s`. */
  function Others(c: Counters, s: Socket): Counters {
    Minus(c, Bits(s.counted))
  }

  lemma OthersDecide(c: Counters, c': Counters, s: Socket)
    requires Others(c, s) == Others(c', s)
    ensures c == c'
  {
  }

  predicate AtLeast(a: Counters, b: Counters) {
    a.from >= b.from && a.to >= b.to && a.close >= b.close && a.connecting >= b.connecting
  }

  const NO_FLAGS := Flags(false, false, false, false)

  datatype Flag = FromClient | ToClient | Close | Connecting

  predicate Has(f: Flags, flag: Flag) {
    match flag
    case FromClient => f.from
    case ToClient => f.to
    case Close => f.close
    case Connecting => f.connecting
  }

  /** The sockets with a flag. */
  function Marked(m: Sockets, flag: Flag): set<Handle> {
    set h | h in m && Has(m[h].counted, flag)
  }

  /** The scan the counters stand for. */
  function Totals(m: Sockets): Counters {
    Counters(|Marked(m, FromClient)|, |Marked(m, ToClient)|, |Marked(m, Close)|, |Marked(m, Connecting)|)
  }

  lemma MarkedIsSomeone(m: Sockets)
    ensures Totals(m) != Bits(NO_FLAGS) <==> exists h :: h in m && m[h].counted != NO_FLAGS
  {
    var t := Totals(m);
    if h :| h in m && m[h].counted != NO_FLAGS {
      TotalsWithout(m, h);
    }
    if t != Bits(NO_FLAGS) {
      var flag := if t.from > 0 then FromClient else if t.to > 0 then ToClient
                  else if t.close > 0 then Close else Connecting;
      assert Marked(m, flag) != {};
      var h :| h in Marked(m, flag);
    }
  }

  lemma MarkedWithout(m: Sockets, h: Handle, flag: Flag)
    requires h in m
    ensures |Marked(m - {h}, flag)| == |Marked(m, flag)| - Bit(Has(m[h].counted, flag))
  {
    assert Marked(m - {h}, flag) == Marked(m, flag) - {h};
  }

  lemma MarkedWith(m: Sockets, h: Handle, s: Socket, flag: Flag)
    requires h !in m
    ensures |Marked(m[h := s], flag)| == |Marked(m, flag)| + Bit(Has(s.counted, flag))
  {
    assert Marked(m[h := s], flag) == Marked(m, flag) + if Has(s.counted, flag) then {h} else {};
  }

  /** Removing a socket takes it out of every count it was in. */
  lemma TotalsWithout(m: Sockets, h: Handle)
    requires h in m
    ensures Totals(m - {h}) == Minus(Totals(m), Bits(m[h].counted))
    ensures AtLeast(Totals(m), Bits(m[h].counted))
  {
    MarkedWithout(m, h, FromClient);
    MarkedWithout(m, h, ToClient);
    MarkedWithout(m, h, Close);
    MarkedWithout(m, h, Connecting);
  }

  lemma TotalsWith(m: Sockets, h: Handle, s: Socket)
    requires h !in m
    ensures Others(Totals(m[h := s]), s) == Totals(m)
  {
    MarkedWith(m, h, s, FromClient);
    MarkedWith(m, h, s, ToClient);
    MarkedWith(m, h, s, Close);
    MarkedWith(m, h, s, Connecting);
  }

  lemma TotalsReplaced(m: Sockets, h: Handle, s: Socket)
    requires h in m
    ensures Others(Totals(m[h := s]), s) == Others(Totals(m), m[h])
    ensures AtLeast(Totals(m), Bits(m[h].counted))
  {
    TotalsWithout(m, h);
    TotalsWith(m - {h}, h, s);
    assert (m - {h})[h := s] == m[h := s];
  }

  // ---------------------------------------------------------------- lists

  /** `retain`: the elements not in `gone`. */
  function Without(q: seq<Handle>, gone: seq<Handle>): seq<Handle> {
    if q == [] then []
    else
      var rest := Without(q[..|q| - 1], gone);
      if q[|q| - 1] in gone then rest else rest + [q[|q| - 1]]
  }

  lemma {:induction false} WithoutListing(q: seq<Handle>, gone: seq<Handle>)
    requires NoDuplicates(q)
    ensures NoDuplicates(Without(q, gone))
    ensures Elements(Without(q, gone)) == Elements(q) - Elements(gone)
  {
    if q != [] {
      var n := |q| - 1;
      WithoutListing(q[..n], gone);
      assert q == q[..n] + [q[n]];
      assert q[n] !in Elements(q[..n]);
      var rest := Without(q[..n], gone);
      assert q[n] !in rest by { assert q[n] !in Elements(rest); }
      assert Elements(q) == Elements(q[..n]) + {q[n]};
      assert Elements(rest + [q[n]]) == Elements(rest) + {q[n]};
    }
  }

  lemma {:induction false} WithoutNone(q: seq<Handle>, gone: seq<Handle>)
    requires forall x :: x in q ==> x !in gone
    ensures Without(q, gone) == q
  {
    if q != [] {
      var n := |q| - 1;
      assert q == q[..n] + [q[n]];
      WithoutNone(q[..n], gone);
    }
  }

  /** The handles a sweep finds inactive. */
  function Inactive(handles: seq<Handle>, see: Handle -> Observation): seq<Handle> {
    if handles == [] then []
    else
      var n := |handles| - 1;
      var rest := Inactive(handles[..n], see);
      if see(handles[n]).active then rest else rest + [handles[n]]
  }

  lemma {:induction false} InactiveElements(handles: seq<Handle>, see: Handle -> Observation)
    ensures forall h :: h in Inactive(handles, see) <==> h in handles && !see(h).active
  {
    if handles != [] {
      var n := |handles| - 1;
      assert handles == handles[..n] + [handles[n]];
      InactiveElements(handles[..n], see);
    }
  }

  function Ends(handles: seq<Handle>): seq<Event> {
    seq(|handles|, i requires 0 <= i < |handles| => Gone(handles[i]))
  }

  lemma EndsSnoc(v: Index, closed: seq<Handle>, j: nat)
    requires j < |closed|
    ensures AfterAll(v, Ends(closed[..j + 1])) == FlowIndex.After(AfterAll(v, Ends(closed[..j])), Gone(closed[j]))
  {
    assert Ends(closed[..j + 1])[..j] == Ends(closed[..j]);
  }

  // ---------------------------------------------------------------- what a sweep does to a socket

  /** A socket asked to close. */
  function Closing(s: Socket): Socket {
    s.(closeRequested := true, writeShutdown := true)
  }

  function PollInterest(s: Socket, from: bool, to: bool): Socket {
    s.(counted := Flags(from, to, s.closeRequested, s.counted.connecting))
  }

  /** A serviced socket: its events are taken, a dropped client asks for the close, FIN is sent once the
      close was asked for and no client byte is left, and the counted flags are the ones last seen. */
  function Serviced(s: Socket, o: Observation): Socket {
    var close := s.closeRequested || o.dropped;
    Socket(s.key, {}, close, s.writeShutdown || o.dropped || o.writeShut,
           s.finSent || (close && !o.fromAtFin && o.maySend),
           Flags(o.fromAfter, o.toAfter, close, !o.pastHandshake))
  }

  /** What servicing a socket may do. Its events are taken. The close is asked for by a dropped client or
      was before. FIN goes out in this sweep exactly if it had not, the close is asked for, no client byte
      is left in the ring and the stack may send. What is counted is what was last seen. */
  ghost predicate IsServiced(s: Socket, o: Observation, s': Socket) {
    && s'.key == s.key && s'.events == {}
    && (s'.closeRequested <==> s.closeRequested || o.dropped)
    && (s'.writeShutdown <==> s.writeShutdown || o.dropped || o.writeShut)
    && (s'.finSent && !s.finSent <==> !s.finSent && (s.closeRequested || o.dropped) && !o.fromAtFin && o.maySend)
    && (s.finSent ==> s'.finSent)
    && s'.counted.from == o.fromAfter && s'.counted.to == o.toAfter
    && (s'.counted.close <==> s.closeRequested || o.dropped) && (s'.counted.connecting <==> !o.pastHandshake)
  }

  lemma ServicedIs(s: Socket, o: Observation)
    ensures IsServiced(s, o, Serviced(s, o))
  {
  }

  /** One counter follows one flag; it never falls below zero. */
  method Move(counted: bool, now: bool, n: int) returns (n': int)
    requires n >= Bit(counted)
    ensures n' == n - Bit(counted) + Bit(now) && n' >= Bit(now)
  {
    n' := n;
    if now != counted {
      n' := if now then n + 1 else n - 1;
    }
  }

  /** Moves a socket's three counted flags to what is seen now, and the counters with them. */
  method SyncPollInterestCounters(s: Socket, from: bool, to: bool, c: Counters) returns (s': Socket, c': Counters)
    requires AtLeast(c, Bits(s.counted))
    ensures s' == PollInterest(s, from, to)
    ensures s'.counted.from == from && s'.counted.to == to && s'.counted.close == s.closeRequested
    ensures s' == s.(counted := s'.counted) && s'.counted.connecting == s.counted.connecting
    ensures Others(c', s') == Others(c, s)
    ensures AtLeast(c', Bits(s'.counted))
  {
    var f := Move(s.counted.from, from, c.from);
    var t := Move(s.counted.to, to, c.to);
    var r := Move(s.counted.close, s.closeRequested, c.close);
    c' := Counters(f, t, r, c.connecting);
    s' := s.(counted := Flags(from, to, s.closeRequested, s.counted.connecting));
  }

  method SyncConnectingCounters(s: Socket, on: bool, c: Counters) returns (s': Socket, c': Counters)
    requires AtLeast(c, Bits(s.counted))
    ensures s' == s.(counted := s.counted.(connecting := on))
    ensures Others(c', s') == Others(c, s)
    ensures AtLeast(c', Bits(s'.counted))
  {
    var n := Move(s.counted.connecting, on, c.connecting);
    c' := c.(connecting := n);
    s' := s.(counted := s.counted.(connecting := on));
  }

  method RemovePollInterestCounters(s: Socket, c: Counters) returns (c': Counters)
    requires AtLeast(c, Bits(s.counted))
    ensures c' == Minus(c, Bits(s.counted)) && AtLeast(c', Bits(NO_FLAGS))
  {
    var f := Move(s.counted.from, false, c.from);
    var t := Move(s.counted.to, false, c.to);
    var r := Move(s.counted.close, false, c.close);
    var n := Move(s.counted.connecting, false, c.connecting);
    c' := Counters(f, t, r, n);
  }

  /** Takes the events and notes what the client's side asked for. */
  method Observe(s: Socket, o: Observation) returns (s': Socket)
    ensures s' == s.(events := {}, closeRequested := s.closeRequested || o.dropped,
                     writeShutdown := s.writeShutdown || o.dropped || o.writeShut)
  {
    s' := s.(events := {});
    if o.dropped {
      s' := s'.(closeRequested := true, writeShutdown := true);
    }
    if o.writeShut {
      s' := s'.(writeShutdown := true);
    }
  }

  /** What a sweep does with one socket, statement by statement. */
  method Service(s: Socket, o: Observation, c: Counters) returns (s': Socket, c': Counters)
    requires AtLeast(c, Bits(s.counted))
    ensures s' == Serviced(s, o) && IsServiced(s, o, s')
    ensures Others(c', s') == Others(c, s)
  {
    s' := Observe(s, o);
    s', c' := SyncPollInterestCounters(s', o.fromBefore, o.toBefore, c);
    s', c' := SyncPollInterestCounters(s', o.fromAfter, o.toAfter, c');
    s', c' := SyncConnectingCounters(s', !o.pastHandshake, c');
    if s'.closeRequested && !s'.finSent && !o.fromAtFin && o.maySend {
      s' := s'.(finSent := true);
    }
  }

  /** The sockets after a sweep over `taken`: inactive ones are gone, the others taken are serviced. */
  function Swept(m: Sockets, taken: seq<Handle>, see: Handle -> Observation): Sockets {
    map h | h in m && (h in taken ==> see(h).active) :: if h in taken then Serviced(m[h], see(h)) else m[h]
  }

  /** Exactly the sockets taken and inactive are gone, the others taken are serviced, the rest untouched. */
  lemma SweptIs(m: Sockets, taken: seq<Handle>, see: Handle -> Observation)
    ensures var after := Swept(m, taken, see);
            && (forall h :: h in after <==> h in m && !(h in taken && !see(h).active))
            && (forall h :: h in after && h in taken ==> IsServiced(m[h], see(h), after[h]))
            && (forall h :: h in after && h !in taken ==> after[h] == m[h])
  {
    forall h | h in m
      ensures IsServiced(m[h], see(h), Serviced(m[h], see(h)))
    {
      ServicedIs(m[h], see(h));
    }
  }

  function PartlyServiced(m: Sockets, taken: seq<Handle>, see: Handle -> Observation): Sockets {
    map h | h in m :: if h in taken && see(h).active then Serviced(m[h], see(h)) else m[h]
  }

  lemma ServicedOneMore(m: Sockets, taken: seq<Handle>, h: Handle, see: Handle -> Observation)
    requires h !in taken
    ensures PartlyServiced(m, taken + [h], see)
            == if h in m && see(h).active then PartlyServiced(m, taken, see)[h := Serviced(m[h], see(h))]
               else PartlyServiced(m, taken, see)
    ensures h in m ==> PartlyServiced(m, taken, see)[h] == m[h]
  {
  }

  lemma SweptOneMore(m: Sockets, handles: seq<Handle>, i: nat, see: Handle -> Observation)
    requires i < |handles| && NoDuplicates(handles)
    ensures var h := handles[i];
            && PartlyServiced(m, handles[..i + 1], see)
               == (if h in m && see(h).active then PartlyServiced(m, handles[..i], see)[h := Serviced(m[h], see(h))]
                   else PartlyServiced(m, handles[..i], see))
            && (h in m ==> PartlyServiced(m, handles[..i], see)[h] == m[h])
            && Inactive(handles[..i + 1], see)
               == (if see(h).active then Inactive(handles[..i], see) else Inactive(handles[..i], see) + [h])
  {
    var h := handles[i];
    assert handles[..i + 1] == handles[..i] + [h];
    assert handles[..i + 1][..i] == handles[..i];
    ServicedOneMore(m, handles[..i], h, see);
  }

  lemma WithoutOneMore(m: Sockets, closed: seq<Handle>, j: nat)
    requires j < |closed|
    ensures Elements(closed[..j + 1]) == Elements(closed[..j]) + {closed[j]}
    ensures m - Elements(closed[..j]) - {closed[j]} == m - Elements(closed[..j + 1])
  {
    assert closed[..j + 1] == closed[..j] + [closed[j]];
  }

  /** A sweep services the sockets it took and then removes the inactive ones. */
  lemma SweptIsRest(m: Sockets, taken: seq<Handle>, see: Handle -> Observation)
    ensures PartlyServiced(m, taken, see) - Elements(Inactive(taken, see)) == Swept(m, taken, see)
  {
    InactiveElements(taken, see);
  }

  function Keys(m: Sockets): map<Handle, Key> {
    map h | h in m :: m[h].key
  }

  lemma KeysReplaced(m: Sockets, h: Handle, s: Socket)
    ensures Keys(m[h := s]) == Keys(m)[h := s.key]
    ensures h in m && s.key == m[h].key ==> Keys(m[h := s]) == Keys(m) && m[h := s].Keys == m.Keys
  {
  }

  datatype Created = Overloaded | StackError | Connected

  // ---------------------------------------------------------------- the class

  class RuntimeState {
    var sockets: Sockets
    var flowMap: map<Key, Handle>
    var tcpHandles: seq<Handle>
    var readyHandles: seq<Handle>
    var readySet: set<Handle>
    var counters: Counters
    const maxSockets: nat
    const sweepBudget: nat

    ghost predicate Counted()
      reads this
    {
      counters == Totals(sockets)
    }

    ghost predicate Listed()
      reads this
    {
      NoDuplicates(tcpHandles) && Elements(tcpHandles) == sockets.Keys
    }

    ghost predicate Queued()
      reads this
    {
      NoDuplicates(readyHandles) && Elements(readyHandles) == readySet
    }

    /** The sockets' flows and the index over them. */
    ghost function View(): Index
      reads this
    {
      Index(Keys(sockets), flowMap)
    }

    ghost predicate Valid()
      reads this
    {
      Counted() && Listed() && Queued() && Sound(View())
    }

    constructor (limit: nat, budget: nat)
      ensures Valid() && sockets == map[] && readyHandles == [] && View() == EMPTY
      ensures maxSockets == limit && sweepBudget == budget
    {
      sockets, flowMap, tcpHandles, readyHandles, readySet := map[], map[], [], [], {};
      counters := Counters(0, 0, 0, 0);
      maxSockets, sweepBudget := limit, budget;
    }

    /** The counters answer as a scan of the sockets would. */
    method HasPollWork(otherWork: bool) returns (work: bool)
      requires Valid()
      ensures work <==> otherWork || readyHandles != [] || exists h :: h in sockets && sockets[h].counted != NO_FLAGS
    {
      work := otherWork || readyHandles != []
        || counters.from > 0 || counters.to > 0 || counters.close > 0 || counters.connecting > 0;
      MarkedIsSomeone(sockets);
    }

    // -------------------------------------------------------------- the ready queue

    method EnqueueReady(handle: Handle)
      requires Queued()
      modifies this`readyHandles, this`readySet
      ensures Queued() && readyHandles == ReadyQueue.After(sweepBudget, old(readyHandles), Arrives(handle))
    {
      assert handle in readySet <==> handle in Elements(readyHandles);
      if handle !in readySet {
        readySet := readySet + {handle};
        readyHandles := readyHandles + [handle];
      }
    }

    method MarkReady(handle: Handle, events: set<Kind>)
      requires Valid()
      modifies this`sockets, this`counters, this`readyHandles, this`readySet
      ensures Valid() && View() == old(View())
      ensures readyHandles == ReadyQueue.After(sweepBudget, old(readyHandles), Arrives(handle))
      ensures sockets == old(if handle in sockets
                             then sockets[handle := sockets[handle].(events := sockets[handle].events + events)]
                             else sockets)
    {
      if handle in sockets {
        Store(handle, sockets[handle].(events := sockets[handle].events + events), counters);
      }
      EnqueueReady(handle);
    }

    /** An incoming segment makes the socket of its flow ready, if the index has it. */
    method NoteIncomingTcp(key: Key)
      requires Valid()
      modifies this`sockets, this`counters, this`readyHandles, this`readySet
      ensures Valid() && View() == old(View())
      ensures key !in flowMap ==> sockets == old(sockets) && readyHandles == old(readyHandles)
      ensures key in flowMap ==>
                && flowMap[key] in sockets && sockets[flowMap[key]].key == key
                && {Kind.Read, Kind.Write} <= sockets[flowMap[key]].events && flowMap[key] in readyHandles
    {
      if key in flowMap {
        assert flowMap[key] in Scan(View(), key);
        MarkReady(flowMap[key], {Kind.Read, Kind.Write});
      }
    }

    // -------------------------------------------------------------- one socket at a time

    /** Puts back a changed socket with the counters moved along; its flow is the same. */
    method Store(handle: Handle, s: Socket, c: Counters)
      requires Counted() && handle in sockets && s.key == sockets[handle].key
      requires Others(c, s) == Others(counters, sockets[handle])
      modifies this`sockets, this`counters
      ensures Counted() && sockets == old(sockets)[handle := s]
      ensures sockets.Keys == old(sockets.Keys) && View() == old(View())
    {
      TotalsReplaced(sockets, handle, s);
      OthersDecide(c, Totals(sockets[handle := s]), s);
      KeysReplaced(sockets, handle, s);
      sockets, counters := sockets[handle := s], c;
    }

    method Insert(handle: Handle, s: Socket, c: Counters)
      requires Counted() && handle !in sockets && Others(c, s) == counters
      modifies this`sockets, this`counters
      ensures Counted() && sockets == old(sockets)[handle := s]
    {
      TotalsWith(sockets, handle, s);
      OthersDecide(c, Totals(sockets[handle := s]), s);
      sockets, counters := sockets[handle := s], c;
    }

    method AddToLists(handle: Handle, key: Key)
      requires handle in sockets && sockets[handle].key == key
      requires NoDuplicates(tcpHandles) && Elements(tcpHandles) == sockets.Keys - {handle}
      requires Sound(Index(Keys(sockets - {handle}), flowMap))
      modifies this`flowMap, this`tcpHandles
      ensures Listed() && Sound(View())
      ensures View() == FlowIndex.After(Index(Keys(sockets - {handle}), old(flowMap)), Opened(handle, key))
    {
      var was := Index(Keys(sockets - {handle}), flowMap);
      StepSound(was, Opened(handle, key));
      flowMap := flowMap[key := handle];
      assert Keys(sockets) == was.live[handle := key];
      assert handle !in Elements(tcpHandles);
      tcpHandles := tcpHandles + [handle];
      assert Elements(tcpHandles) == Elements(old(tcpHandles)) + {handle};
    }

    /** Takes a socket off every book but the lists. */
    method RemoveSocket(handle: Handle)
      requires Counted() && Sound(View())
      modifies this`sockets, this`flowMap, this`counters
      ensures Counted() && sockets == old(sockets) - {handle}
      ensures View() == FlowIndex.After(old(View()), Gone(handle)) && Sound(View())
    {
      ghost var was := View();
      StepSound(was, Gone(handle));
      if handle !in sockets {
        assert sockets - {handle} == sockets;
        return;
      }
      TotalsWithout(sockets, handle);
      var s := sockets[handle];
      counters := RemovePollInterestCounters(s, counters);
      flowMap := flowMap - {s.key};
      sockets := sockets - {handle};
      assert Keys(sockets) == was.live - {handle};
    }

    // -------------------------------------------------------------- commands and events

    /** `handle` is the one the stack hands out, not in use; `connects` is whether it took the connect. */
    method CreateConnection(handle: Handle, key: Key, connects: bool) returns (r: Created)
      requires Valid() && handle !in sockets
      modifies this
      ensures Valid()
      ensures r.Overloaded? <==> |old(sockets)| >= maxSockets
      ensures r.StackError? <==> |old(sockets)| < maxSockets && !connects
      ensures !r.Connected? ==> sockets == old(sockets) && View() == old(View()) && readyHandles == old(readyHandles)
      ensures r.Connected? ==>
                && sockets == old(sockets)[handle := Socket(key, {Kind.Write}, false, false, false,
                                                            NO_FLAGS.(connecting := true))]
                && View() == FlowIndex.After(old(View()), Opened(handle, key))
                && readyHandles == old(readyHandles)
    {
      if |sockets| >= maxSockets {
        return Overloaded;
      }
      if !connects {
        return StackError;
      }
      var s := Socket(key, {Kind.Write}, false, false, false, NO_FLAGS);
      var c;
      s, c := SyncPollInterestCounters(s, false, false, counters);
      s, c := SyncConnectingCounters(s, true, c);
      Insert(handle, s, c);
      assert sockets - {handle} == old(sockets);
      AddToLists(handle, key);
      return Connected;
    }

    /** A live socket is asked to close and stays until the stack is done with it; for a handle that is
        not live there is nothing left to take off the books. */
    method CloseConnection(handle: Handle, from: bool, to: bool)
      requires Valid()
      modifies this
      ensures Valid() && View() == old(View()) && readyHandles == old(readyHandles) && tcpHandles == old(tcpHandles)
      ensures sockets == old(if handle in sockets
                             then sockets[handle := PollInterest(Closing(sockets[handle]), from, to)]
                             else sockets)
      ensures handle in old(sockets) ==>
                var s, s' := old(sockets)[handle], sockets[handle];
                && s'.closeRequested && s'.writeShutdown && s'.counted == Flags(from, to, true, s.counted.connecting)
                && s'.key == s.key && s'.events == s.events && s'.finSent == s.finSent
    {
      if handle in sockets {
        TotalsWithout(sockets, handle);
        var s := sockets[handle].(closeRequested := true, writeShutdown := true);
        var c;
        s, c := SyncPollInterestCounters(s, from, to, counters);
        Store(handle, s, c);
        return;
      }
      assert handle !in Elements(tcpHandles);
      assert forall k :: k in flowMap ==> flowMap[k] in Scan(View(), k);
      flowMap := map k | k in flowMap && flowMap[k] != handle :: flowMap[k];
      assert flowMap == old(flowMap);
      WithoutNone(tcpHandles, [handle]);
      tcpHandles := Without(tcpHandles, [handle]);
    }

    method HandleSocketEvent(handle: Handle, kind: Kind, from: bool, to: bool)
      requires Valid()
      modifies this
      ensures Valid() && View() == old(View())
      ensures readyHandles == ReadyQueue.After(sweepBudget, old(readyHandles), Arrives(handle))
      ensures sockets == old(if handle in sockets
                             then var s := sockets[handle].(events := sockets[handle].events + {kind});
                                  sockets[handle := PollInterest(if kind.Closed? then Closing(s) else s, from, to)]
                             else sockets)
      ensures handle in old(sockets) ==>
                var s, s' := old(sockets)[handle], sockets[handle];
                && s'.events == s.events + {kind} && s'.key == s.key && s'.finSent == s.finSent
                && (s'.closeRequested <==> s.closeRequested || kind.Closed?)
                && (s'.writeShutdown <==> s.writeShutdown || kind.Closed?)
                && s'.counted == Flags(from, to, s.closeRequested || kind.Closed?, s.counted.connecting)
    {
      if handle in sockets {
        var s := sockets[handle].(events := sockets[handle].events + {kind});
        if kind.Closed? {
          s := s.(closeRequested := true, writeShutdown := true);
        }
        TotalsWithout(sockets, handle);
        var c;
        s, c := SyncPollInterestCounters(s, from, to, counters);
        Store(handle, s, c);
      }
      EnqueueReady(handle);
    }

    // -------------------------------------------------------------- sweeps

    /** The handles of a targeted sweep: up to the budget, at least one, from the front. */
    method TakeReady() returns (handles: seq<Handle>)
      requires Queued()
      modifies this`readyHandles, this`readySet
      ensures Queued()
      ensures handles == Takes(sweepBudget, old(readyHandles), TargetedSweep)
      ensures readyHandles == ReadyQueue.After(sweepBudget, old(readyHandles), TargetedSweep)
    {
      var budget := Min(Max(sweepBudget, 1), Max(|readyHandles|, 1));
      handles := [];
      while |handles| < budget
        invariant |handles| <= budget && |handles| <= |old(readyHandles)|
        invariant handles == old(readyHandles)[..|handles|] && readyHandles == old(readyHandles)[|handles|..]
        invariant Elements(readyHandles) == readySet
        decreases budget - |handles|
      {
        if readyHandles == [] {
          break;
        }
        var handle := readyHandles[0];
        assert Elements(readyHandles) == Elements(readyHandles[1..]) + {handle};
        assert handle !in Elements(readyHandles[1..]);
        readyHandles := readyHandles[1..];
        readySet := readySet - {handle};
        handles := handles + [handle];
      }
    }

    method ServiceSocket(handle: Handle, o: Observation)
      requires Counted()
      modifies this`sockets, this`counters
      ensures Counted() && View() == old(View()) && sockets.Keys == old(sockets.Keys)
      ensures sockets == old(if handle in sockets then sockets[handle := Serviced(sockets[handle], o)] else sockets)
    {
      if handle in sockets {
        TotalsWithout(sockets, handle);
        var s, c := Service(sockets[handle], o, counters);
        Store(handle, s, c);
      }
    }

    method ServiceIfActive(handle: Handle, o: Observation) returns (active: bool)
      requires Counted()
      modifies this`sockets, this`counters
      ensures Counted() && View() == old(View()) && sockets.Keys == old(sockets.Keys) && active == o.active
      ensures sockets == old(if handle in sockets && o.active then sockets[handle := Serviced(sockets[handle], o)]
                             else sockets)
    {
      active := o.active;
      if active {
        ServiceSocket(handle, o);
      }
    }

    /** The first loop of a sweep: active sockets are serviced, the others noted. */
    method ServiceAll(handles: seq<Handle>, see: Handle -> Observation) returns (closed: seq<Handle>)
      requires Counted() && NoDuplicates(handles)
      modifies this`sockets, this`counters
      ensures Counted() && View() == old(View()) && sockets.Keys == old(sockets.Keys)
      ensures closed == Inactive(handles, see)
      ensures sockets == PartlyServiced(old(sockets), handles, see)
    {
      closed := [];
      var i := 0;
      ghost var before := sockets;
      assert sockets == PartlyServiced(before, [], see);
      while i < |handles|
        invariant 0 <= i <= |handles|
        invariant Counted() && View() == old(View()) && sockets.Keys == before.Keys
        invariant closed == Inactive(handles[..i], see)
        invariant sockets == PartlyServiced(before, handles[..i], see)
      {
        SweptOneMore(before, handles, i, see);
        var active := ServiceIfActive(handles[i], see(handles[i]));
        if !active {
          closed := closed + [handles[i]];
        }
        i := i + 1;
      }
      assert handles[..i] == handles;
    }

    /** The second loop of a sweep. */
    method RemoveAll(closed: seq<Handle>)
      requires Counted() && Sound(View())
      modifies this`sockets, this`flowMap, this`counters, this`readySet
      ensures Counted() && Sound(View())
      ensures sockets == old(sockets) - Elements(closed) && readySet == old(readySet) - Elements(closed)
      ensures View() == AfterAll(old(View()), Ends(closed))
    {
      var j := 0;
      ghost var was := View();
      assert Elements(closed[..0]) == {};
      assert sockets == sockets - {};
      while j < |closed|
        invariant 0 <= j <= |closed|
        invariant Counted() && Sound(View())
        invariant sockets == old(sockets) - Elements(closed[..j]) && readySet == old(readySet) - Elements(closed[..j])
        invariant View() == AfterAll(was, Ends(closed[..j]))
      {
        EndsSnoc(was, closed, j);
        WithoutOneMore(old(sockets), closed, j);
        RemoveSocket(closed[j]);
        readySet := readySet - {closed[j]};
        j := j + 1;
      }
      assert closed[..j] == closed;
    }

    method DropFromLists(closed: seq<Handle>)
      requires NoDuplicates(tcpHandles) && sockets.Keys == Elements(tcpHandles) - Elements(closed)
      requires NoDuplicates(readyHandles) && readySet == Elements(readyHandles) - Elements(closed)
      modifies this`tcpHandles, this`readyHandles
      ensures Listed() && Queued()
      ensures (forall h :: h in old(readyHandles) ==> h !in closed) ==> readyHandles == old(readyHandles)
    {
      if closed != [] {
        WithoutListing(tcpHandles, closed);
        WithoutListing(readyHandles, closed);
        if forall h :: h in readyHandles ==> h !in closed {
          WithoutNone(readyHandles, closed);
        }
        tcpHandles := Without(tcpHandles, closed);
        readyHandles := Without(readyHandles, closed);
      }
    }

    /** A sweep, full or targeted. Exactly the taken sockets are serviced or, when the stack is done with
        them, taken off every book; the ready queue loses exactly what was taken. */
    method PollTcpSockets(full: bool, see: Handle -> Observation)
      requires Valid()
      modifies this
      ensures Valid()
      ensures readyHandles == ReadyQueue.After(sweepBudget, old(readyHandles),
                                               if full then FullSweep else TargetedSweep)
      ensures sockets == Swept(old(sockets), old(SweepOver(full)), see)
      ensures forall h :: h in sockets <==> h in old(sockets) && !(h in old(SweepOver(full)) && !see(h).active)
      ensures forall h :: h in sockets && h in old(SweepOver(full)) ==> IsServiced(old(sockets)[h], see(h), sockets[h])
      ensures forall h :: h in sockets && h !in old(SweepOver(full)) ==> sockets[h] == old(sockets)[h]
      ensures full ==> Elements(old(SweepOver(full))) == old(sockets.Keys)
      ensures View() == AfterAll(old(View()), Ends(Inactive(old(SweepOver(full)), see)))
    {
      var handles := TakeHandles(full);
      var closed := ServiceAll(handles, see);
      SweptIsRest(old(sockets), handles, see);
      InactiveElements(handles, see);
      RemoveAll(closed);
      assert Elements(readyHandles) - Elements(closed) == readySet;
      DropFromLists(closed);
      SweptIs(old(sockets), old(SweepOver(full)), see);
    }

    method TakeHandles(full: bool) returns (handles: seq<Handle>)
      requires Valid()
      modifies this`readyHandles, this`readySet
      ensures Valid() && handles == old(SweepOver(full)) && NoDuplicates(handles)
      ensures readyHandles == ReadyQueue.After(sweepBudget, old(readyHandles),
                                               if full then FullSweep else TargetedSweep)
      ensures forall h :: h in readyHandles ==> h !in handles
    {
      if full {
        readyHandles, readySet := [], {};
        handles := tcpHandles;
      } else {
        handles := TakeReady();
      }
    }

    ghost function SweepOver(full: bool): seq<Handle>
      reads this
    {
      if full then tcpHandles else Takes(sweepBudget, readyHandles, TargetedSweep)
    }
  }
}
