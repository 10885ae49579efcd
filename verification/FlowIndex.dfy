/** The map from TCP flows to sockets (`tcp_flow_map`), a shortcut for a scan over the sockets
    (src/net/tunnel/manager/commands.rs, src/net/tunnel/manager/phases.rs). */
module FlowIndex {
  import opened Common

  datatype Key = Key(localPort: nat, remoteIp: seq<byte>, remotePort: nat)

  /** The flow of each live socket, and the index. */
  datatype Index = Index(live: map<Handle, Key>, flow: map<Key, Handle>)

  const EMPTY := Index(map[], map[])

  datatype Event = Opened(handle: Handle, key: Key) | Gone(handle: Handle)

  /** A new socket's handle is not in use. */
  predicate Enabled(v: Index, e: Event) {
    e.Opened? ==> e.handle !in v.live
  }

  function After(v: Index, e: Event): Index {
    match e
    case Opened(h, k) => Index(v.live[h := k], v.flow[k := h])
    case Gone(h) => if h in v.live then Index(v.live - {h}, v.flow - {v.live[h]}) else v
  }

  function AfterAll(v: Index, events: seq<Event>): Index {
    if events == [] then v else After(AfterAll(v, events[..|events| - 1]), events[|events| - 1])
  }

  ghost predicate IsRun(events: seq<Event>) {
    forall i :: 0 <= i < |events| ==> Enabled(AfterAll(EMPTY, events[..i]), events[i])
  }

  /** The scan: the live sockets with flow `k`. */
  function Scan(v: Index, k: Key): set<Handle> {
    set h | h in v.live && v.live[h] == k
  }

  /** The lookup finds a socket exactly when the scan does. */
  ghost predicate Exact(v: Index, k: Key) {
    k in v.flow <==> Scan(v, k) != {}
  }

  /** Every entry names a live socket with that flow. */
  ghost predicate Sound(v: Index) {
    forall k :: k in v.flow ==> v.flow[k] in Scan(v, k)
  }

  lemma StepSound(v: Index, e: Event)
    requires Sound(v) && Enabled(v, e)
    ensures Sound(After(v, e))
  {
    var w := After(v, e);
    forall k | k in w.flow
      ensures w.flow[k] in Scan(w, k)
    {
      assert k in v.flow ==> v.flow[k] in Scan(v, k);
    }
  }

  lemma RunPrefix(events: seq<Event>)
    requires IsRun(events) && events != []
    ensures var n := |events| - 1;
            IsRun(events[..n]) && Enabled(AfterAll(EMPTY, events[..n]), events[n])
  {
    var n := |events| - 1;
    forall i | 0 <= i < n
      ensures Enabled(AfterAll(EMPTY, events[..n][..i]), events[..n][i])
    {
      assert events[..n][..i] == events[..i];
    }
  }

  /** In every run, colliding flows included, each entry names a live socket with that flow. */
  lemma {:induction false} EveryRunIsSound(events: seq<Event>)
    requires IsRun(events)
    ensures Sound(AfterAll(EMPTY, events))
  {
    if events != [] {
      var n := |events| - 1;
      RunPrefix(events);
      EveryRunIsSound(events[..n]);
      StepSound(AfterAll(EMPTY, events[..n]), events[n]);
    }
  }

  // ---------------------------------------------------------------- when the lookup is complete

  /** The event opens or ends a socket with flow `k`. */
  predicate Touches(v: Index, e: Event, k: Key) {
    match e
    case Opened(_, key) => key == k
    case Gone(h) => h in v.live && v.live[h] == k
  }

  /** Whether the last event of the run that touched `k` was a close, where there was one. */
  function LastWasClose(events: seq<Event>, k: Key): bool {
    if events == [] then false
    else
      var n := |events| - 1;
      if Touches(AfterAll(EMPTY, events[..n]), events[n], k) then events[n].Gone?
      else LastWasClose(events[..n], k)
  }

  /** Exactly when the lookup is right, over every run: it misses a live socket of flow `k` just when
      the last event of that flow was a close. */
  lemma {:induction false} ExactUnlessLastWasClose(events: seq<Event>, k: Key)
    requires IsRun(events)
    ensures var v := AfterAll(EMPTY, events);
            && Sound(v)
            && (Exact(v, k) <==> !(LastWasClose(events, k) && Scan(v, k) != {}))
            && (LastWasClose(events, k) ==> k !in v.flow)
  {
    EveryRunIsSound(events);
    if events != [] {
      var n := |events| - 1;
      RunPrefix(events);
      ExactUnlessLastWasClose(events[..n], k);
      var u, e := AfterAll(EMPTY, events[..n]), events[n];
      var v := After(u, e);
      if Touches(u, e, k) {
        if e.Opened? {
          assert e.handle in Scan(v, k);
        } else {
          assert k !in v.flow;
        }
      } else {
        UntouchedFlow(u, e, k);
      }
    }
  }

  lemma UntouchedFlow(u: Index, e: Event, k: Key)
    requires Enabled(u, e) && !Touches(u, e, k)
    ensures var v := After(u, e);
            Scan(v, k) == Scan(u, k) && (k in v.flow <==> k in u.flow)
  {
    var v := After(u, e);
    assert forall h :: h in Scan(u, k) ==> h in Scan(v, k);
    assert forall h :: h in Scan(v, k) ==> h in Scan(u, k);
  }

  /** No socket is opened on a flow that a live socket has. */
  ghost predicate NoCollision(events: seq<Event>) {
    forall i :: 0 <= i < |events| && events[i].Opened? ==> Scan(AfterAll(EMPTY, events[..i]), events[i].key) == {}
  }

  /** Every live socket is the one its flow's entry names. */
  ghost predicate Bijective(v: Index) {
    Sound(v) && forall h :: h in v.live ==> v.live[h] in v.flow && v.flow[v.live[h]] == h
  }

  /** Without collisions the index is the scan, in every state of every run: live flows are distinct
      and the entry of a flow names its one socket. */
  lemma {:induction false} NoCollisionRunsAreExact(events: seq<Event>)
    requires IsRun(events) && NoCollision(events)
    ensures Bijective(AfterAll(EMPTY, events))
    ensures forall k :: Exact(AfterAll(EMPTY, events), k)
  {
    EveryRunIsSound(events);
    if events != [] {
      var n := |events| - 1;
      RunPrefix(events);
      forall i | 0 <= i < n && events[..n][i].Opened?
        ensures Scan(AfterAll(EMPTY, events[..n][..i]), events[..n][i].key) == {}
      {
        assert events[..n][..i] == events[..i];
      }
      NoCollisionRunsAreExact(events[..n]);
      var u, e := AfterAll(EMPTY, events[..n]), events[n];
      var v := After(u, e);
      forall h | h in v.live
        ensures v.live[h] in v.flow && v.flow[v.live[h]] == h
      {
        if e.Opened? && h != e.handle {
          assert h !in Scan(u, e.key);
        }
      }
    }
    var v := AfterAll(EMPTY, events);
    forall k
      ensures Exact(v, k)
    {
      if Scan(v, k) != {} {
        var h :| h in Scan(v, k);
      }
    }
  }

  /** A collision is what it takes: with two live sockets on one flow, closing one hides the other. */
  lemma ClosingOneHidesTheOther(v: Index, a: Handle, b: Handle)
    requires a in v.live && b in v.live && a != b && v.live[a] == v.live[b]
    ensures var w := After(v, Gone(a));
            b in Scan(w, v.live[b]) && v.live[b] !in w.flow && !Exact(w, v.live[b])
  {
    assert b in Scan(After(v, Gone(a)), v.live[b]);
  }

  /** Live flows being distinct now is not enough: a run after which one socket lives and is not found. */
  lemma DistinctNowIsNotEnough(k: Key)
    ensures var events := [Opened(0, k), Opened(1, k), Gone(0)];
            && IsRun(events) && AfterAll(EMPTY, events).live == map[1 := k]
            && !Exact(AfterAll(EMPTY, events), k)
  {
    var events := [Opened(0, k), Opened(1, k), Gone(0)];
    var one, two := AfterAll(EMPTY, events[..1]), AfterAll(EMPTY, events[..2]);
    assert AfterAll(EMPTY, events[..0]) == EMPTY;
    assert one == After(EMPTY, events[0]) by { assert events[..1][..0] == events[..0]; }
    assert two == After(one, events[1]) by { assert events[..2][..1] == events[..1]; }
    assert two.live == map[0 := k, 1 := k];
    assert AfterAll(EMPTY, events) == After(two, events[2]);
    ClosingOneHidesTheOther(two, 0, 1);
  }
}
