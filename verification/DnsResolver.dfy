/** The operations on query groups (src/net/tunnel/manager/dns_ops.rs, src/net/tunnel/manager/phases.rs)
    as they update the manager's maps. Sockets, the encoder, the network and the clock report what they
    did through parameters; time is in seconds. */
module DnsResolver {
  import opened Common
  import opened DnsCache
  import opened DnsGroups

  class DnsState {
    var queries: map<nat, Query>
    var groups: Groups
    var cache: Names
    var nextId: nat
    var answered: Answers
    var sends: seq<Send>           // replies in the order they were sent
    ghost var book: Book
    ghost var idOf: map<Query, nat>
    ghost var due: set<Query>

    ghost predicate Consistent()
      reads this
    {
      && RequestInv(groups, book, answered) && SendsInv(sends, answered)
      && QueryInv(groups, queries, idOf, due) && nextId < IDS
    }

    ghost predicate Valid()
      reads this
    {
      Consistent() && AllSettled(groups) && due == {}
    }

    constructor (firstId: nat)
      requires firstId < IDS
      ensures Valid() && groups == map[] && answered == map[] && book.asks == []
    {
      queries, groups, cache, nextId, answered, sends := map[], map[], map[], firstId, map[], [];
      book, idOf, due := Book([], map[], map[]), map[], {};
    }

    /** A valid name gets an unused id exactly when fewer than 65536 are outstanding. */
    method BuildUniqueDnsQuery(encodeError: Option<Error>) returns (r: Built)
      requires nextId < IDS && forall id :: id in queries ==> id < IDS
      modifies this`nextId
      ensures nextId < IDS
      ensures encodeError.Some? ==> r == NoId(encodeError.value)
      ensures encodeError.None? ==> (r.Id? <==> |queries| < 65536)
      ensures r.Id? ==> r.id < 65536 && r.id !in queries
      ensures encodeError.None? && r.NoId? ==> r.error == Other("DNS transaction ID exhausted")
    {
      ghost var start := nextId;
      UnusedIffRoom(queries);
      for k := 0 to IDS
        invariant nextId == (start + k) % IDS
        invariant forall id: nat :: id < IDS && (if id >= start then id - start else id + IDS - start) < k ==>
                    id in queries
        invariant k > 0 ==> encodeError.None?
      {
        var id := nextId;
        nextId := (nextId + 1) % IDS;
        if encodeError.Some? {
          return NoId(encodeError.value);
        }
        if id !in queries {
          return Id(id);
        }
      }
      return NoId(Other("DNS transaction ID exhausted"));
    }

    /** Records a result for a family whose query is not outstanding. */
    method Record(q: Query, o: Outcome)
      requires Consistent() && q in due
      modifies this`groups, this`book, this`due
      ensures Consistent() && due == old(due) - {q} && Open(old(groups), q)
      ensures groups == old(groups)[q.group := WithResult(old(groups)[q.group], q.family, o)]
      ensures book == old(book).(heard := old(book).heard[Slot(RequestOf(old(book), q.group), q.family) := o])
    {
      RecordedQuery(groups, queries, idOf, due, q, o);
      ghost var book' := book.(heard := book.heard[Slot(RequestOf(book, q.group), q.family) := o]);
      RecordResult(groups, book, answered, q, o, book');
      book := book';
      groups := groups[q.group := WithResult(groups[q.group], q.family, o)];
      due := due - {q};
    }

    /** Uses a responder. */
    method SendReply(request: nat, reply: Reply)
      requires SendsInv(sends, answered) && request !in answered
      modifies this`answered, this`sends
      ensures SendsInv(sends, answered) && sends == old(sends) + [Send(request, reply)]
      ensures answered == old(answered)[request := reply]
    {
      SendOnce(sends, answered, request, reply);
      answered, sends := answered[request := reply], sends + [Send(request, reply)];
    }

    /** Answers what can be answered, and drops the group once both results are in. Nothing is left in
        `queries` for it to take out. */
    method TryResolve(g: nat, now: nat)
      requires Consistent() && SettledBut(groups, g)
      modifies this`queries, this`groups, this`cache, this`answered, this`sends
      ensures Consistent() && AllSettled(groups) && queries == old(queries) && Kept(old(answered), answered)
      ensures groups - {g} == old(groups) - {g}
      ensures g in groups <==> g in old(groups) && !Both(old(groups)[g])
      ensures g in groups ==> groups[g] == old(groups)[g].(single := groups[g].single)
      ensures cache == if g in old(groups) then CacheAfter(old(cache), old(groups)[g], now) else old(cache)
    {
      if g !in groups {
        SettledAll(groups, g);
        return;
      }
      if Both(groups[g]) {
        Complete(g, now);
      } else {
        AnswerEarly(g);
      }
    }

    /** A single resolve is answered by the first result with records. */
    method AnswerEarly(g: nat)
      requires Consistent() && g in groups && !Both(groups[g]) && SettledBut(groups, g)
      modifies this`groups, this`answered, this`sends
      ensures Consistent() && AllSettled(groups) && Kept(old(answered), answered)
      ensures g in groups && groups[g] == old(groups)[g].(single := groups[g].single)
      ensures groups - {g} == old(groups) - {g}
    {
      var group := groups[g];
      if group.single.Some? {
        var reply := SingleReply(group);
        if reply.Some? {
          AnswerSingle(groups, book, answered, g, reply.value);
          SameResults(groups, groups[g := group.(single := None)], queries, idOf, due);
          SendReply(group.single.value, reply.value);
          groups := groups[g := group.(single := None)];
        }
      }
      SettledOne(old(groups), groups, g);
    }

    method Complete(g: nat, now: nat)
      requires Consistent() && g in groups && Both(groups[g]) && SettledBut(groups, g)
      modifies this`queries, this`groups, this`cache, this`answered, this`sends
      ensures Consistent() && AllSettled(groups) && Kept(old(answered), answered)
      ensures queries == old(queries) && groups == old(groups) - {g}
      ensures answered == Sent(old(answered), old(groups)[g])
      ensures cache == CacheAfter(old(cache), old(groups)[g], now)
    {
      CompleteGroup(groups, book, answered, g);
      NoQueryLeft(groups, queries, idOf, due, g);
      ResponderIsUnused(groups, book, answered, g);
      var group := groups[g];
      if group.single.Some? {
        SendReply(group.single.value, SingleReply(group).value);
      }
      var records := RecordsOf(group.v4.value) + RecordsOf(group.v6.value);
      if records != [] {
        cache := Inserted(cache, group.domain, records, now);
      }
      if group.all.Some? {
        SendReply(group.all.value, AllReply(group.v4.value, group.v6.value));
      }
      groups := groups - {g};
      queries := QueriesWithout(queries, g);
      assert queries == old(queries);
      SettledRest(old(groups), g);
    }

    /** Sends a due query under an unused id, or records why it was not sent. */
    method Dispatch(q: Query, encodeError: Option<Error>, sends: bool, now: nat)
      requires Consistent() && AllSettled(groups) && q in due
      modifies this
      ensures Consistent() && AllSettled(groups) && due == old(due) - {q} && Kept(old(answered), answered)
      ensures book.asks == old(book).asks && book.requestOf == old(book).requestOf
      ensures DispatchError(encodeError, |old(queries)|, sends).None? ==>
                && groups == old(groups) && answered == old(answered) && book == old(book)
                && |queries| == |old(queries)| + 1
                && exists id: nat :: id !in old(queries) && queries == old(queries)[id := q]
      ensures var error := DispatchError(encodeError, |old(queries)|, sends);
              error.Some? ==>
                && queries == old(queries) && q.group in old(groups)
                && StaysUnless(WithResult(old(groups)[q.group], q.family, Failure(error.value)), groups, q.group)
                && groups - {q.group} == old(groups) - {q.group}
                && book.heard == old(book).heard[Slot(RequestOf(old(book), q.group), q.family) := Failure(error.value)]
    {
      IdsBelow(queries, groups, idOf, due);
      var built := BuildUniqueDnsQuery(encodeError);
      if built.Id? && sends {
        Outstanding(groups, queries, idOf, due, q, built.id);
        OneMore(queries, built.id, q);
        queries := queries[built.id := q];
        idOf := idOf[q := built.id];
        due := due - {q};
      } else {
        RecordAndResolve(q, Failure(if built.NoId? then built.error else Other("DNS send failed")), now);
      }
    }

    method RecordAndResolve(q: Query, o: Outcome, now: nat)
      requires Consistent() && AllSettled(groups) && q in due
      modifies this`queries, this`groups, this`cache, this`answered, this`sends, this`book, this`due
      ensures Consistent() && AllSettled(groups) && due == old(due) - {q} && Kept(old(answered), answered)
      ensures queries == old(queries) && groups - {q.group} == old(groups) - {q.group} && q.group in old(groups)
      ensures book == old(book).(heard := old(book).heard[Slot(RequestOf(old(book), q.group), q.family) := o])
      ensures cache == CacheAfter(old(cache), WithResult(old(groups)[q.group], q.family, o), now)
      ensures StaysUnless(WithResult(old(groups)[q.group], q.family, o), groups, q.group)
    {
      Record(q, o);
      SettledElsewhere(old(groups), groups, q.group);
      TryResolve(q.group, now);
    }

    method InsertGroup(g: nat, group: Group, ghost ask: Ask)
      requires Valid() && g !in groups && ask.group == g && group.v4.None? && group.v6.None?
      requires group.single == (if ask.all then None else Some(|book.asks|))
      requires group.all == (if ask.all then Some(|book.asks|) else None)
      requires ask.all || group.prefer6 == ask.prefer6
      modifies this`groups, this`book, this`due
      ensures Consistent() && AllSettled(groups) && due == {Query(g, A), Query(g, AAAA)}
      ensures groups == old(groups)[g := group] && book.asks == old(book).asks + [ask]
      ensures book.heard == old(book).heard && RequestOf(book, g) == |old(book).asks|
    {
      ghost var book' := Book(book.asks + [ask], book.requestOf[g := |book.asks|], book.heard);
      AddGroup(groups, book, answered, g, group, ask, book');
      NewGroupOwes(groups, queries, idOf, g, group);
      SettledNew(groups, g, group);
      groups := groups[g := group];
      book, due := book', {Query(g, A), Query(g, AAAA)};
    }

    /** A resolve or resolve-all request, numbered in order, that the cache did not answer. `g` is the
        next group number, not in use; the socket, the encoder and the send report their own errors. */
    method Start(
      request: nat, g: nat, domain: string, all: bool, prefer6: bool,
      socketError: Option<Error>, encodeError: Option<Error>, sends: Family -> bool, now: nat)
      requires Valid() && g !in groups && request == |book.asks|
      modifies this
      ensures Valid() && Kept(old(answered), answered) && book.asks == old(book).asks + [Ask(g, all, prefer6)]
      ensures var errors := StartErrors(socketError, encodeError, |old(queries)|, sends);
              && Heard(book, request, A) == AsFailure(errors.0) && Heard(book, request, AAAA) == AsFailure(errors.1)
              && (g in groups <==> errors.0.None? || errors.1.None?)
              && (errors == (None, None) ==> answered == old(answered) && |queries| == |old(queries)| + 2)
      ensures g in groups ==> groups[g].domain == domain && groups[g].createdAt == now
      ensures groups - {g} == old(groups)
    {
      NewGroup(request, g, domain, all, prefer6, now);
      ghost var heard := book.heard;
      Launch(g, socketError, encodeError, sends, now);
      HeardOfErrors(heard, book, request, StartErrors(socketError, encodeError, |old(queries)|, sends));
    }

    method NewGroup(request: nat, g: nat, domain: string, all: bool, prefer6: bool, now: nat)
      requires Valid() && g !in groups && request == |book.asks|
      modifies this`groups, this`book, this`due
      ensures Consistent() && AllSettled(groups) && due == {Query(g, A), Query(g, AAAA)}
      ensures book.asks == old(book).asks + [Ask(g, all, prefer6)] && RequestOf(book, g) == request
      ensures Slot(request, A) !in book.heard && Slot(request, AAAA) !in book.heard
      ensures g in groups && groups[g].v4.None? && groups[g].v6.None?
      ensures groups[g].domain == domain && groups[g].createdAt == now && groups - {g} == old(groups)
    {
      NotHeard(groups, book, answered);
      var group := Group(domain, None, None, None, None, now, all || prefer6);
      group := if all then group.(all := Some(request)) else group.(single := Some(request));
      Absent(groups, g);
      InsertGroup(g, group, Ask(g, all, prefer6));
      Elsewhere(old(groups), groups, g);
    }

    /** The queries of a new group go out, or both families fail. */
    method Launch(g: nat, socketError: Option<Error>, encodeError: Option<Error>, sends: Family -> bool, now: nat)
      requires Consistent() && AllSettled(groups) && due == {Query(g, A), Query(g, AAAA)}
      requires g in groups && groups[g].v4.None? && groups[g].v6.None?
      modifies this
      ensures Valid() && Kept(old(answered), answered)
      ensures book.asks == old(book).asks && book.requestOf == old(book).requestOf
      ensures var errors := StartErrors(socketError, encodeError, |old(queries)|, sends);
              && book.heard == HeardErrors(old(book).heard, RequestOf(old(book), g), errors)
              && (g in groups <==> errors.0.None? || errors.1.None?)
              && (errors == (None, None) ==> answered == old(answered) && |queries| == |old(queries)| + 2)
      ensures g in groups ==>
                groups[g].domain == old(groups)[g].domain && groups[g].createdAt == old(groups)[g].createdAt
      ensures groups - {g} == old(groups) - {g}
    {
      if socketError.Some? {
        FailGroup(g, socketError.value, now);
        Absent(groups, g);
      } else {
        DispatchBoth(g, encodeError, sends, now);
      }
    }

    method DispatchBoth(g: nat, encodeError: Option<Error>, sends: Family -> bool, now: nat)
      requires Consistent() && AllSettled(groups) && due == {Query(g, A), Query(g, AAAA)}
      requires g in groups && groups[g].v4.None? && groups[g].v6.None?
      modifies this
      ensures Valid() && Kept(old(answered), answered)
      ensures book.asks == old(book).asks && book.requestOf == old(book).requestOf
      ensures var errors := StartErrors(None, encodeError, |old(queries)|, sends);
              && book.heard == HeardErrors(old(book).heard, RequestOf(old(book), g), errors)
              && (g in groups <==> errors.0.None? || errors.1.None?)
              && (errors == (None, None) ==> answered == old(answered) && |queries| == |old(queries)| + 2)
      ensures g in groups ==>
                groups[g].domain == old(groups)[g].domain && groups[g].createdAt == old(groups)[g].createdAt
      ensures groups - {g} == old(groups) - {g}
    {
      Dispatch(Query(g, A), encodeError, sends(A), now);
      Dispatch(Query(g, AAAA), encodeError, sends(AAAA), now);
    }

    /** Both families of a new group fail at once. */
    method FailGroup(g: nat, error: Error, now: nat)
      requires Consistent() && AllSettled(groups) && due == {Query(g, A), Query(g, AAAA)}
      modifies this`queries, this`groups, this`cache, this`answered, this`sends, this`book, this`due
      ensures Valid() && Kept(old(answered), answered) && queries == old(queries)
      ensures book.asks == old(book).asks && book.requestOf == old(book).requestOf
      ensures g !in groups && groups == old(groups) - {g}
      ensures book.heard == old(book).heard[Slot(RequestOf(old(book), g), A) := Failure(error)]
                                           [Slot(RequestOf(old(book), g), AAAA) := Failure(error)]
    {
      Record(Query(g, A), Failure(error));
      SettledElsewhere(old(groups), groups, g);
      ghost var first := groups;
      Record(Query(g, AAAA), Failure(error));
      SettledElsewhere(first, groups, g);
      Elsewhere(old(groups), groups, g);
      TryResolve(g, now);
      Absent(groups, g);
    }

    /** A parsed response. One with an unknown id changes nothing; otherwise its id is free again and the
        result is the one heard for that family. A single resolve still waiting is answered by any result
        with records, whichever family was preferred. */
    method ProcessResponse(id: nat, o: Outcome, now: nat)
      requires Valid()
      modifies this
      ensures Valid() && Kept(old(answered), answered) && book.asks == old(book).asks
      ensures queries == old(queries) - {id}
      ensures id !in old(queries) ==>
                groups == old(groups) && answered == old(answered) && book == old(book) && cache == old(cache)
      ensures id in old(queries) ==>
                var q := old(queries)[id];
                && q.group in old(groups) && groups - {q.group} == old(groups) - {q.group}
                && cache == CacheAfter(old(cache), WithResult(old(groups)[q.group], q.family, o), now)
                && book.heard == old(book).heard[Slot(RequestOf(old(book), q.group), q.family) := o]
                && var single := old(groups)[q.group].single;
                   single.Some? && HasRecords(Some(o)) ==>
                     single.value in answered && answered[single.value] == One(o.records[0].address)
    {
      if id !in queries {
        assert queries - {id} == queries;
        return;
      }
      var q := queries[id];
      ghost var r := RequestOf(book, q.group);
      Returned(groups, queries, idOf, id);
      queries, idOf, due := queries - {id}, idOf - {q}, {q};
      assert GroupTied(q.group, groups, book, answered) && Settled(groups[q.group]);
      RecordAndResolve(q, o, now);
      if old(groups)[q.group].single.Some? && HasRecords(Some(o)) {
        FirstRecordsWin(groups, book, answered, r, q.family, o);
      }
    }

    /** Groups older than five seconds go, with their queries; a request not yet answered gets a timeout. */
    method ExpireGroups(now: nat)
      requires Valid()
      modifies this`groups, this`queries, this`answered, this`sends, this`idOf
      ensures Valid() && Kept(old(answered), answered)
      ensures groups == map g | g in old(groups) && now - old(groups)[g].createdAt <= 5 :: old(groups)[g]
      ensures queries == map id | id in old(queries) && old(queries)[id].group in groups :: old(queries)[id]
      ensures forall r :: r in answered && r !in old(answered) ==> answered[r].TimedOut?
    {
      var late := set g | g in groups && now - groups[g].createdAt > TIMEOUT_SECS;
      ghost var all := late;
      assert groups == groups - (all - late);
      AllQueriesLive(groups, queries, idOf);
      while late != {}
        invariant Valid() && late <= all
        invariant groups == old(groups) - (all - late) && queries == QueriesOf(old(queries), groups)
        invariant Kept(old(answered), answered)
        invariant forall r :: r in answered && r !in old(answered) ==> answered[r].TimedOut?
        decreases |late|
      {
        var g :| g in late;
        QueriesShrink(old(queries), groups, g);
        ExpireGroup(g);
        late := late - {g};
      }
      NotLate(old(groups), all, now);
    }

    method ExpireGroup(g: nat)
      requires Valid() && g in groups
      modifies this`groups, this`queries, this`answered, this`sends, this`idOf
      ensures Valid() && Kept(old(answered), answered) && groups == old(groups) - {g}
      ensures queries == QueriesWithout(old(queries), g)
      ensures forall r :: r in answered && r !in old(answered) ==> answered[r].TimedOut?
    {
      var group := groups[g];
      assert Settled(groups[g]);
      ResponderIsUnused(groups, book, answered, g);
      TimeOutGroup(groups, book, answered, g);
      GroupWithdrawn(groups, queries, idOf, g);
      SettledRest(groups, g);
      queries, idOf := QueriesWithout(queries, g), IdsWithout(idOf, g);
      groups := groups - {g};
      if group.single.Some? {
        SendReply(group.single.value, TimedOut);
      }
      if group.all.Some? {
        SendReply(group.all.value, TimedOut);
      }
    }
  }

  // ---------------------------------------------------------------- settled groups

  lemma HeardOfErrors(heard: map<Slot, Outcome>, book: Book, r: nat, errors: (Option<Error>, Option<Error>))
    requires Slot(r, A) !in heard && Slot(r, AAAA) !in heard && book.heard == HeardErrors(heard, r, errors)
    ensures Heard(book, r, A) == AsFailure(errors.0) && Heard(book, r, AAAA) == AsFailure(errors.1)
  {
  }

  lemma Absent(groups: Groups, g: nat)
    requires g !in groups
    ensures groups - {g} == groups
  {
  }

  lemma Elsewhere(groups: Groups, groups': Groups, g: nat)
    requires g in groups' && groups' == groups[g := groups'[g]]
    ensures groups' - {g} == groups - {g}
  {
  }

  lemma SettledAll(groups: Groups, g: nat)
    requires SettledBut(groups, g) && g !in groups
    ensures AllSettled(groups)
  {
  }

  lemma SettledOne(groups: Groups, groups': Groups, g: nat)
    requires SettledBut(groups, g) && g in groups' && Settled(groups'[g]) && groups' == groups[g := groups'[g]]
    ensures AllSettled(groups')
  {
    forall h | h in groups'
      ensures Settled(groups'[h])
    {
      assert h != g ==> Settled(groups[h]);
    }
  }

  lemma SettledRest(groups: Groups, g: nat)
    requires SettledBut(groups, g)
    ensures AllSettled(groups - {g})
  {
    forall h | h in groups - {g}
      ensures Settled((groups - {g})[h])
    {
      assert Settled(groups[h]);
    }
  }

  lemma SettledElsewhere(groups: Groups, groups': Groups, g: nat)
    requires SettledBut(groups, g) && g in groups' && groups' == groups[g := groups'[g]]
    ensures SettledBut(groups', g)
  {
    forall h | h in groups' && h != g
      ensures Settled(groups'[h])
    {
      assert Settled(groups[h]);
    }
  }

  lemma SettledNew(groups: Groups, g: nat, group: Group)
    requires AllSettled(groups) && g !in groups && group.v4.None? && group.v6.None?
    ensures AllSettled(groups[g := group])
  {
    assert Settled(group);
    SettledOne(groups, groups[g := group], g);
  }

  lemma OneMore(queries: map<nat, Query>, id: nat, q: Query)
    requires id !in queries
    ensures |queries[id := q]| == |queries| + 1
  {
    assert queries[id := q].Keys == queries.Keys + {id};
    assert |queries[id := q].Keys| == |queries.Keys| + 1;
  }

  /** The queries of live groups. */
  function QueriesOf(queries: map<nat, Query>, groups: Groups): map<nat, Query> {
    map id | id in queries && queries[id].group in groups :: queries[id]
  }

  lemma QueriesShrink(queries: map<nat, Query>, groups: Groups, g: nat)
    ensures QueriesWithout(QueriesOf(queries, groups), g) == QueriesOf(queries, groups - {g})
  {
  }

  lemma AllQueriesLive(groups: Groups, queries: map<nat, Query>, idOf: map<Query, nat>)
    requires QueryInv(groups, queries, idOf, {})
    ensures queries == QueriesOf(queries, groups)
  {
    ResultOrOneId(groups, queries, idOf);
  }

  /** Nothing was heard for a request yet to come. */
  lemma NotHeard(groups: Groups, book: Book, answered: Answers)
    requires RequestInv(groups, book, answered)
    ensures forall f :: Slot(|book.asks|, f) !in book.heard
  {
  }

  /** The error each family of a new request starts with, if any. */
  function StartErrors(socketError: Option<Error>, encodeError: Option<Error>, outstanding: nat, sends: Family -> bool)
    : (Option<Error>, Option<Error>)
  {
    if socketError.Some? then (socketError, socketError)
    else
      var first := DispatchError(encodeError, outstanding, sends(A));
      (first, DispatchError(encodeError, if first.None? then outstanding + 1 else outstanding, sends(AAAA)))
  }

  function HeardErrors(heard: map<Slot, Outcome>, r: nat, errors: (Option<Error>, Option<Error>)): map<Slot, Outcome> {
    var first := if errors.0.Some? then heard[Slot(r, A) := Failure(errors.0.value)] else heard;
    if errors.1.Some? then first[Slot(r, AAAA) := Failure(errors.1.value)] else first
  }

  /** A group that became `group` is live unless it has both results; only its responder may be used. */
  ghost predicate StaysUnless(group: Group, groups: Groups, g: nat) {
    && (g in groups <==> !Both(group))
    && (g in groups ==> groups[g] == group.(single := groups[g].single))
  }

  function AsFailure(error: Option<Error>): Option<Outcome> {
    if error.Some? then Some(Failure(error.value)) else None
  }

  lemma NotLate(groups: Groups, late: set<nat>, now: nat)
    requires forall g :: g in late <==> g in groups && now - groups[g].createdAt > TIMEOUT_SECS
    ensures groups - (late - {}) == map g | g in groups && now - groups[g].createdAt <= TIMEOUT_SECS :: groups[g]
  {
  }

  lemma IdsBelow(queries: map<nat, Query>, groups: Groups, idOf: map<Query, nat>, due: set<Query>)
    requires QueryInv(groups, queries, idOf, due)
    ensures forall id :: id in queries ==> id < IDS
  {
    forall id | id in queries
      ensures id < IDS
    {
      assert IdUsed(id, queries, idOf);
    }
  }
}
