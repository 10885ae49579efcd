/** Paired A and AAAA queries (src/net/tunnel/manager/dns_ops.rs, src/net/tunnel/manager/phases.rs,
    src/net/tunnel/dns.rs). A group belongs to one request, waits for one result per family, may answer
    a single resolve early, and goes away when both results are in or when it is too old. */
module DnsGroups {
  import opened Common
  import opened DnsCache

  const IDS: nat := 0x1_0000
  const TIMEOUT_SECS: nat := 5

  datatype Error = NoRecords | Timeout | Other(text: string)

  datatype Outcome = Found(records: seq<Record>) | Failure(error: Error)

  datatype Family = A | AAAA

  datatype Query = Query(group: nat, family: Family)

  /** `single` and `all` are the responders: the number of the request still to be answered. */
  datatype Group = Group(
    domain: string, single: Option<nat>, all: Option<nat>,
    v4: Option<Outcome>, v6: Option<Outcome>, createdAt: nat, prefer6: bool)

  datatype Reply = One(ip: Ip) | Many(ips: seq<Ip>) | Failed(error: Error) | TimedOut

  function ResultOf(g: Group, f: Family): Option<Outcome> {
    if f.A? then g.v4 else g.v6
  }

  function WithResult(g: Group, f: Family, o: Outcome): Group {
    if f.A? then g.(v4 := Some(o)) else g.(v6 := Some(o))
  }

  predicate HasRecords(o: Option<Outcome>) {
    o.Some? && o.value.Found? && o.value.records != []
  }

  predicate Both(g: Group) {
    g.v4.Some? && g.v6.Some?
  }

  /** The error reported for two results without records. */
  function Precedence(first: Outcome, second: Outcome): Error {
    if first.Failure? && !first.error.NoRecords? then first.error
    else if second.Failure? && !second.error.NoRecords? then second.error
    else NoRecords
  }

  /** The answer to a single resolve, as soon as there is one. */
  function Choose(first: Option<Outcome>, second: Option<Outcome>): Option<Reply> {
    if HasRecords(first) then Some(One(first.value.records[0].address))
    else if HasRecords(second) then Some(One(second.value.records[0].address))
    else if first.Some? && second.Some? then Some(Failed(Precedence(first.value, second.value)))
    else None
  }

  function RecordsOf(o: Outcome): seq<Record> {
    if o.Found? then o.records else []
  }

  function Addresses(records: seq<Record>): seq<Ip> {
    seq(|records|, i requires 0 <= i < |records| => records[i].address)
  }

  /** The cache once a group has both results: the records of both families, v4 first. */
  function CacheAfter(cache: Names, g: Group, now: nat): Names {
    if !Both(g) then cache
    else
      var records := RecordsOf(g.v4.value) + RecordsOf(g.v6.value);
      if records == [] then cache else Inserted(cache, g.domain, records, now)
  }

  /** The reported error for each pair of results: that of the first to fail with anything but the lack of
      records, and the lack of records only if nothing else failed. */
  lemma PrecedenceTable(e1: Error, e2: Error, r1: seq<Record>, r2: seq<Record>)
    ensures Precedence(Failure(e1), Failure(e2)) == if e1 == NoRecords then e2 else e1
    ensures Precedence(Failure(e1), Found(r2)) == e1 && Precedence(Found(r1), Failure(e2)) == e2
    ensures Precedence(Found(r1), Found(r2)) == NoRecords
  {
  }

  // ---------------------------------------------------------------- what happened

  /** A request: the group made for it, and what it asked for. */
  datatype Ask = Ask(group: nat, all: bool, prefer6: bool)

  datatype Slot = Slot(request: nat, family: Family)

  /** The history: requests by number, the request of each live group, and the result heard for each
      family of each request. */
  datatype Book = Book(asks: seq<Ask>, requestOf: map<nat, nat>, heard: map<Slot, Outcome>)

  function Heard(book: Book, r: nat, f: Family): Option<Outcome> {
    if Slot(r, f) in book.heard then Some(book.heard[Slot(r, f)]) else None
  }

  function RequestOf(book: Book, g: nat): nat {
    if g in book.requestOf then book.requestOf[g] else 0
  }

  predicate FirstOf(ip: Ip, o: Option<Outcome>) {
    HasRecords(o) && o.value.records[0].address == ip
  }

  /** What was heard for a request bears out the reply it got. */
  ghost predicate Justified(ask: Ask, reply: Reply, v4: Option<Outcome>, v6: Option<Outcome>) {
    match reply
    case One(ip) => !ask.all && (FirstOf(ip, v4) || FirstOf(ip, v6))
    case Many(ips) =>
      ask.all && v4.Some? && v6.Some? && ips != [] && ips == Addresses(RecordsOf(v4.value) + RecordsOf(v6.value))
    case Failed(e) =>
      && v4.Some? && v6.Some? && !HasRecords(v4) && !HasRecords(v6)
      && e == if ask.prefer6 && !ask.all then Precedence(v6.value, v4.value) else Precedence(v4.value, v6.value)
    case TimedOut => !(v4.Some? && v6.Some?) && (!ask.all ==> !HasRecords(v4) && !HasRecords(v6))
  }

  type Groups = map<nat, Group>
  type Answers = map<nat, Reply>

  /** A live group and its request: the responder is there until the request is answered, only an early
      success leaves a group without one, and the group holds what was heard. */
  ghost predicate Matches(g: Group, r: nat, book: Book, answered: Answers)
    requires r < |book.asks|
  {
    var ask := book.asks[r];
    && (ask.all || g.prefer6 == ask.prefer6)
    && g.single == (if !ask.all && r !in answered then Some(r) else None)
    && g.all == (if ask.all then Some(r) else None)
    && (r in answered ==> answered[r].One?)
    && g.v4 == Heard(book, r, A) && g.v6 == Heard(book, r, AAAA)
  }

  ghost predicate GroupTied(g: nat, groups: Groups, book: Book, answered: Answers)
    requires g in groups
  {
    var r := RequestOf(book, g);
    && g in book.requestOf && r < |book.asks| && book.asks[r].group == g
    && Matches(groups[g], r, book, answered)
  }

  ghost predicate Tied(groups: Groups, book: Book, answered: Answers) {
    forall g {:trigger GroupTied(g, groups, book, answered)} :: g in groups ==> GroupTied(g, groups, book, answered)
  }

  /** A request without an answer has its group. */
  ghost predicate Remembered(r: nat, groups: Groups, book: Book, answered: Answers)
    requires r < |book.asks|
  {
    r in answered || (var g := book.asks[r].group; g in groups && g in book.requestOf && book.requestOf[g] == r)
  }

  ghost predicate NoneForgotten(groups: Groups, book: Book, answered: Answers) {
    forall r: nat {:trigger Remembered(r, groups, book, answered)} ::
      r < |book.asks| ==> Remembered(r, groups, book, answered)
  }

  ghost predicate AnswerHolds(r: nat, book: Book, answered: Answers)
    requires r in answered
  {
    r < |book.asks| && Justified(book.asks[r], answered[r], Heard(book, r, A), Heard(book, r, AAAA))
  }

  ghost predicate AllJustified(book: Book, answered: Answers) {
    && (forall r {:trigger AnswerHolds(r, book, answered)} :: r in answered ==> AnswerHolds(r, book, answered))
    && (forall s :: s in book.heard ==> s.request < |book.asks|)
  }

  ghost predicate RequestInv(groups: Groups, book: Book, answered: Answers) {
    Tied(groups, book, answered) && NoneForgotten(groups, book, answered) && AllJustified(book, answered)
  }

  /** Between two steps: a live group lacks a result, and a single resolve still waiting has heard no
      records. */
  ghost predicate Settled(g: Group) {
    !Both(g) && (g.single.Some? ==> !HasRecords(g.v4) && !HasRecords(g.v6))
  }

  ghost predicate SettledBut(groups: Groups, except: nat) {
    forall g {:trigger Settled(groups[g])} :: g in groups && g != except ==> Settled(groups[g])
  }

  ghost predicate AllSettled(groups: Groups) {
    forall g {:trigger Settled(groups[g])} :: g in groups ==> Settled(groups[g])
  }

  predicate Open(groups: Groups, q: Query) {
    q.group in groups && ResultOf(groups[q.group], q.family).None?
  }

  ghost predicate Pending(q: Query, groups: Groups, queries: map<nat, Query>, idOf: map<Query, nat>, due: set<Query>) {
    && (Open(groups, q) <==> q in idOf || q in due)
    && !(q in idOf && q in due)
    && (q in idOf ==> idOf[q] in queries && queries[idOf[q]] == q)
  }

  ghost predicate IdUsed(id: nat, queries: map<nat, Query>, idOf: map<Query, nat>)
    requires id in queries
  {
    id < IDS && queries[id] in idOf && idOf[queries[id]] == id
  }

  /** A result is missing exactly when its query is outstanding, under one id, or still `due` to be sent. */
  ghost predicate QueryInv(groups: Groups, queries: map<nat, Query>, idOf: map<Query, nat>, due: set<Query>) {
    && (forall q {:trigger Pending(q, groups, queries, idOf, due)} :: Pending(q, groups, queries, idOf, due))
    && (forall id {:trigger IdUsed(id, queries, idOf)} :: id in queries ==> IdUsed(id, queries, idOf))
  }

  // ---------------------------------------------------------------- changes of groups and requests

  /** A new group, for a new request. */
  lemma AddGroup(groups: Groups, book: Book, answered: Answers, g: nat, group: Group, ask: Ask, book': Book)
    requires RequestInv(groups, book, answered) && g !in groups
    requires ask.group == g && group.v4.None? && group.v6.None?
    requires book' == Book(book.asks + [ask], book.requestOf[g := |book.asks|], book.heard)
    requires group.single == (if ask.all then None else Some(|book.asks|))
    requires group.all == (if ask.all then Some(|book.asks|) else None)
    requires ask.all || group.prefer6 == ask.prefer6
    ensures RequestInv(groups[g := group], book', answered)
  {
    var n, groups' := |book.asks|, groups[g := group];
    assert n in answered ==> AnswerHolds(n, book, answered);
    forall h | h in groups'
      ensures GroupTied(h, groups', book', answered)
    {
      if h == g {
        assert Slot(n, A) !in book.heard && Slot(n, AAAA) !in book.heard;
      } else {
        assert GroupTied(h, groups, book, answered);
      }
    }
    forall r: nat | r < |book'.asks|
      ensures Remembered(r, groups', book', answered)
    {
      if r < n {
        assert Remembered(r, groups, book, answered);
      }
    }
    forall r | r in answered
      ensures AnswerHolds(r, book', answered)
    {
      assert AnswerHolds(r, book, answered);
    }
  }

  /** A result is recorded for an open family. */
  lemma RecordResult(groups: Groups, book: Book, answered: Answers, q: Query, o: Outcome, book': Book)
    requires RequestInv(groups, book, answered) && Open(groups, q)
    requires book' == book.(heard := book.heard[Slot(RequestOf(book, q.group), q.family) := o])
    ensures RequestInv(groups[q.group := WithResult(groups[q.group], q.family, o)], book', answered)
  {
    var r := RequestOf(book, q.group);
    assert GroupTied(q.group, groups, book, answered);
    var groups' := groups[q.group := WithResult(groups[q.group], q.family, o)];
    forall h | h in groups'
      ensures GroupTied(h, groups', book', answered)
    {
      assert GroupTied(h, groups, book, answered);
    }
    forall a: nat | a < |book'.asks|
      ensures Remembered(a, groups', book', answered)
    {
      assert Remembered(a, groups, book, answered);
    }
    forall a | a in answered
      ensures AnswerHolds(a, book', answered)
    {
      assert AnswerHolds(a, book, answered);
    }
  }

  /** A live group's single responder is used. */
  lemma AnswerSingle(groups: Groups, book: Book, answered: Answers, g: nat, reply: Reply)
    requires RequestInv(groups, book, answered) && g in groups && groups[g].single.Some? && reply.One?
    requires FirstOf(reply.ip, groups[g].v4) || FirstOf(reply.ip, groups[g].v6)
    ensures groups[g].single.value == RequestOf(book, g) && RequestOf(book, g) !in answered
    ensures RequestInv(groups[g := groups[g].(single := None)], book, answered[RequestOf(book, g) := reply])
  {
    var r := RequestOf(book, g);
    assert GroupTied(g, groups, book, answered);
    var groups', answered' := groups[g := groups[g].(single := None)], answered[r := reply];
    forall h | h in groups'
      ensures GroupTied(h, groups', book, answered')
    {
      assert GroupTied(h, groups, book, answered);
    }
    forall a: nat | a < |book.asks|
      ensures Remembered(a, groups', book, answered')
    {
      assert Remembered(a, groups, book, answered);
    }
    forall a | a in answered'
      ensures AnswerHolds(a, book, answered')
    {
      if a != r {
        assert AnswerHolds(a, book, answered);
      }
    }
  }

  /** A group goes, its request answered before, or now with a reply its results bear out. */
  lemma RemoveGroup(groups: Groups, book: Book, answered: Answers, g: nat, answered': Answers)
    requires RequestInv(groups, book, answered) && g in groups
    requires Kept(answered, answered') && answered'.Keys == answered.Keys + {RequestOf(book, g)}
    requires RequestOf(book, g) < |book.asks|
    requires RequestOf(book, g) in answered ||
             Justified(book.asks[RequestOf(book, g)], answered'[RequestOf(book, g)], groups[g].v4, groups[g].v6)
    ensures RequestInv(groups - {g}, book, answered')
  {
    var r, groups' := RequestOf(book, g), groups - {g};
    assert GroupTied(g, groups, book, answered);
    forall h | h in groups'
      ensures GroupTied(h, groups', book, answered')
    {
      assert GroupTied(h, groups, book, answered);
    }
    forall a: nat | a < |book.asks|
      ensures Remembered(a, groups', book, answered')
    {
      assert Remembered(a, groups, book, answered);
    }
    forall a | a in answered'
      ensures AnswerHolds(a, book, answered')
    {
      if a in answered {
        assert AnswerHolds(a, book, answered);
      }
    }
  }

  function SingleReply(g: Group): Option<Reply> {
    if g.prefer6 then Choose(g.v6, g.v4) else Choose(g.v4, g.v6)
  }

  function AllReply(v4: Outcome, v6: Outcome): Reply {
    var records := RecordsOf(v4) + RecordsOf(v6);
    if records == [] then Failed(Precedence(v4, v6)) else Many(Addresses(records))
  }

  /** A resolve-all names every record of both families, v4 first, in the order they were heard; a failed
      family takes nothing away from the other; without any record it fails. */
  lemma AllReplyNamesEveryRecord(a: seq<Record>, b: seq<Record>, e: Error)
    ensures a + b != [] ==>
              && AllReply(Found(a), Found(b)).Many? && var ips := AllReply(Found(a), Found(b)).ips;
              && |ips| == |a| + |b|
              && (forall i :: 0 <= i < |a| ==> ips[i] == a[i].address)
              && (forall j :: 0 <= j < |b| ==> ips[|a| + j] == b[j].address)
    ensures a != [] ==>
              && AllReply(Found(a), Failure(e)).Many? && var ips := AllReply(Found(a), Failure(e)).ips;
              && |ips| == |a| && forall i :: 0 <= i < |a| ==> ips[i] == a[i].address
    ensures b != [] ==>
              && AllReply(Failure(e), Found(b)).Many? && var ips := AllReply(Failure(e), Found(b)).ips;
              && |ips| == |b| && forall j :: 0 <= j < |b| ==> ips[j] == b[j].address
    ensures AllReply(Found([]), Found([])) == Failed(NoRecords)
    ensures AllReply(Failure(e), Found([])) == Failed(e) && AllReply(Found([]), Failure(e)) == Failed(e)
  {
  }

  /** The name of a complete group yields, at any time, the unexpired records of both families, v4 first;
      other names are untouched. */
  lemma CacheHoldsBothFamilies(cache: Names, g: Group, a: seq<Record>, b: seq<Record>, now: nat, t: nat)
    requires g.v4 == Some(Found(a)) && g.v6 == Some(Found(b)) && a + b != []
    ensures var after := CacheAfter(cache, g, now);
            && g.domain in after && Alive(after[g.domain], t) == Fresh(a + b, now, t)
            && after - {g.domain} == cache - {g.domain}
  {
    StampedAlive(a + b, now, t);
  }

  /** A failed family takes nothing away from the other. */
  lemma CacheHoldsOneFamily(cache: Names, g: Group, a: seq<Record>, e: Error, now: nat, t: nat)
    requires a != []
    requires || (g.v4 == Some(Found(a)) && g.v6 == Some(Failure(e)))
             || (g.v4 == Some(Failure(e)) && g.v6 == Some(Found(a)))
    ensures var after := CacheAfter(cache, g, now);
            && g.domain in after && Alive(after[g.domain], t) == Fresh(a, now, t)
            && after - {g.domain} == cache - {g.domain}
  {
    StampedAlive(a, now, t);
    assert a + [] == a && [] + a == a;
  }

  /** Without any record, or before both results are in, the cache stays. */
  lemma CacheStays(cache: Names, g: Group, now: nat)
    requires (!HasRecords(g.v4) && !HasRecords(g.v6)) || !Both(g)
    ensures CacheAfter(cache, g, now) == cache
  {
  }

  /** The answers once a complete group has used its responders. */
  function Sent(answered: Answers, g: Group): Answers
    requires Both(g)
  {
    if g.single.Some? then answered[g.single.value := SingleReply(g).value]
    else if g.all.Some? then answered[g.all.value := AllReply(g.v4.value, g.v6.value)]
    else answered
  }

  /** The replies a complete group sends are the ones its results bear out. */
  lemma FinalReplies(g: Group, ask: Ask)
    requires Both(g) && (ask.all || g.prefer6 == ask.prefer6)
    ensures !ask.all ==> Justified(ask, SingleReply(g).value, g.v4, g.v6)
    ensures ask.all ==> Justified(ask, AllReply(g.v4.value, g.v6.value), g.v4, g.v6)
  {
  }

  lemma CompleteGroup(groups: Groups, book: Book, answered: Answers, g: nat)
    requires RequestInv(groups, book, answered) && g in groups && Both(groups[g])
    ensures RequestInv(groups - {g}, book, Sent(answered, groups[g]))
    ensures Kept(answered, Sent(answered, groups[g]))
    ensures groups[g].single.None? || groups[g].all.None?
  {
    assert GroupTied(g, groups, book, answered);
    var r := RequestOf(book, g);
    assert r in answered ==> AnswerHolds(r, book, answered);
    FinalReplies(groups[g], book.asks[r]);
    RemoveGroup(groups, book, answered, g, Sent(answered, groups[g]));
  }

  /** The answers once an expired group has used its responders. */
  function TimedOutAnswers(answered: Answers, g: Group): Answers {
    if g.single.Some? then answered[g.single.value := TimedOut]
    else if g.all.Some? then answered[g.all.value := TimedOut]
    else answered
  }

  lemma TimeOutGroup(groups: Groups, book: Book, answered: Answers, g: nat)
    requires RequestInv(groups, book, answered) && g in groups && Settled(groups[g])
    ensures RequestInv(groups - {g}, book, TimedOutAnswers(answered, groups[g]))
    ensures Kept(answered, TimedOutAnswers(answered, groups[g]))
    ensures groups[g].single.None? || groups[g].all.None?
    ensures forall r :: r in TimedOutAnswers(answered, groups[g]) && r !in answered ==>
              TimedOutAnswers(answered, groups[g])[r].TimedOut?
  {
    assert GroupTied(g, groups, book, answered);
    var r := RequestOf(book, g);
    assert r in answered ==> AnswerHolds(r, book, answered);
    RemoveGroup(groups, book, answered, g, TimedOutAnswers(answered, groups[g]));
  }

  /** Why a query was not sent, if it was not: its name, no free id, or the socket. */
  function DispatchError(encodeError: Option<Error>, outstanding: nat, sends: bool): Option<Error> {
    if encodeError.Some? then encodeError
    else if outstanding >= IDS then Some(Other("DNS transaction ID exhausted"))
    else if !sends then Some(Other("DNS send failed"))
    else None
  }

  /** Records heard for one family while the other had none decide a single resolve. */
  lemma FirstRecordsWin(groups: Groups, book: Book, answered: Answers, r: nat, f: Family, o: Outcome)
    requires RequestInv(groups, book, answered) && AllSettled(groups)
    requires r < |book.asks| && !book.asks[r].all
    requires Heard(book, r, f) == Some(o) && HasRecords(Some(o))
    requires !HasRecords(Heard(book, r, if f.A? then AAAA else A))
    ensures r in answered && answered[r] == One(o.records[0].address)
  {
    assert Remembered(r, groups, book, answered);
    var g := book.asks[r].group;
    assert g in groups ==> GroupTied(g, groups, book, answered) && Settled(groups[g]);
    assert r in answered;
    assert AnswerHolds(r, book, answered);
  }

  // ---------------------------------------------------------------- changes of queries

  /** A result recorded for a query that is due. */
  lemma RecordedQuery(groups: Groups, queries: map<nat, Query>, idOf: map<Query, nat>, due: set<Query>, q: Query,
                      o: Outcome)
    requires QueryInv(groups, queries, idOf, due) && q in due
    ensures Open(groups, q)
    ensures QueryInv(groups[q.group := WithResult(groups[q.group], q.family, o)], queries, idOf, due - {q})
  {
    assert Pending(q, groups, queries, idOf, due);
    var groups' := groups[q.group := WithResult(groups[q.group], q.family, o)];
    forall p
      ensures Pending(p, groups', queries, idOf, due - {q})
    {
      assert Pending(p, groups, queries, idOf, due);
    }
  }

  /** Only the results of the groups matter. */
  lemma SameResults(groups: Groups, groups': Groups, queries: map<nat, Query>, idOf: map<Query, nat>, due: set<Query>)
    requires QueryInv(groups, queries, idOf, due)
    requires forall q :: Open(groups', q) <==> Open(groups, q)
    ensures QueryInv(groups', queries, idOf, due)
  {
    forall q
      ensures Pending(q, groups', queries, idOf, due)
    {
      assert Pending(q, groups, queries, idOf, due);
    }
  }

  /** A group with both results has no query outstanding. */
  lemma NoQueryLeft(groups: Groups, queries: map<nat, Query>, idOf: map<Query, nat>, due: set<Query>, g: nat)
    requires QueryInv(groups, queries, idOf, due) && g in groups && Both(groups[g])
    ensures forall id :: id in queries ==> queries[id].group != g
    ensures QueryInv(groups - {g}, queries, idOf, due)
  {
    forall id | id in queries
      ensures queries[id].group != g
    {
      assert IdUsed(id, queries, idOf);
      assert Pending(queries[id], groups, queries, idOf, due);
    }
    SameResults(groups, groups - {g}, queries, idOf, due);
  }

  /** A due query becomes outstanding under an unused id. */
  lemma Outstanding(groups: Groups, queries: map<nat, Query>, idOf: map<Query, nat>, due: set<Query>, q: Query, id: nat)
    requires QueryInv(groups, queries, idOf, due) && q in due && id !in queries && id < IDS
    ensures QueryInv(groups, queries[id := q], idOf[q := id], due - {q})
  {
    var queries', idOf', due' := queries[id := q], idOf[q := id], due - {q};
    forall p
      ensures Pending(p, groups, queries', idOf', due')
    {
      assert Pending(p, groups, queries, idOf, due);
    }
    forall i | i in queries'
      ensures IdUsed(i, queries', idOf')
    {
      if i != id {
        assert IdUsed(i, queries, idOf);
        assert Pending(q, groups, queries, idOf, due);
      }
    }
  }

  /** A new group owes both its queries. */
  lemma NewGroupOwes(groups: Groups, queries: map<nat, Query>, idOf: map<Query, nat>, g: nat, group: Group)
    requires QueryInv(groups, queries, idOf, {}) && g !in groups && group.v4.None? && group.v6.None?
    ensures QueryInv(groups[g := group], queries, idOf, {Query(g, A), Query(g, AAAA)})
  {
    var groups', due := groups[g := group], {Query(g, A), Query(g, AAAA)};
    forall q
      ensures Pending(q, groups', queries, idOf, due)
    {
      assert Pending(q, groups, queries, idOf, {});
      assert q == Query(q.group, q.family);
    }
  }

  /** A response frees its id; the family is open until the result is recorded. */
  lemma Returned(groups: Groups, queries: map<nat, Query>, idOf: map<Query, nat>, id: nat)
    requires QueryInv(groups, queries, idOf, {}) && id in queries
    ensures Open(groups, queries[id])
    ensures QueryInv(groups, queries - {id}, idOf - {queries[id]}, {queries[id]})
  {
    assert IdUsed(id, queries, idOf);
    forall p
      ensures Pending(p, groups, queries - {id}, idOf - {queries[id]}, {queries[id]})
    {
      assert Pending(p, groups, queries, idOf, {});
    }
    forall i | i in queries - {id}
      ensures IdUsed(i, queries - {id}, idOf - {queries[id]})
    {
      assert IdUsed(i, queries, idOf);
    }
    assert Pending(queries[id], groups, queries, idOf, {});
  }

  function QueriesWithout(queries: map<nat, Query>, g: nat): map<nat, Query> {
    map id | id in queries && queries[id].group != g :: queries[id]
  }

  function IdsWithout(idOf: map<Query, nat>, g: nat): map<Query, nat> {
    map q | q in idOf && q.group != g :: idOf[q]
  }

  /** A group and all its queries go together. */
  lemma GroupWithdrawn(groups: Groups, queries: map<nat, Query>, idOf: map<Query, nat>, g: nat)
    requires QueryInv(groups, queries, idOf, {})
    ensures QueryInv(groups - {g}, QueriesWithout(queries, g), IdsWithout(idOf, g), {})
  {
    forall p
      ensures Pending(p, groups - {g}, QueriesWithout(queries, g), IdsWithout(idOf, g), {})
    {
      assert Pending(p, groups, queries, idOf, {});
    }
    forall i | i in QueriesWithout(queries, g)
      ensures IdUsed(i, QueriesWithout(queries, g), IdsWithout(idOf, g))
    {
      assert IdUsed(i, queries, idOf);
    }
  }

  // ---------------------------------------------------------------- what the invariants say

  /** In every state between two operations: each family of each live group has exactly one of a result
      and an outstanding id, no query has two ids, and every outstanding id names a live group. */
  lemma ResultOrOneId(groups: Groups, queries: map<nat, Query>, idOf: map<Query, nat>)
    requires QueryInv(groups, queries, idOf, {})
    ensures forall g, f :: g in groups ==>
              (ResultOf(groups[g], f).None? <==> exists id :: id in queries && queries[id] == Query(g, f))
    ensures forall i, j :: i in queries && j in queries && queries[i] == queries[j] ==> i == j
    ensures forall id :: id in queries ==> id < IDS && queries[id].group in groups
  {
    forall g, f | g in groups
      ensures ResultOf(groups[g], f).None? <==> exists id :: id in queries && queries[id] == Query(g, f)
    {
      assert Pending(Query(g, f), groups, queries, idOf, {});
      if id :| id in queries && queries[id] == Query(g, f) {
        assert IdUsed(id, queries, idOf);
      }
    }
    forall i | i in queries
      ensures i < IDS && queries[i] in idOf && idOf[queries[i]] == i && queries[i].group in groups
    {
      assert IdUsed(i, queries, idOf);
      assert Pending(queries[i], groups, queries, idOf, {});
    }
  }

  // ---------------------------------------------------------------- what was sent

  datatype Send = Send(request: nat, reply: Reply)

  ghost predicate SentIs(i: nat, sends: seq<Send>, answered: Answers)
    requires i < |sends|
  {
    sends[i].request in answered && answered[sends[i].request] == sends[i].reply
  }

  ghost predicate WasSent(r: nat, sends: seq<Send>) {
    exists i :: 0 <= i < |sends| && sends[i].request == r
  }

  /** Each answer was sent, once. */
  ghost predicate SendsInv(sends: seq<Send>, answered: Answers) {
    && (forall i: nat {:trigger SentIs(i, sends, answered)} :: i < |sends| ==> SentIs(i, sends, answered))
    && (forall i, j :: 0 <= i < j < |sends| ==> sends[i].request != sends[j].request)
    && (forall r {:trigger WasSent(r, sends)} :: r in answered ==> WasSent(r, sends))
  }

  lemma SendOnce(sends: seq<Send>, answered: Answers, r: nat, reply: Reply)
    requires SendsInv(sends, answered) && r !in answered
    ensures SendsInv(sends + [Send(r, reply)], answered[r := reply])
  {
    var sends', answered' := sends + [Send(r, reply)], answered[r := reply];
    forall i: nat | i < |sends'|
      ensures SentIs(i, sends', answered')
    {
      if i < |sends| {
        assert SentIs(i, sends, answered);
      }
    }
    forall i, j | 0 <= i < j < |sends'|
      ensures sends'[i].request != sends'[j].request
    {
      assert SentIs(i, sends, answered);
    }
    forall a | a in answered'
      ensures WasSent(a, sends')
    {
      if a == r {
        assert sends'[|sends|].request == r;
      } else {
        assert WasSent(a, sends);
        var i :| 0 <= i < |sends| && sends[i].request == a;
        assert sends'[i].request == a;
      }
    }
  }

  /** A responder that a live group still holds has not been used. */
  lemma ResponderIsUnused(groups: Groups, book: Book, answered: Answers, g: nat)
    requires RequestInv(groups, book, answered) && g in groups
    ensures groups[g].single.Some? ==> groups[g].single.value !in answered
    ensures groups[g].all.Some? ==> groups[g].all.value !in answered
    ensures groups[g].single.None? || groups[g].all.None?
  {
    assert GroupTied(g, groups, book, answered);
    var r := RequestOf(book, g);
    assert r in answered ==> AnswerHolds(r, book, answered);
  }

  /** Exactly once: a request whose group is gone was sent one reply and no other, and no request is
      ever sent two. */
  lemma AnsweredExactlyOnce(groups: Groups, book: Book, answered: Answers, sends: seq<Send>, r: nat)
    requires RequestInv(groups, book, answered) && SendsInv(sends, answered) && r < |book.asks|
    ensures book.asks[r].group !in groups ==> exists i :: 0 <= i < |sends| && sends[i].request == r
    ensures forall i, j :: 0 <= i < |sends| && 0 <= j < |sends| && sends[i].request == sends[j].request ==> i == j
    ensures forall i :: 0 <= i < |sends| && sends[i].request == r ==>
              Justified(book.asks[r], sends[i].reply, Heard(book, r, A), Heard(book, r, AAAA))
  {
    AnsweredByRemoval(groups, book, answered, r);
    assert r in answered ==> WasSent(r, sends);
    forall i | 0 <= i < |sends| && sends[i].request == r
      ensures r in answered && answered[r] == sends[i].reply
    {
      assert SentIs(i, sends, answered);
    }
  }

  /** Every request has been answered by the time its group is gone, and every answer is borne out by
      what was heard for it. */
  lemma AnsweredByRemoval(groups: Groups, book: Book, answered: Answers, r: nat)
    requires RequestInv(groups, book, answered) && r < |book.asks|
    ensures r in answered || (book.asks[r].group in groups && RequestOf(book, book.asks[r].group) == r)
    ensures r in answered ==> Justified(book.asks[r], answered[r], Heard(book, r, A), Heard(book, r, AAAA))
  {
    assert Remembered(r, groups, book, answered);
    if r in answered {
      assert AnswerHolds(r, book, answered);
    }
  }

  // ---------------------------------------------------------------- transaction ids

  datatype Built = Id(id: nat) | NoId(error: Error)

  function Ids(n: nat): set<nat> {
    if n == 0 then {} else Ids(n - 1) + {n - 1}
  }

  lemma {:induction false} IdsAre(n: nat)
    ensures |Ids(n)| == n
    ensures forall i: nat :: i in Ids(n) <==> i < n
  {
    if n > 0 {
      IdsAre(n - 1);
    }
  }

  lemma RoomBelow(keys: set<nat>, n: nat)
    requires forall id :: id in keys ==> id < n
    ensures |keys| < n <==> exists id: nat :: id < n && id !in keys
  {
    var all := Ids(n);
    IdsAre(n);
    assert all == keys + (all - keys);
    if |keys| < n {
      var id :| id in all - keys;
      assert id < n && id !in keys;
    } else {
      assert |all - keys| == 0;
      assert forall id: nat :: id < n ==> id in all;
    }
  }

  /** Some id is unused exactly when fewer than all are outstanding. */
  lemma UnusedIffRoom(queries: map<nat, Query>)
    requires forall id :: id in queries ==> id < IDS
    ensures |queries| < IDS <==> exists id: nat :: id < IDS && id !in queries
  {
    assert |queries| == |queries.Keys|;
    RoomBelow(queries.Keys, IDS);
    if id: nat :| id < IDS && id !in queries {
      assert id !in queries.Keys;
    }
    if id: nat :| id < IDS && id !in queries.Keys {
      assert id !in queries;
    }
  }
}
