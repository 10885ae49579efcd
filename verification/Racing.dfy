/** Happy Eyeballs, sections 4 and 5 of RFC 8305: the order of the addresses
    (`interleave_addresses`, src/net/proxy/socks5.rs) and the race of connections to them
    (`handle_tcp_connect_racing` and `race_connections_event_driven`, src/net/proxy/socks5/tcp.rs). */
module Racing {
  import opened Common
  import opened DnsCache
  import opened Waiters

  // ---------------------------------------------------------------- the order of the addresses

  function Interleaved(v6: seq<Ip>, v4: seq<Ip>): seq<Ip> {
    if v6 == [] then v4
    else if v4 == [] then v6
    else [v6[0], v4[0]] + Interleaved(v6[1..], v4[1..])
  }

  lemma {:induction false} FamilyOfSum(a: seq<Ip>, b: seq<Ip>, v6: bool)
    ensures OfFamily(a + b, v6) == OfFamily(a, v6) + OfFamily(b, v6)
  {
    if b == [] {
      assert a + b == a;
    } else {
      var n := |b| - 1;
      assert (a + b)[..|a| + n] == a + b[..n];
      FamilyOfSum(a, b[..n], v6);
    }
  }

  lemma {:induction false} OneFamily(ips: seq<Ip>, v6: bool)
    requires forall i :: 0 <= i < |ips| ==> ips[i].V6? == v6
    ensures OfFamily(ips, v6) == ips && OfFamily(ips, !v6) == []
  {
    if ips != [] {
      OneFamily(ips[..|ips| - 1], v6);
    }
  }

  /** Each family keeps its order. */
  lemma {:induction false} InterleavedFamilies(v6: seq<Ip>, v4: seq<Ip>)
    requires forall i :: 0 <= i < |v6| ==> v6[i].V6?
    requires forall i :: 0 <= i < |v4| ==> v4[i].V4?
    ensures OfFamily(Interleaved(v6, v4), true) == v6 && OfFamily(Interleaved(v6, v4), false) == v4
    decreases |v6|
  {
    if v6 == [] {
      OneFamily(v4, false);
    } else if v4 == [] {
      OneFamily(v6, true);
    } else {
      InterleavedFamilies(v6[1..], v4[1..]);
      PairFamily(v6[0], v4[0], Interleaved(v6[1..], v4[1..]), true);
      PairFamily(v6[0], v4[0], Interleaved(v6[1..], v4[1..]), false);
    }
  }

  lemma SingleFamily(ip: Ip, v6: bool)
    ensures OfFamily([ip], v6) == if ip.V6? == v6 then [ip] else []
  {
    assert [ip][..0] == [];
  }

  lemma PairFamily(a: Ip, b: Ip, rest: seq<Ip>, v6: bool)
    requires a.V6? && b.V4?
    ensures OfFamily([a, b] + rest, v6) == [if v6 then a else b] + OfFamily(rest, v6)
  {
    FamilyOfSum([a, b], rest, v6);
    assert [a, b] == [a] + [b];
    FamilyOfSum([a], [b], v6);
    SingleFamily(a, v6);
    SingleFamily(b, v6);
  }

  /** Families alternate, v6 first, while both last. */
  lemma {:induction false} InterleavedAlternates(v6: seq<Ip>, v4: seq<Ip>)
    requires forall i :: 0 <= i < |v6| ==> v6[i].V6?
    requires forall i :: 0 <= i < |v4| ==> v4[i].V4?
    ensures |Interleaved(v6, v4)| == |v6| + |v4|
    ensures forall i :: 0 <= i < 2 * Min(|v6|, |v4|) ==> (Interleaved(v6, v4)[i].V6? <==> i % 2 == 0)
    decreases |v6|
  {
    if v6 != [] && v4 != [] {
      var rest := Interleaved(v6[1..], v4[1..]);
      InterleavedAlternates(v6[1..], v4[1..]);
      forall i | 0 <= i < 2 * Min(|v6|, |v4|)
        ensures Interleaved(v6, v4)[i].V6? <==> i % 2 == 0
      {
        if i >= 2 {
          assert Interleaved(v6, v4)[i] == rest[i - 2];
        }
      }
    }
  }

  lemma {:induction false} FamiliesAreAll(ips: seq<Ip>)
    ensures multiset(ips) == multiset(OfFamily(ips, true)) + multiset(OfFamily(ips, false))
  {
    if ips != [] {
      var n := |ips| - 1;
      FamiliesAreAll(ips[..n]);
      assert ips == ips[..n] + [ips[n]];
    }
  }

  lemma FamilyIsOne(ips: seq<Ip>, v6: bool)
    ensures forall i :: 0 <= i < |OfFamily(ips, v6)| ==> OfFamily(ips, v6)[i].V6? == v6
  {
    FamilyMembers(ips, v6);
    forall i | 0 <= i < |OfFamily(ips, v6)|
      ensures OfFamily(ips, v6)[i].V6? == v6
    {
      assert OfFamily(ips, v6)[i] in OfFamily(ips, v6);
    }
  }

  /** One address from each side in turn; `sorted` is the v6 addresses, then the v4 ones. */
  method TakeTurns(v6: seq<Ip>, v4: seq<Ip>) returns (r: seq<Ip>)
    ensures r == Interleaved(v6, v4)
  {
    var sorted := v6 + v4;
    var i, j := 0, |v6|;
    r := [];
    NoTurns(v6, v4);
    while i < |v6| || j < |sorted|
      invariant 0 <= i <= |v6| <= j <= |sorted|
      invariant TurnsTaken(v6, v4, r, i, j - |v6|)
      decreases |v6| - i + |sorted| - j
    {
      r, i, j := TakeOneTurn(v6, v4, |v6|, sorted, r, i, j);
    }
    AllTurns(v6, v4, r);
  }

  /** An address of each family that is left. */
  method TakeOneTurn(
    ghost v6: seq<Ip>, ghost v4: seq<Ip>, split: nat, sorted: seq<Ip>, r: seq<Ip>, i: nat, j: nat)
    returns (r': seq<Ip>, i': nat, j': nat)
    requires sorted == v6 + v4 && split == |v6| && i <= |v6| <= j <= |sorted| && (i < |v6| || j < |sorted|)
    requires TurnsTaken(v6, v4, r, i, j - |v6|)
    ensures i <= i' <= |v6| <= j' <= |sorted| && j <= j' && i + j < i' + j'
    ensures TurnsTaken(v6, v4, r', i', j' - |v6|)
  {
    OneTurn(v6, v4, r, i, j - |v6|);
    r', i', j' := r, i, j;
    if i < split {
      r', i' := r' + [sorted[i]], i + 1;
    }
    if j < |sorted| {
      r', j' := r' + [sorted[j]], j + 1;
    }
  }

  lemma NoTurns(v6: seq<Ip>, v4: seq<Ip>)
    ensures TurnsTaken(v6, v4, [], 0, 0)
  {
    assert v6[0..] == v6 && v4[0..] == v4;
  }

  lemma AllTurns(v6: seq<Ip>, v4: seq<Ip>, r: seq<Ip>)
    requires TurnsTaken(v6, v4, r, |v6|, |v4|)
    ensures r == Interleaved(v6, v4)
  {
    assert v6[|v6|..] == [] && v4[|v4|..] == [] && r + [] == r;
  }

  ghost predicate TurnsTaken(v6: seq<Ip>, v4: seq<Ip>, r: seq<Ip>, i: nat, k: nat)
    requires i <= |v6| && k <= |v4|
  {
    r + Interleaved(v6[i..], v4[k..]) == Interleaved(v6, v4)
  }

  lemma OneTurn(v6: seq<Ip>, v4: seq<Ip>, r: seq<Ip>, i: nat, k: nat)
    requires i <= |v6| && k <= |v4| && (i < |v6| || k < |v4|) && TurnsTaken(v6, v4, r, i, k)
    ensures i < |v6| && k < |v4| ==> TurnsTaken(v6, v4, r + [v6[i]] + [v4[k]], i + 1, k + 1)
    ensures i < |v6| && k == |v4| ==> TurnsTaken(v6, v4, r + [v6[i]], i + 1, k)
    ensures i == |v6| && k < |v4| ==> TurnsTaken(v6, v4, r + [v4[k]], i, k + 1)
  {
    if i < |v6| && k < |v4| {
      assert v6[i..][1..] == v6[i + 1..] && v4[k..][1..] == v4[k + 1..];
      assert Interleaved(v6[i..], v4[k..]) == [v6[i], v4[k]] + Interleaved(v6[i + 1..], v4[k + 1..]);
    } else if i < |v6| {
      assert v6[i..] == [v6[i]] + v6[i + 1..];
    } else {
      assert v4[k..] == [v4[k]] + v4[k + 1..];
    }
  }

  /** Families alternate, v6 first, while both last; each family keeps its order; nothing is added or
      lost. */
  method InterleaveAddresses(addresses: seq<Ip>) returns (r: seq<Ip>)
    ensures multiset(r) == multiset(addresses) && |r| == |addresses|
    ensures OfFamily(r, true) == OfFamily(addresses, true) && OfFamily(r, false) == OfFamily(addresses, false)
    ensures 2 * Min(|OfFamily(r, true)|, |OfFamily(r, false)|) <= |r|
    ensures forall i :: 0 <= i < 2 * Min(|OfFamily(r, true)|, |OfFamily(r, false)|) ==> (r[i].V6? <==> i % 2 == 0)
  {
    FamiliesPartition(addresses);
    if |addresses| <= 1 {
      return addresses;
    }
    var v6, v4 := OfFamily(addresses, true), OfFamily(addresses, false);   // the stable sort by family
    if |v6| == 0 || |v4| == 0 {
      return addresses;
    }
    r := TakeTurns(v6, v4);
    FamilyIsOne(addresses, true);
    FamilyIsOne(addresses, false);
    InterleavedAlternates(v6, v4);
    InterleavedFamilies(v6, v4);
    FamiliesAreAll(addresses);
    FamiliesAreAll(r);
  }

  // ---------------------------------------------------------------- the race

  /** What the event loop is given next: `timer` asks for the next address when there is one; otherwise
      one of the undelivered reports, picked by `index`. */
  datatype Turn = Turn(timer: bool, index: nat, state: State)

  datatype Error = NotStarted(text: string) | ConnectionClosed | AllFailed

  datatype Start = Started(handle: Handle) | Refused(error: Error)

  /** `Hangs`: neither an address nor a report is left to wait for, and the caller's timeout closes what
      is pending. */
  datatype Outcome = Won(handle: Handle) | Lost(error: Error) | Hangs

  function StartedBy(connect: nat -> Start, n: nat): seq<Handle> {
    if n == 0 then []
    else
      var before := StartedBy(connect, n - 1);
      if connect(n - 1).Started? then before + [connect(n - 1).handle] else before
  }

  /** Handles are distinct for the whole run. */
  ghost predicate DistinctHandles(connect: nat -> Start) {
    forall i, j :: 0 <= i < j && connect(i).Started? && connect(j).Started? ==> connect(i).handle != connect(j).handle
  }

  lemma {:induction false} NotYetStarted(connect: nat -> Start, n: nat, m: nat)
    requires DistinctHandles(connect) && n <= m && connect(m).Started?
    ensures connect(m).handle !in StartedBy(connect, n)
  {
    if n > 0 {
      NotYetStarted(connect, n - 1, m);
    }
  }

  /** What happened in a race: an address was tried, the number of its `connect`; or a turn told that a
      connection is in some state. */
  datatype Happening = Tried(number: nat) | Told(turn: nat, handle: Handle, state: State)

  /** A trace is of these inputs: attempts that were made, and turns, each later than the one before,
      that told what they say about a started connection. */
  ghost predicate Faithful(trace: seq<Happening>, connect: nat -> Start, turns: nat -> Turn, tries: nat, turn: nat) {
    && (forall i {:trigger Happened(trace, i, connect, turns, tries, turn)} ::
          0 <= i < |trace| ==> Happened(trace, i, connect, turns, tries, turn))
    && (forall i, j {:trigger InOrder(trace, i, j)} :: 0 <= i < j < |trace| ==> InOrder(trace, i, j))
  }

  ghost predicate Happened(
    trace: seq<Happening>, i: int, connect: nat -> Start, turns: nat -> Turn, tries: nat, turn: nat)
    requires 0 <= i < |trace|
  {
    match trace[i]
    case Tried(n) => n < tries
    case Told(k, h, state) => k < turn && state == turns(k).state && h in StartedBy(connect, tries)
  }

  ghost predicate InOrder(trace: seq<Happening>, i: int, j: int)
    requires 0 <= i < j < |trace|
  {
    trace[i].Told? && trace[j].Told? ==> trace[i].turn < trace[j].turn
  }

  ghost predicate Tells(trace: seq<Happening>, i: int, state: State)
    requires 0 <= i < |trace|
  {
    trace[i].Told? && trace[i].state == state
  }

  ghost predicate Says(trace: seq<Happening>, state: State) {
    exists i {:trigger Tells(trace, i, state)} :: 0 <= i < |trace| && Tells(trace, i, state)
  }

  /** The error of the last attempt that failed, refused or told closed. */
  ghost function LastError(trace: seq<Happening>, connect: nat -> Start): Option<Error> {
    if trace == [] then None
    else
      match trace[|trace| - 1]
      case Tried(n) =>
        if connect(n).Refused? then Some(connect(n).error) else LastError(trace[..|trace| - 1], connect)
      case Told(_, _, state) =>
        if state.Closed? then Some(ConnectionClosed) else LastError(trace[..|trace| - 1], connect)
  }

  lemma LastErrorSnoc(trace: seq<Happening>, last: Happening, connect: nat -> Start)
    ensures LastError(trace + [last], connect)
            == if last.Tried? && connect(last.number).Refused? then Some(connect(last.number).error)
               else if last.Told? && last.state.Closed? then Some(ConnectionClosed)
               else LastError(trace, connect)
  {
    assert (trace + [last])[..|trace|] == trace;
  }

  /** It is the error of an attempt or of a connection told closed, and nothing failed after that. */
  lemma {:induction false} LastErrorHasACause(trace: seq<Happening>, connect: nat -> Start)
    requires LastError(trace, connect).Some?
    ensures exists i :: FailsLast(trace, i, connect, LastError(trace, connect).value)
  {
    var n, e := |trace| - 1, LastError(trace, connect).value;
    if Fails(trace[n], connect, e) {
      assert FailsLast(trace, n, connect, e);
    } else {
      LastErrorHasACause(trace[..n], connect);
      var i :| FailsLast(trace[..n], i, connect, e);
      assert trace[i] == trace[..n][i];
      assert forall j :: i < j < n ==> trace[j] == trace[..n][j];
      assert FailsLast(trace, i, connect, e);
    }
  }

  /** Happening `i` failed with `e`, and none after it failed. */
  ghost predicate FailsLast(trace: seq<Happening>, i: int, connect: nat -> Start, e: Error) {
    && 0 <= i < |trace| && Fails(trace[i], connect, e)
    && forall j :: i < j < |trace| ==> Harmless(trace[j], connect)
  }

  ghost predicate Harmless(h: Happening, connect: nat -> Start) {
    match h
    case Tried(n) => connect(n).Started?
    case Told(_, _, state) => !state.Closed?
  }

  /** The handles of the connections that were started, and no other. */
  lemma {:induction false} StartedByMembers(connect: nat -> Start, n: nat)
    ensures forall h :: h in StartedBy(connect, n) <==> exists i: nat :: i < n && connect(i) == Started(h)
  {
    if n > 0 {
      StartedByMembers(connect, n - 1);
      forall h
        ensures h in StartedBy(connect, n) <==> exists i: nat :: i < n && connect(i) == Started(h)
      {
        if i: nat :| i < n && connect(i) == Started(h) {
          assert i < n - 1 ==> h in StartedBy(connect, n - 1);
        }
        if h in StartedBy(connect, n - 1) {
          var i: nat :| i < n - 1 && connect(i) == Started(h);
          assert i < n && connect(i) == Started(h);
        }
        if connect(n - 1) == Started(h) {
          assert n - 1 < n && connect(n - 1) == Started(h);
        }
      }
    }
  }

  ghost predicate Fails(h: Happening, connect: nat -> Start, e: Error) {
    match h
    case Tried(n) => connect(n) == Refused(e)
    case Told(_, _, state) => state.Closed? && e == ConnectionClosed
  }

  lemma FaithfulTry(trace: seq<Happening>, connect: nat -> Start, turns: nat -> Turn, tries: nat, turn: nat)
    requires Faithful(trace, connect, turns, tries, turn)
    ensures Faithful(trace + [Tried(tries)], connect, turns, tries + 1, turn)
  {
    Extend(trace, Tried(tries), connect, turns, tries, turn, tries + 1, turn);
  }

  /** A longer trace is of the same inputs if its last happening is, and is told later than the others. */
  lemma Extend(
    trace: seq<Happening>, last: Happening, connect: nat -> Start, turns: nat -> Turn,
    tries: nat, turn: nat, tries': nat, turn': nat)
    requires Faithful(trace, connect, turns, tries, turn) && tries <= tries' <= tries + 1 && turn <= turn'
    requires match last
             case Tried(n) => n < tries'
             case Told(k, h, state) => turn <= k < turn' && state == turns(k).state && h in StartedBy(connect, tries')
    ensures Faithful(trace + [last], connect, turns, tries', turn')
  {
    var next := trace + [last];
    forall i | 0 <= i < |next|
      ensures Happened(next, i, connect, turns, tries', turn')
    {
      if i < |trace| {
        assert Happened(trace, i, connect, turns, tries, turn);
      }
    }
    forall i, j | 0 <= i < j < |next|
      ensures InOrder(next, i, j)
    {
      assert Happened(trace, i, connect, turns, tries, turn);
      if j < |trace| {
        assert InOrder(trace, i, j);
      }
    }
  }

  lemma FaithfulTold(trace: seq<Happening>, connect: nat -> Start, turns: nat -> Turn, tries: nat, turn: nat, h: Handle)
    requires Faithful(trace, connect, turns, tries, turn) && h in StartedBy(connect, tries)
    ensures Faithful(trace + [Told(turn, h, turns(turn).state)], connect, turns, tries, turn + 1)
  {
    Extend(trace, Told(turn, h, turns(turn).state), connect, turns, tries, turn, tries, turn + 1);
  }

  /** If every attempt is refused, nothing is started. */
  lemma {:induction false} NoneStarted(connect: nat -> Start, n: nat)
    requires forall i :: 0 <= i < n ==> connect(i).Refused?
    ensures StartedBy(connect, n) == []
  {
    if n > 0 {
      NoneStarted(connect, n - 1);
    }
  }

  /** Connections started are pending or closed, once each; reports to come are for pending ones, and
      unless some report was `odd`, that is `Connecting`, for all of them. */
  ghost predicate Books(
    started: seq<Handle>, pending: seq<Handle>, closes: seq<Handle>, waiting: seq<Handle>, odd: bool)
  {
    && NoDuplicates(pending) && NoDuplicates(closes) && NoDuplicates(waiting)
    && Elements(pending) + Elements(closes) == Elements(started)
    && Elements(pending) !! Elements(closes)
    && Elements(waiting) <= Elements(pending)
    && (!odd ==> Elements(waiting) == Elements(pending))
  }

  function RemoveAt(q: seq<Handle>, i: nat): seq<Handle>
    requires i < |q|
  {
    q[..i] + q[i + 1..]
  }

  lemma RemoveAtIs(q: seq<Handle>, i: nat)
    requires i < |q| && NoDuplicates(q)
    ensures NoDuplicates(RemoveAt(q, i)) && Elements(RemoveAt(q, i)) == Elements(q) - {q[i]}
  {
    assert q == q[..i] + [q[i]] + q[i + 1..];
  }

  lemma AppendIs(q: seq<Handle>, h: Handle)
    requires NoDuplicates(q) && h !in q
    ensures NoDuplicates(q + [h]) && Elements(q + [h]) == Elements(q) + {h}
  {
  }

  lemma AddStarted(
    started: seq<Handle>, pending: seq<Handle>, closes: seq<Handle>, waiting: seq<Handle>, odd: bool, h: Handle)
    requires Books(started, pending, closes, waiting, odd) && h !in started
    ensures Books(started + [h], pending + [h], closes, waiting + [h], odd)
  {
    assert h !in Elements(pending) && h !in Elements(closes) && h !in Elements(waiting);
    AppendIs(pending, h);
    AppendIs(waiting, h);
    assert Elements(started + [h]) == Elements(started) + {h};
  }

  /** A report is taken: for `Closed` the connection is closed, for `Connecting` nothing else happens. */
  lemma TakeReport(
    started: seq<Handle>, pending: seq<Handle>, closes: seq<Handle>, waiting: seq<Handle>, odd: bool, k: nat, i: nat)
    requires Books(started, pending, closes, waiting, odd) && k < |waiting| && i < |pending| && pending[i] == waiting[k]
    ensures Books(started, RemoveAt(pending, i), closes + [waiting[k]], RemoveAt(waiting, k), odd)
    ensures Books(started, pending, closes, RemoveAt(waiting, k), true)
  {
    var h := waiting[k];
    RemoveAtIs(pending, i);
    RemoveAtIs(waiting, k);
    assert h in Elements(pending);
    assert h !in closes by { assert h !in Elements(closes); }
    AppendIs(closes, h);
  }

  /** Closing all but the winner, or all. */
  lemma CloseRest(
    started: seq<Handle>, pending: seq<Handle>, closes: seq<Handle>, waiting: seq<Handle>, odd: bool, rest: seq<Handle>)
    requires Books(started, pending, closes, waiting, odd)
    requires NoDuplicates(rest) && Elements(rest) <= Elements(pending)
    ensures NoDuplicates(closes + rest)
    ensures Elements(closes + rest) == Elements(started) - (Elements(pending) - Elements(rest))
  {
    var all := closes + rest;
    forall i, j | 0 <= i < j < |all|
      ensures all[i] != all[j]
    {
      if i < |closes| <= j {
        assert all[j] in Elements(rest);
        assert all[i] in Elements(closes);
      }
    }
    assert Elements(closes + rest) == Elements(closes) + Elements(rest);
  }

  /** How a race may end. Addresses were tried in order, each at most once, and no connection is closed
      twice. A winner was told established by the last turn taken, and every other started connection is
      closed. Otherwise no turn told established, every address was tried and every started connection is
      closed: a loss has the error of the last attempt that was refused or told closed, and only a turn
      that told `Connecting` leaves a race hanging. */
  ghost predicate Concluded(
    r: Outcome, addresses: seq<Ip>, tried: seq<Ip>, connect: nat -> Start, turns: nat -> Turn,
    trace: seq<Happening>, closes: seq<Handle>, used: nat)
  {
    && tried <= addresses && NoDuplicates(closes)
    && match r
       case Won(h) =>
         && used > 0 && turns(used - 1).state.Established?
         && trace != [] && trace[|trace| - 1] == Told(used - 1, h, Established)
         && h in StartedBy(connect, |tried|)
         && Elements(closes) == Elements(StartedBy(connect, |tried|)) - {h}
       case Lost(e) =>
         && tried == addresses && Elements(closes) == Elements(StartedBy(connect, |tried|))
         && !Says(trace, Established)
         && (if addresses == [] then e == AllFailed
             else LastError(trace, connect) == Some(e)
                  && exists i :: FailsLast(trace, i, connect, e))
       case Hangs =>
         && tried == addresses && Elements(closes) == Elements(StartedBy(connect, |tried|))
         && !Says(trace, Established)
         && exists i :: 0 <= i < |trace| && trace[i].Told? && turns(trace[i].turn).state.Connecting?
  }

  class Race {
    var left: seq<Ip>
    var tried: seq<Ip>
    var pending: seq<Handle>
    var waiting: seq<Handle>          // connections whose report is still to come
    var closes: seq<Handle>           // close commands, in order
    var lastError: Option<Error>
    ghost var trace: seq<Happening>

    ghost predicate Valid(addresses: seq<Ip>, connect: nat -> Start)
      reads this
    {
      && tried + left == addresses
      && Books(StartedBy(connect, |tried|), pending, closes, waiting, Says(trace, Connecting))
      && lastError == LastError(trace, connect) && !Says(trace, Established)
      && (tried != [] && pending == [] ==> lastError.Some?)
    }

    constructor (addresses: seq<Ip>)
      ensures tried == [] && left == addresses && pending == [] && waiting == [] && closes == []
      ensures lastError == None && trace == []
    {
      left, tried, pending, waiting, closes := addresses, [], [], [], [];
      lastError, trace := None, [];
    }

    /** The next address is attempted: a started connection is pending with its report to come, a refusal
        is the last error. */
    method Attempt(ghost addresses: seq<Ip>, connect: nat -> Start)
      requires Valid(addresses, connect) && left != [] && DistinctHandles(connect)
      modifies this`tried, this`left, this`pending, this`waiting, this`lastError, this`trace
      ensures Valid(addresses, connect)
      ensures tried == old(tried) + [old(left)[0]] && left == old(left)[1..]
      ensures trace == old(trace) + [Tried(|old(tried)|)]
      ensures match connect(|old(tried)|)
              case Started(h) =>
                pending == old(pending) + [h] && waiting == old(waiting) + [h] && lastError == old(lastError)
              case Refused(e) =>
                pending == old(pending) && waiting == old(waiting) && lastError == Some(e)
    {
      var n := |tried|;
      ghost var started := StartedBy(connect, n);
      assert tried + left == (tried + [left[0]]) + left[1..];
      tried, left := tried + [left[0]], left[1..];
      Logged(trace, Tried(n), connect);
      trace := trace + [Tried(n)];
      if connect(n).Started? {
        var h := connect(n).handle;
        NotYetStarted(connect, n, n);
        AddStarted(started, pending, closes, waiting, Says(trace, Connecting), h);
        pending, waiting := pending + [h], waiting + [h];
      } else {
        lastError := Some(connect(n).error);
      }
    }

    method ClosePending()
      modifies this`pending, this`closes
      ensures pending == [] && closes == old(closes) + old(pending)
    {
      var i := 0;
      while i < |pending|
        invariant 0 <= i <= |pending| && pending == old(pending)
        invariant closes == old(closes) + pending[..i]
      {
        closes := closes + [pending[i]];
        i := i + 1;
      }
      assert pending[..i] == pending;
      pending := [];
    }

    method Position(h: Handle) returns (i: nat)
      requires h in pending
      ensures i < |pending| && pending[i] == h
    {
      i := 0;
      while pending[i] != h
        invariant i < |pending| && h in pending[i..]
        decreases |pending| - i
      {
        assert pending[i..] == [pending[i]] + pending[i + 1..];
        i := i + 1;
      }
    }

    /** A report arrives in turn `turn`. A winner ends the race with every other connection closed; a
        closed connection is closed, dropped and the last error; a connecting one changes nothing. */
    method Report(ghost addresses: seq<Ip>, connect: nat -> Start, k: nat, state: State, ghost turn: nat)
      returns (won: bool)
      requires Valid(addresses, connect) && k < |waiting|
      modifies this`pending, this`waiting, this`closes, this`lastError, this`trace
      ensures won <==> state.Established?
      ensures old(waiting)[k] in StartedBy(connect, |tried|)
      ensures trace == old(trace) + [Told(turn, old(waiting)[k], state)]
      ensures !won ==> Valid(addresses, connect) && waiting == RemoveAt(old(waiting), k)
      ensures state.Closed? ==>
                && Elements(pending) == Elements(old(pending)) - {old(waiting)[k]}
                && closes == old(closes) + [old(waiting)[k]] && lastError == Some(ConnectionClosed)
      ensures state.Connecting? ==> pending == old(pending) && closes == old(closes) && lastError == old(lastError)
      ensures won ==>
                && NoDuplicates(closes)
                && Elements(closes) == Elements(StartedBy(connect, |tried|)) - {old(waiting)[k]}
    {
      ghost var started, odd := StartedBy(connect, |tried|), Says(trace, Connecting);
      var h := waiting[k];
      assert h in Elements(waiting);
      assert h in Elements(pending);
      assert h in Elements(started);
      var i := Position(h);
      TakeReport(started, pending, closes, waiting, odd, k, i);
      RemoveAtIs(pending, i);
      Logged(trace, Told(turn, h, state), connect);
      trace := trace + [Told(turn, h, state)];
      won := state.Established?;
      if won {
        Win(started, odd, i);
      } else {
        waiting := RemoveAt(waiting, k);
        if state.Closed? {
          pending, closes := RemoveAt(pending, i), closes + [h];
          lastError := Some(ConnectionClosed);
        }
      }
    }

    /** The pending connection `i` is kept and every other one closed. */
    method Win(ghost started: seq<Handle>, ghost odd: bool, i: nat)
      requires Books(started, pending, closes, waiting, odd) && i < |pending|
      modifies this`pending, this`closes
      ensures NoDuplicates(closes) && Elements(closes) == Elements(started) - {old(pending)[i]}
    {
      RemoveAtIs(pending, i);
      assert pending[i] in Elements(pending);
      CloseRest(started, pending, closes, waiting, odd, RemoveAt(pending, i));
      pending := RemoveAt(pending, i);
      ClosePending();
    }

    /** One turn of the event loop: a timer starts the next address while there is one, and so does a turn
        with no report to wait for; otherwise the report that was picked is taken. */
    method TakeTurn(addresses: seq<Ip>, connect: nat -> Start, turns: nat -> Turn, k: nat) returns (r: Option<Outcome>)
      requires Valid(addresses, connect) && DistinctHandles(connect) && (pending != [] || left != [])
      requires Faithful(trace, connect, turns, |tried|, k)
      modifies this
      ensures Faithful(trace, connect, turns, |tried|, k + 1)
      ensures r.None? ==>
                && Valid(addresses, connect) && |tried| >= |old(tried)|
                && (|left| < |old(left)| || (|left| == |old(left)| && |waiting| < |old(waiting)|))
      ensures r.Some? ==> !r.value.Lost? && Concluded(r.value, addresses, tried, connect, turns, trace, closes, k + 1)
      ensures old(left) != [] && (turns(k).timer || old(waiting) == []) ==>
                r.None? && tried == old(tried) + [old(left)[0]] && trace == old(trace) + [Tried(|old(tried)|)]
      ensures old(waiting) != [] && !(old(left) != [] && turns(k).timer) ==>
                && trace == old(trace) + [Told(k, old(waiting)[turns(k).index % |old(waiting)|], turns(k).state)]
                && (r.Some? <==> turns(k).state.Established?)
      ensures old(left) == [] && old(waiting) == [] ==> r == Some(Hangs)
    {
      var turn := turns(k);
      if left != [] && (turn.timer || waiting == []) {
        FaithfulTry(trace, connect, turns, |tried|, k);
        Attempt(addresses, connect);
        FaithfulLater(trace, connect, turns, |tried|, k);
        return None;
      }
      if waiting == [] {
        assert pending[0] in Elements(pending);
        FaithfulLater(trace, connect, turns, |tried|, k);
        SomeTurnSaid(trace, connect, turns, |tried|, k, Connecting);
        EndRace(addresses, connect);
        return Some(Hangs);
      }
      var i := turn.index % |waiting|;
      var h := waiting[i];
      WaitingIsStarted(addresses, connect, i);
      FaithfulTold(trace, connect, turns, |tried|, k, h);
      var won := Report(addresses, connect, i, turn.state, k);
      return if won then Some(Won(h)) else None;
    }

    lemma WaitingIsStarted(addresses: seq<Ip>, connect: nat -> Start, i: nat)
      requires Valid(addresses, connect) && i < |waiting|
      ensures waiting[i] in StartedBy(connect, |tried|)
    {
      assert waiting[i] in Elements(waiting);
      assert waiting[i] in Elements(pending);
      assert waiting[i] in Elements(StartedBy(connect, |tried|));
    }

    /** The whole race, for every order of timers and reports: `used` turns were taken, the trace is what
        they and the attempts say, and the outcome is the one the trace bears out. */
    method Run(addresses: seq<Ip>, connect: nat -> Start, turns: nat -> Turn) returns (r: Outcome, used: nat)
      requires tried == [] && left == addresses && pending == [] && waiting == [] && closes == []
      requires lastError == None && trace == [] && DistinctHandles(connect)
      modifies this
      ensures Faithful(trace, connect, turns, |tried|, used)
      ensures Concluded(r, addresses, tried, connect, turns, trace, closes, used)
    {
      assert Books([], pending, closes, waiting, false);
      used := 0;
      if left != [] {
        FaithfulTry(trace, connect, turns, 0, 0);
        Attempt(addresses, connect);
      }
      while pending != [] || left != []
        invariant Valid(addresses, connect) && (if addresses != [] then tried != [] else trace == [])
        invariant Faithful(trace, connect, turns, |tried|, used)
        decreases |left|, |waiting|
      {
        var ended := TakeTurn(addresses, connect, turns, used);
        used := used + 1;
        if ended.Some? {
          return ended.value, used;
        }
      }
      r := Lose(addresses, connect, turns, used);
    }

    /** Nothing is pending and no address is left. */
    method Lose(ghost addresses: seq<Ip>, connect: nat -> Start, ghost turns: nat -> Turn, ghost used: nat)
      returns (r: Outcome)
      requires Valid(addresses, connect) && left == [] && pending == []
      requires if addresses != [] then tried != [] else trace == []
      modifies this`pending, this`closes
      ensures Concluded(r, addresses, tried, connect, turns, trace, closes, used)
    {
      if lastError.Some? {
        LastErrorHasACause(trace, connect);
      }
      EndRace(addresses, connect);
      r := Lost(match lastError case Some(e) => e case None => AllFailed);
    }

    /** The caller closes what is pending when the time is up. */
    method EndRace(ghost addresses: seq<Ip>, connect: nat -> Start)
      requires Valid(addresses, connect) && left == []
      modifies this`pending, this`closes
      ensures tried == addresses && NoDuplicates(closes) && Elements(closes) == Elements(StartedBy(connect, |tried|))
    {
      CloseRest(StartedBy(connect, |tried|), pending, closes, waiting, Says(trace, Connecting), pending);
      ClosePending();
    }
  }

  lemma SaysSnoc(trace: seq<Happening>, last: Happening, state: State)
    ensures Says(trace + [last], state) <==> Says(trace, state) || (last.Told? && last.state == state)
  {
    var next := trace + [last];
    if last.Told? && last.state == state {
      assert Tells(next, |trace|, state);
    }
    if i :| 0 <= i < |trace| && Tells(trace, i, state) {
      assert Tells(next, i, state);
    }
    if i :| 0 <= i < |next| && Tells(next, i, state) {
      assert i < |trace| ==> Tells(trace, i, state);
    }
  }

  lemma FaithfulLater(trace: seq<Happening>, connect: nat -> Start, turns: nat -> Turn, tries: nat, turn: nat)
    requires Faithful(trace, connect, turns, tries, turn)
    ensures Faithful(trace, connect, turns, tries, turn + 1)
  {
    var next := turn + 1;
    forall i | 0 <= i < |trace|
      ensures Happened(trace, i, connect, turns, tries, next)
    {
      assert Happened(trace, i, connect, turns, tries, turn);
    }
  }

  /** What one more happening adds to what a trace says. */
  lemma Logged(trace: seq<Happening>, last: Happening, connect: nat -> Start)
    ensures var next := trace + [last];
            && (Says(next, Connecting) <==> Says(trace, Connecting) || (last.Told? && last.state.Connecting?))
            && (Says(next, Established) <==> Says(trace, Established) || (last.Told? && last.state.Established?))
            && LastError(next, connect)
               == (if last.Tried? && connect(last.number).Refused? then Some(connect(last.number).error)
                   else if last.Told? && last.state.Closed? then Some(ConnectionClosed)
                   else LastError(trace, connect))
  {
    LastErrorSnoc(trace, last, connect);
    SaysSnoc(trace, last, Connecting);
    SaysSnoc(trace, last, Established);
  }

  lemma SomeTurnSaid(
    trace: seq<Happening>, connect: nat -> Start, turns: nat -> Turn, tries: nat, turn: nat, state: State)
    requires Faithful(trace, connect, turns, tries, turn) && Says(trace, state)
    ensures exists i :: 0 <= i < |trace| && trace[i].Told? && turns(trace[i].turn).state == state
  {
    var i :| 0 <= i < |trace| && Tells(trace, i, state);
    assert Happened(trace, i, connect, turns, tries, turn);
  }

  // ---------------------------------------------------------------- what a caller may rely on

  /** A faithful trace, happening by happening. */
  lemma FaithfulMeans(trace: seq<Happening>, connect: nat -> Start, turns: nat -> Turn, tries: nat, turn: nat)
    requires Faithful(trace, connect, turns, tries, turn)
    ensures forall i :: 0 <= i < |trace| && trace[i].Tried? ==> trace[i].number < tries
    ensures forall i :: 0 <= i < |trace| && trace[i].Told? ==>
              && trace[i].turn < turn && trace[i].state == turns(trace[i].turn).state
              && trace[i].handle in StartedBy(connect, tries)
    ensures forall i, j :: 0 <= i < j < |trace| && trace[i].Told? && trace[j].Told? ==> trace[i].turn < trace[j].turn
  {
    forall i | 0 <= i < |trace|
      ensures trace[i].Tried? ==> trace[i].number < tries
      ensures trace[i].Told? ==>
                && trace[i].turn < turn && trace[i].state == turns(trace[i].turn).state
                && trace[i].handle in StartedBy(connect, tries)
    {
      assert Happened(trace, i, connect, turns, tries, turn);
    }
    forall i, j | 0 <= i < j < |trace| && trace[i].Told? && trace[j].Told?
      ensures trace[i].turn < trace[j].turn
    {
      assert InOrder(trace, i, j);
    }
  }

  /** A manager that never tells `Connecting` makes every race end in a win or a loss. */
  lemma EndsUnlessConnecting(
    r: Outcome, addresses: seq<Ip>, tried: seq<Ip>, connect: nat -> Start, turns: nat -> Turn,
    trace: seq<Happening>, closes: seq<Handle>, used: nat)
    requires Faithful(trace, connect, turns, |tried|, used)
    requires Concluded(r, addresses, tried, connect, turns, trace, closes, used)
    requires forall k :: 0 <= k < used ==> !turns(k).state.Connecting?
    ensures !r.Hangs?
  {
    FaithfulMeans(trace, connect, turns, |tried|, used);
  }

  /** If every attempt is refused with one error, the race is lost with that error. */
  lemma AllRefusedIsLost(
    r: Outcome, addresses: seq<Ip>, tried: seq<Ip>, connect: nat -> Start, turns: nat -> Turn,
    trace: seq<Happening>, closes: seq<Handle>, used: nat, e: Error)
    requires Faithful(trace, connect, turns, |tried|, used)
    requires Concluded(r, addresses, tried, connect, turns, trace, closes, used)
    requires addresses != [] && forall i :: 0 <= i < |addresses| ==> connect(i) == Refused(e)
    ensures r == Lost(e)
  {
    NoneStarted(connect, |tried|);
    FaithfulMeans(trace, connect, turns, |tried|, used);
  }
}
