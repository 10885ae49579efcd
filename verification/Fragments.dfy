/** Reassembly of SOCKS5 UDP fragments, section 7 of RFC 1928 (`FragBuffer` in src/net/proxy/socks5.rs,
    used by src/net/proxy/socks5/udp.rs). What the buffer holds is described by its run: the in-range
    fragments inserted since it was last reset, in order of arrival. */
module Fragments {
  import opened Common

  type Bytes = seq<byte>

  datatype Fragment = Fragment(number: nat, last: bool, data: Bytes)

  /** Numbers never fall within a run, so the latest is the highest. */
  function Highest(run: seq<Fragment>): nat {
    if run == [] then 0 else run[|run| - 1].number
  }

  /** The number that was marked last. */
  function End(run: seq<Fragment>): Option<nat> {
    if run == [] then None
    else
      var n := |run| - 1;
      if run[n].last then Some(run[n].number) else End(run[..n])
  }

  /** The first payload that arrived under a number. */
  function First(run: seq<Fragment>, number: nat): Option<Bytes> {
    if run == [] then None
    else
      var n := |run| - 1;
      var earlier := First(run[..n], number);
      if earlier.Some? then earlier else if run[n].number == number then Some(run[n].data) else None
  }

  /** The payloads 1 to `e`, in order; a missing one counts as empty. */
  function Joined(run: seq<Fragment>, e: nat): Bytes {
    if e == 0 then []
    else Joined(run, e - 1) + (match First(run, e) case Some(d) => d case None => [])
  }

  ghost predicate Complete(run: seq<Fragment>) {
    End(run).Some? && forall k :: 1 <= k <= End(run).value ==> First(run, k).Some?
  }

  /** The datagram of a run, once it is complete. */
  ghost function Assembled(run: seq<Fragment>): Option<Bytes> {
    if Complete(run) then Some(Joined(run, End(run).value)) else None
  }

  /** A fragment beyond the marked end, or below the highest number, belongs to another datagram. */
  predicate Restarts(run: seq<Fragment>, f: Fragment) {
    || (End(run).Some? && f.number > End(run).value)
    || f.number < Highest(run)
  }

  function Next(run: seq<Fragment>, f: Fragment): seq<Fragment> {
    if Restarts(run, f) then [f] else run + [f]
  }

  predicate InRange(f: Fragment, slots: nat) {
    1 <= f.number < slots
  }

  /** The run a whole history of insertions leaves. */
  function RunOf(run: seq<Fragment>, history: seq<Fragment>, slots: nat): seq<Fragment> {
    if history == [] then run
    else
      var n := |history| - 1;
      var before := RunOf(run, history[..n], slots);
      if InRange(history[n], slots) then Next(before, history[n]) else before
  }

  // ---------------------------------------------------------------- runs

  ghost predicate IsRun(run: seq<Fragment>, slots: nat) {
    && (forall i :: 0 <= i < |run| ==> InRange(run[i], slots))
    && (forall i, j :: 0 <= i < j < |run| ==> run[i].number <= run[j].number)
    && (End(run).Some? ==> End(run).value == Highest(run))
  }

  lemma NextIsRun(run: seq<Fragment>, f: Fragment, slots: nat)
    requires IsRun(run, slots) && InRange(f, slots)
    ensures IsRun(Next(run, f), slots)
  {
    if Restarts(run, f) {
      EndSnoc([], f);
      assert [] + [f] == [f];
    } else {
      EndSnoc(run, f);
      NumbersRise(run, f, slots);
    }
  }

  lemma EndSnoc(run: seq<Fragment>, f: Fragment)
    ensures End(run + [f]) == if f.last then Some(f.number) else End(run)
    ensures Highest(run + [f]) == f.number
  {
    assert (run + [f])[..|run|] == run;
  }

  lemma NumbersRise(run: seq<Fragment>, f: Fragment, slots: nat)
    requires IsRun(run, slots) && f.number >= Highest(run)
    ensures forall i, j :: 0 <= i < j < |run + [f]| ==> (run + [f])[i].number <= (run + [f])[j].number
  {
    forall i | 0 <= i < |run|
      ensures run[i].number <= f.number
    {
      assert i < |run| - 1 ==> run[i].number <= run[|run| - 1].number;
    }
  }

  /** In every history: numbers never fall within a run, and an end that is marked is the highest number. */
  lemma {:induction false} EveryHistoryLeavesARun(history: seq<Fragment>, slots: nat)
    ensures IsRun(RunOf([], history, slots), slots)
  {
    if history != [] {
      var n := |history| - 1;
      EveryHistoryLeavesARun(history[..n], slots);
      if InRange(history[n], slots) {
        NextIsRun(RunOf([], history[..n], slots), history[n], slots);
      }
    }
  }

  /** What `First` and `End` mean. */
  lemma {:induction false} FirstIsEarliest(run: seq<Fragment>, number: nat)
    ensures First(run, number).None? <==> forall i :: 0 <= i < |run| ==> run[i].number != number
    ensures First(run, number).Some? ==>
              exists i :: && 0 <= i < |run| && run[i].number == number && run[i].data == First(run, number).value
                          && forall j :: 0 <= j < i ==> run[j].number != number
  {
    if run != [] {
      var n := |run| - 1;
      FirstIsEarliest(run[..n], number);
      if First(run[..n], number).Some? {
        var i :| && 0 <= i < n && run[..n][i].number == number && run[..n][i].data == First(run, number).value
                 && forall j :: 0 <= j < i ==> run[..n][j].number != number;
        assert run[i] == run[..n][i];
        assert forall j :: 0 <= j < i ==> run[j] == run[..n][j];
      } else {
        assert forall j :: 0 <= j < n ==> run[j] == run[..n][j];
      }
    }
  }

  lemma {:induction false} EndIsMarked(run: seq<Fragment>)
    ensures End(run).Some? <==> exists i :: 0 <= i < |run| && run[i].last
    ensures End(run).Some? ==> exists i :: 0 <= i < |run| && run[i].last && run[i].number == End(run).value
  {
    if run != [] {
      var n := |run| - 1;
      EndIsMarked(run[..n]);
      if run[n].last {
        assert run[n].number == End(run).value;
      } else {
        assert forall j :: 0 <= j < n ==> run[j] == run[..n][j];
      }
    }
  }

  // ---------------------------------------------------------------- the buffer

  class FragBuffer {
    var slots: array<Option<Bytes>>
    var highest: nat
    var end: Option<nat>
    var lastUpdate: nat
    ghost var run: seq<Fragment>

    ghost predicate Valid()
      reads this, slots
    {
      && slots.Length >= 2
      && IsRun(run, slots.Length)
      && (forall k :: 0 <= k < slots.Length ==> slots[k] == First(run, k))
      && highest == Highest(run) && end == End(run)
    }

    constructor (now: nat, maxCount: nat)
      ensures Valid() && run == [] && fresh(slots) && slots.Length == Max(maxCount, 2)
    {
      var n := Max(maxCount, 2);
      slots := new Option<Bytes>[n](_ => None);
      highest, end, lastUpdate, run := 0, None, now, [];
    }

    method Reset(now: nat)
      requires slots.Length >= 2
      modifies this`highest, this`end, this`lastUpdate, this`run, slots
      ensures Valid() && run == [] && lastUpdate == now
    {
      for k := 0 to slots.Length
        invariant forall i :: 0 <= i < k ==> slots[i] == None
      {
        slots[k] := None;
      }
      highest, end, lastUpdate, run := 0, None, now, [];
    }

    /** Every fragment is in place up to the end. */
    method AllPresent(e: nat) returns (r: bool)
      requires e < slots.Length
      ensures r <==> forall k :: 1 <= k <= e ==> slots[k].Some?
    {
      for k := 1 to e + 1
        invariant forall i :: 1 <= i < k ==> slots[i].Some?
      {
        if slots[k].None? {
          return false;
        }
      }
      return true;
    }

    method Merge(e: nat) returns (merged: Bytes)
      requires Valid() && e < slots.Length
      ensures merged == Joined(run, e)
    {
      merged := [];
      for k := 1 to e + 1
        invariant merged == Joined(run, k - 1)
      {
        if slots[k].Some? {
          merged := merged + slots[k].value;
        }
      }
    }

    /** Returns the datagram exactly when the fragments since the last reset are complete: 1 to e all
        there and e marked last. Then it is their payloads in order, for each number the first that came. */
    method Insert(number: nat, last: bool, data: Bytes, now: nat) returns (r: Option<Bytes>)
      requires Valid()
      modifies this`highest, this`end, this`lastUpdate, this`run, slots
      ensures Valid()
      ensures var f := Fragment(number, last, data);
              if InRange(f, slots.Length) then run == Next(old(run), f) && r == Assembled(run) && lastUpdate == now
              else run == old(run) && r == None && lastUpdate == old(lastUpdate)
    {
      if number == 0 || number >= slots.Length {
        return None;
      }
      var f := Fragment(number, last, data);
      Store(f, now);
      r := Assemble();
    }

    method Store(f: Fragment, now: nat)
      requires Valid() && InRange(f, slots.Length)
      modifies this`highest, this`end, this`lastUpdate, this`run, slots
      ensures Valid() && run == Next(old(run), f) && lastUpdate == now
    {
      NextIsRun(run, f, slots.Length);
      MakeRoom(f.number, now);
      Place(f);
      lastUpdate := now;
    }

    method Assemble() returns (r: Option<Bytes>)
      requires Valid()
      ensures r == Assembled(run)
    {
      if end.None? {
        return None;
      }
      var complete := AllPresent(end.value);
      if !complete {
        return None;
      }
      var merged := Merge(end.value);
      return Some(merged);
    }

    method MakeRoom(number: nat, now: nat)
      requires Valid() && 1 <= number < slots.Length
      modifies this`highest, this`end, this`lastUpdate, this`run, slots
      ensures Valid()
      ensures run == if Restarts(old(run), Fragment(number, false, [])) then [] else old(run)
    {
      if end.Some? && number > end.value {
        Reset(now);
      }
      if number < highest {
        Reset(now);
      }
    }

    method Place(f: Fragment)
      requires Valid() && InRange(f, slots.Length) && IsRun(run + [f], slots.Length)
      modifies this`highest, this`end, this`run, slots
      ensures Valid() && run == old(run) + [f]
    {
      ghost var next := run + [f];
      assert next[..|run|] == run;
      if slots[f.number].None? {
        slots[f.number] := Some(f.data);
      }
      if f.number > highest {
        highest := f.number;
      }
      if f.last {
        end := Some(f.number);
      }
      run := next;
    }
  }

  // ---------------------------------------------------------------- round trip

  /** A datagram cut into pieces, numbered from 1, the last one marked. */
  function Cut(pieces: seq<Bytes>): seq<Fragment> {
    seq(|pieces|, i requires 0 <= i < |pieces| => Fragment(i + 1, i == |pieces| - 1, pieces[i]))
  }

  function Concat(pieces: seq<Bytes>): Bytes {
    if pieces == [] then [] else Concat(pieces[..|pieces| - 1]) + pieces[|pieces| - 1]
  }

  lemma EndNone(run: seq<Fragment>)
    requires forall i :: 0 <= i < |run| ==> !run[i].last
    ensures End(run).None?
  {
    EndIsMarked(run);
  }

  lemma FirstUnique(run: seq<Fragment>, i: nat)
    requires i < |run| && forall j :: 0 <= j < i ==> run[j].number != run[i].number
    ensures First(run, run[i].number) == Some(run[i].data)
  {
    FirstIsEarliest(run, run[i].number);
  }

  /** Pieces in order go behind one another in a fresh buffer. */
  lemma {:induction false} FreshRun(pieces: seq<Bytes>, slots: nat, n: nat)
    requires n <= |pieces| < slots
    ensures RunOf([], Cut(pieces)[..n], slots) == Cut(pieces)[..n]
  {
    if n > 0 {
      var cut := Cut(pieces);
      FreshRun(pieces, slots, n - 1);
      assert cut[..n][..n - 1] == cut[..n - 1];
      assert cut[..n][n - 1] == cut[n - 1];
      EndNone(cut[..n - 1]);
      assert cut[..n] == cut[..n - 1] + [cut[n - 1]];
    }
  }

  lemma {:induction false} JoinedCut(run: seq<Fragment>, pieces: seq<Bytes>, e: nat)
    requires e <= |pieces| && forall k :: 1 <= k <= e ==> First(run, k) == Some(pieces[k - 1])
    ensures Joined(run, e) == Concat(pieces[..e])
  {
    if e > 0 {
      JoinedCut(run, pieces, e - 1);
      assert pieces[..e][..e - 1] == pieces[..e - 1];
    }
  }

  /** A run with one payload for each number up to the marked end. */
  lemma AssembledAs(run: seq<Fragment>, payloads: seq<Bytes>)
    requires End(run) == Some(|payloads|)
    requires forall k :: 1 <= k <= |payloads| ==> First(run, k) == Some(payloads[k - 1])
    ensures Assembled(run) == Some(Concat(payloads))
  {
    JoinedCut(run, payloads, |payloads|);
    assert payloads[..|payloads|] == payloads;
  }

  /** Any datagram cut into in-range fragments and fed in order to a fresh buffer comes out whole at the
      last fragment, and not before. */
  lemma RoundTrip(pieces: seq<Bytes>, slots: nat, n: nat)
    requires 1 <= n <= |pieces| < slots
    ensures Assembled(RunOf([], Cut(pieces)[..n], slots)) == if n == |pieces| then Some(Concat(pieces)) else None
  {
    var cut := Cut(pieces);
    FreshRun(pieces, slots, n);
    var run := cut[..n];
    if n < |pieces| {
      EndNone(run);
    } else {
      assert End(run) == Some(n);
      forall k | 1 <= k <= n
        ensures First(run, k) == Some(pieces[k - 1])
      {
        FirstUnique(run, k - 1);
      }
      AssembledAs(run, pieces);
    }
  }

  /** A buffer left by another datagram: unless its highest number is 1, fragment 1 starts it afresh. */
  lemma {:induction false} LeftoverIsDropped(left: seq<Fragment>, pieces: seq<Bytes>, slots: nat, n: nat)
    requires IsRun(left, slots) && Highest(left) != 1 && 1 <= n <= |pieces| < slots
    ensures RunOf(left, Cut(pieces)[..n], slots) == RunOf([], Cut(pieces)[..n], slots)
  {
    var cut := Cut(pieces);
    assert cut[..n][..n - 1] == cut[..n - 1] && cut[..n][n - 1] == cut[n - 1];
    if n == 1 {
      assert cut[..0] == [];
      assert left != [] ==> InRange(left[|left| - 1], slots);
    } else {
      LeftoverIsDropped(left, pieces, slots, n - 1);
    }
  }

  /** A run that holds only fragments numbered 1, none of them marked last. */
  ghost predicate OnlyFirsts(left: seq<Fragment>) {
    left != [] && forall i :: 0 <= i < |left| ==> left[i].number == 1 && !left[i].last
  }

  lemma {:induction false} StaleRun(left: seq<Fragment>, pieces: seq<Bytes>, slots: nat, n: nat)
    requires OnlyFirsts(left) && n <= |pieces| < slots
    ensures RunOf(left, Cut(pieces)[..n], slots) == left + Cut(pieces)[..n]
  {
    var cut := Cut(pieces);
    if n == 0 {
      assert cut[..0] == [] && left + [] == left;
    } else {
      StaleRun(left, pieces, slots, n - 1);
      assert cut[..n][..n - 1] == cut[..n - 1] && cut[..n][n - 1] == cut[n - 1];
      StaleNext(left, pieces, n - 1);
    }
  }

  lemma StaleNext(left: seq<Fragment>, pieces: seq<Bytes>, n: nat)
    requires OnlyFirsts(left) && n < |pieces|
    ensures Next(left + Cut(pieces)[..n], Cut(pieces)[n]) == left + Cut(pieces)[..n + 1]
  {
    var cut := Cut(pieces);
    var run := left + cut[..n];
    EndNone(run);
    assert Highest(run) == if n == 0 then 1 else n;
    assert left + cut[..n + 1] == run + [cut[n]];
  }

  /** The exception: when the buffer holds a fragment 1 of an earlier datagram and nothing after it, that
      old payload is kept, and the new datagram comes out with it in front. */
  lemma StaleFirstIsKept(left: seq<Fragment>, pieces: seq<Bytes>, slots: nat)
    requires OnlyFirsts(left) && 1 <= |pieces| < slots
    ensures Assembled(RunOf(left, Cut(pieces), slots)) == Some(Concat([left[0].data] + pieces[1..]))
  {
    var n, cut := |pieces|, Cut(pieces);
    StaleRun(left, pieces, slots, n);
    assert cut[..n] == cut;
    var run := left + cut;
    assert run == (left + cut[..n - 1]) + [cut[n - 1]];
    EndSnoc(left + cut[..n - 1], cut[n - 1]);
    var mixed := [left[0].data] + pieces[1..];
    forall k | 1 <= k <= n
      ensures First(run, k) == Some(mixed[k - 1])
    {
      StalePayload(left, pieces, k);
    }
    AssembledAs(run, mixed);
  }

  lemma StalePayload(left: seq<Fragment>, pieces: seq<Bytes>, k: nat)
    requires OnlyFirsts(left) && 1 <= k <= |pieces|
    ensures First(left + Cut(pieces), k) == Some(if k == 1 then left[0].data else pieces[k - 1])
  {
    var run, cut := left + Cut(pieces), Cut(pieces);
    var i := if k == 1 then 0 else |left| + k - 1;
    assert k > 1 ==> run[i] == cut[k - 1];
    forall j | 0 <= j < i
      ensures run[j].number != run[i].number
    {
      assert j >= |left| ==> run[j] == cut[j - |left|];
    }
    FirstUnique(run, i);
  }

  lemma {:induction false} ConcatHead(first: Bytes, rest: seq<Bytes>)
    ensures Concat([first] + rest) == first + Concat(rest)
  {
    var all := [first] + rest;
    if rest == [] {
      assert all[..0] == [] && all[0] == first;
    } else {
      var n := |rest| - 1;
      assert all[..|all| - 1] == [first] + rest[..n];
      ConcatHead(first, rest[..n]);
    }
  }

  lemma SameSuffix(a: Bytes, b: Bytes, tail: Bytes)
    requires a + tail == b + tail
    ensures a == b
  {
    assert |a| == |b|;
    assert a == (a + tail)[..|a|] == b;
  }

  /** A leftover with highest number 1 that was not complete holds only unmarked fragments 1. */
  lemma IncompleteFirsts(left: seq<Fragment>, slots: nat)
    requires IsRun(left, slots) && !Complete(left) && Highest(left) == 1
    ensures OnlyFirsts(left)
  {
    forall i | 0 <= i < |left|
      ensures left[i].number == 1
    {
      assert InRange(left[i], slots);
      assert left[i].number <= left[|left| - 1].number;
    }
    FirstUnique(left, 0);
    EndIsMarked(left);
  }

  /** Exactly when a datagram fed after a leftover comes out whole. The caller drops a buffer that was
      completed, so a leftover is never complete. */
  lemma ComesOutWholeExactly(left: seq<Fragment>, pieces: seq<Bytes>, slots: nat)
    requires IsRun(left, slots) && !Complete(left) && 1 <= |pieces| < slots
    ensures Assembled(RunOf(left, Cut(pieces), slots)) == Some(Concat(pieces))
            <==> Highest(left) != 1 || left[0].data == pieces[0]
  {
    var n := |pieces|;
    assert Cut(pieces)[..n] == Cut(pieces);
    if Highest(left) != 1 {
      LeftoverIsDropped(left, pieces, slots, n);
      RoundTrip(pieces, slots, n);
    } else {
      IncompleteFirsts(left, slots);
      StaleFirstIsKept(left, pieces, slots);
      var stale, rest := left[0].data, pieces[1..];
      ConcatHead(stale, rest);
      ConcatHead(pieces[0], rest);
      assert pieces == [pieces[0]] + rest;
      if stale + Concat(rest) == pieces[0] + Concat(rest) {
        SameSuffix(stale, pieces[0], Concat(rest));
      }
    }
  }
}
