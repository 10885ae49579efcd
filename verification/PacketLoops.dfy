/** The loops that move packets, as they update their queues: the virtual device
    (src/net/tunnel/stack.rs), the manager's drain (src/net/tunnel/manager/transport.rs) and the worker
    (src/net/tunnel/manager/masque_io.rs). What other tasks do between two operations of a loop is an
    answer the loop is given. */
module PacketLoops {
  import opened Common
  import PacketPath
  import IpPackets
  import Checksum

  type Packet = PacketPath.Packet

  // ---------------------------------------------------------------- the device

  /** The last `n` packets of `q`, or all of them. */
  function Newest(q: seq<Packet>, n: nat): (r: seq<Packet>)
    ensures |r| == Min(|q|, n) && q == q[..|q| - |r|] + r
  {
    if |q| <= n then q else q[|q| - n..]
  }

  class VirtualDevice {
    var rx: seq<Packet>
    var tx: seq<Packet>
    var rxDrops: nat
    const capacity: nat

    constructor (queueCapacity: nat)
      ensures rx == [] && tx == [] && rxDrops == 0 && capacity == queueCapacity
    {
      rx, tx, rxDrops, capacity := [], [], 0, queueCapacity;
    }

    /** Evicts the oldest packets until the new one fits; `capacity` 0 would never end. */
    method InjectPacketOwned(data: Packet)
      requires capacity >= 1
      modifies this`rx, this`rxDrops
      ensures rx == Newest(old(rx) + [data], capacity)
      ensures rx[|rx| - 1] == data
      ensures rxDrops + |rx| == old(rxDrops) + old(|rx|) + 1
    {
      while |rx| >= capacity
        invariant |rx| <= old(|rx|) && rx == old(rx)[old(|rx|) - |rx|..]
        invariant |rx| == old(|rx|) || |rx| >= capacity - 1
        invariant rxDrops + |rx| == old(rxDrops) + old(|rx|)
        decreases |rx|
      {
        rx := rx[1..];
        rxDrops := rxDrops + 1;
      }
      rx := rx + [data];
    }

    method TakePacket() returns (packet: Option<Packet>)
      modifies this`tx
      ensures packet.None? <==> old(tx) == []
      ensures old(tx) == (if packet.Some? then [packet.value] else []) + tx
    {
      if tx == [] {
        return None;
      }
      packet := Some(tx[0]);
      tx := tx[1..];
    }

    method RequeuePacketFront(packet: Packet)
      modifies this`tx
      ensures tx == [packet] + old(tx)
    {
      tx := [packet] + tx;
    }

    /** The refused batch goes back one packet at a time, last one first. */
    method RequeueBatch(packets: seq<Packet>)
      modifies this`tx
      ensures tx == packets + old(tx)
    {
      var i := |packets|;
      while i > 0
        invariant 0 <= i <= |packets|
        invariant tx == packets[i..] + old(tx)
      {
        i := i - 1;
        assert packets[i..] == [packets[i]] + packets[i + 1..];
        RequeuePacketFront(packets[i]);
      }
    }
  }

  // ---------------------------------------------------------------- the manager's drain

  datatype Answer = Accepted | Full | Closed

  const MAX_STREAK := 6

  /** Milliseconds of pause after the n-th refusal in a row. */
  function Backoff(streak: nat): nat
    requires 1 <= streak <= MAX_STREAK
  {
    [1, 2, 4, 8, 16, 32][streak - 1]
  }

  function Power(n: nat): nat {
    if n == 0 then 1 else 2 * Power(n - 1)
  }

  /** The pause doubles with each refusal in a row, from one millisecond to thirty-two. */
  lemma BackoffDoubles(streak: nat)
    requires 1 <= streak <= 6
    ensures Backoff(streak) == Power(streak - 1) && 1 <= Backoff(streak) <= 32
  {
    assert Power(0) == 1 && Power(1) == 2 && Power(2) == 4 && Power(3) == 8;
    assert Power(4) == 2 * Power(3) && Power(5) == 2 * Power(4);
  }

  function BatchSize(sendBatchSize: nat, budget: nat): nat {
    Min(sendBatchSize, Max(budget, 1))
  }

  /** A batch is as large as the channel's batch size and the budget allow, and never empty. */
  lemma BatchesAreAsLargeAsAllowed(sendBatchSize: nat, budget: nat)
    requires sendBatchSize >= 1
    ensures 1 <= BatchSize(sendBatchSize, budget) <= sendBatchSize
    ensures budget >= 1 ==> BatchSize(sendBatchSize, budget) <= budget
    ensures BatchSize(sendBatchSize, budget) == sendBatchSize || BatchSize(sendBatchSize, budget) >= budget
  {
  }

  function Quota(budget: nat, q: seq<Packet>): nat {
    Min(budget, |q|)
  }

  /** Every batch is full except the last, which ends at the end of the supply. */
  ghost predicate InBatches(batches: seq<seq<Packet>>, size: nat) {
    && (forall i :: 0 <= i < |batches| ==> 1 <= |batches[i]| <= size)
    && (forall i :: 0 <= i < |batches| - 1 ==> |batches[i]| == size)
  }

  /** What a drain does to the tx queue: batches leave its front until the quota is met or one is
      refused. */
  ghost predicate Drained(tx0: seq<Packet>, moved: seq<seq<Packet>>, tx: seq<Packet>, budget: nat, size: nat,
                          answer: nat -> Answer) {
    && Flatten(moved) + tx == tx0
    && InBatches(moved, size)
    && |Flatten(moved)| <= Quota(budget, tx0)
    && (forall k :: 0 <= k < |moved| ==> answer(k).Accepted?)
    && (|Flatten(moved)| < Quota(budget, tx0) ==> !answer(|moved|).Accepted?)
  }

  /** The pause after a drain, from the streak and pause that its last success left. */
  ghost predicate Paused(streak0: nat, until0: Option<nat>, streak: nat, until: Option<nat>, later: nat, full: bool) {
    if full then 1 <= streak == Min(streak0 + 1, MAX_STREAK) && until == Some(later + Backoff(streak))
    else streak == streak0 && until == until0
  }

  class Drain {
    const device: VirtualDevice
    var streak: nat
    var blockedUntil: Option<nat>
    var sent: seq<seq<Packet>>     // batches the channel took

    constructor (d: VirtualDevice)
      ensures device == d && streak == 0 && blockedUntil == None && sent == []
    {
      device, streak, blockedUntil, sent := d, 0, None, [];
    }

    predicate Blocked(now: nat)
      reads this
    {
      blockedUntil.Some? && blockedUntil.value > now
    }

    /** One batch: up to `size` packets within the budget. */
    method Collect(budget: nat, size: nat, attempted: nat) returns (packets: seq<Packet>)
      requires attempted < budget && size >= 1
      modifies device`tx
      ensures old(device.tx) == packets + device.tx
      ensures |packets| == Min(size, Min(budget - attempted, old(|device.tx|)))
    {
      packets := [];
      var first := device.TakePacket();
      if first.None? {
        return;
      }
      packets := [first.value];
      while attempted + |packets| < budget && |packets| < size
        invariant old(device.tx) == packets + device.tx
        invariant 1 <= |packets| <= size && attempted + |packets| <= budget
        decreases budget - attempted - |packets|
      {
        var next := device.TakePacket();
        if next.None? {
          break;
        }
        packets := packets + [next.value];
      }
    }

    /** A full channel starts a pause; a full or closed one gives the batch back. */
    method Refuse(packets: seq<Packet>, answer: Answer, later: nat)
      requires streak <= MAX_STREAK
      modifies this`streak, this`blockedUntil, device`tx
      ensures device.tx == packets + old(device.tx)
      ensures Paused(old(streak), old(blockedUntil), streak, blockedUntil, later, answer.Full?)
    {
      if answer.Full? {
        streak := Min(streak + 1, MAX_STREAK);
        blockedUntil := Some(later + Backoff(streak));
      }
      device.RequeueBatch(packets);
    }

    /** A drain moves packets from the front of the tx queue into batches and loses, repeats and
        reorders none; a refused batch is back where it was. It stops early only at a refusal, and the
        pause after a refusal grows with the refusals since the last success. */
    method DrainStackPackets(budget: nat, sendBatchSize: nat, now: nat, later: nat, answer: nat -> Answer)
      requires sendBatchSize >= 1 && streak <= MAX_STREAK
      modifies this, device`tx
      ensures streak <= MAX_STREAK
      ensures old(blockedUntil.Some? && blockedUntil.value > now) ==>
                && device.tx == old(device.tx) && sent == old(sent)
                && streak == old(streak) && blockedUntil == old(blockedUntil)
      ensures old(blockedUntil.None? || blockedUntil.value <= now) ==>
                && |old(sent)| <= |sent| && sent[..|old(sent)|] == old(sent)
                && Drained(old(device.tx), sent[|old(sent)|..], device.tx, budget, BatchSize(sendBatchSize, budget),
                           answer)
                && var moved := sent[|old(sent)|..];
                   Paused(if moved == [] then old(streak) else 0, if moved == [] then old(blockedUntil) else None,
                          streak, blockedUntil, later,
                          |Flatten(moved)| < Quota(budget, old(device.tx)) && answer(|moved|).Full?)
    {
      if Blocked(now) {
        return;
      }
      ghost var moved := DrainLoop(budget, BatchSize(sendBatchSize, budget), later, answer);
      assert sent[|old(sent)|..] == moved;
    }

    method DrainLoop(budget: nat, batchSize: nat, later: nat, answer: nat -> Answer)
      returns (ghost moved: seq<seq<Packet>>)
      requires batchSize >= 1 && streak <= MAX_STREAK
      modifies this, device`tx
      ensures streak <= MAX_STREAK && sent == old(sent) + moved
      ensures Drained(old(device.tx), moved, device.tx, budget, batchSize, answer)
      ensures Paused(if moved == [] then old(streak) else 0, if moved == [] then old(blockedUntil) else None,
                     streak, blockedUntil, later,
                     |Flatten(moved)| < Quota(budget, old(device.tx)) && answer(|moved|).Full?)
    {
      var attempted, k := 0, 0;
      moved := [];
      ghost var tx0 := device.tx;
      while attempted < budget
        invariant 0 <= attempted <= budget && k == |moved| && sent == old(sent) + moved
        invariant Progress(tx0, moved, device.tx, attempted, budget, batchSize)
        invariant forall i :: 0 <= i < |moved| ==> answer(i).Accepted?
        invariant streak == if moved == [] then old(streak) else 0
        invariant blockedUntil == if moved == [] then old(blockedUntil) else None
        decreases budget - attempted
      {
        ghost var before := device.tx;
        var packets := Collect(budget, batchSize, attempted);
        if packets == [] {
          break;
        }
        if answer(k).Accepted? {
          ProgressStep(tx0, moved, before, attempted, budget, batchSize, packets, device.tx);
          moved := moved + [packets];
          sent, streak, blockedUntil, k := sent + [packets], 0, None, k + 1;
          attempted := attempted + |packets|;
        } else {
          Refuse(packets, answer(k), later);
          break;
        }
      }
      ProgressEnds(tx0, moved, device.tx, attempted, budget, batchSize, answer);
    }
  }

  ghost predicate Progress(
    tx0: seq<Packet>, moved: seq<seq<Packet>>, tx: seq<Packet>, attempted: nat, budget: nat, size: nat)
  {
    && Flatten(moved) + tx == tx0
    && attempted == |Flatten(moved)|
    && InBatches(moved, size)
    && (moved != [] && attempted < budget && tx != [] ==> |moved[|moved| - 1]| == size)
  }

  lemma ProgressEnds(
    tx0: seq<Packet>, moved: seq<seq<Packet>>, tx: seq<Packet>, attempted: nat, budget: nat, size: nat,
    answer: nat -> Answer)
    requires Progress(tx0, moved, tx, attempted, budget, size) && attempted <= budget
    requires forall i :: 0 <= i < |moved| ==> answer(i).Accepted?
    requires attempted == budget || tx == [] || !answer(|moved|).Accepted?
    ensures Drained(tx0, moved, tx, budget, size, answer)
    ensures |Flatten(moved)| < Quota(budget, tx0) <==> attempted < budget && tx != []
  {
  }

  lemma ProgressStep(
    tx0: seq<Packet>, moved: seq<seq<Packet>>, before: seq<Packet>, attempted: nat, budget: nat, size: nat,
    packets: seq<Packet>, tx: seq<Packet>)
    requires Progress(tx0, moved, before, attempted, budget, size) && attempted < budget
    requires packets != [] && before == packets + tx && |packets| == Min(size, Min(budget - attempted, |before|))
    ensures Progress(tx0, moved + [packets], tx, attempted + |packets|, budget, size)
  {
    FlattenSnoc(moved, packets);
    var line := Flatten(moved);
    assert line + (packets + tx) == line + packets + tx;
    var next := moved + [packets];
    forall i | 0 <= i < |next| - 1
      ensures |next[i]| == size
    {
      assert next[i] == moved[i];
    }
  }

  // ---------------------------------------------------------------- the worker

  /** What the datagram flow does with a frame. */
  datatype Flow = Takes | TakesAfterWait | FailsAfterWait | Gone

  datatype Outcome = Sent(waited: bool) | Dropped | TooBig(icmp: Packet) | Refused | Failed

  /** A frame: context id 0, then the packet. */
  function Frame(packet: Packet): Packet {
    [0] + packet
  }

  function Fits(packet: Packet, maxLen: Option<nat>): bool {
    maxLen.None? || |packet| + 1 <= maxLen.value
  }

  /** What is to become of a packet: it leaves in a frame, it is too large for one, or it is dropped. */
  datatype Fate = Leaves(frame: Packet) | TooLarge(packet: Packet) | Vanishes

  function FateOf(packet: Packet, maxLen: Option<nat>): Fate {
    match IpPackets.Outgoing(packet)
    case None => Vanishes
    case Some(out) => if Fits(packet, maxLen) then Leaves(Frame(out)) else TooLarge(packet)
  }

  /** A packet leaves exactly when it passes the hop count and its frame, one byte longer, is within the
      limit; the frame is a zero byte and the packet as it passed. */
  lemma FateExactly(packet: Packet, maxLen: Option<nat>)
    ensures var out := IpPackets.Outgoing(packet);
            && (FateOf(packet, maxLen) == Vanishes <==> out == None)
            && (out.Some? && (maxLen == None || |out.value| + 1 <= maxLen.value) ==>
                  FateOf(packet, maxLen) == Leaves([0] + out.value))
            && (out.Some? && maxLen.Some? && |out.value| + 1 > maxLen.value ==>
                  FateOf(packet, maxLen) == TooLarge(packet))
  {
    if IpPackets.Outgoing(packet).Some? {
      IpPackets.OutgoingChangesOnlyHopAndChecksum(packet);
    }
  }

  function Fates(packets: seq<Packet>, maxLen: Option<nat>): seq<Fate> {
    seq(|packets|, i requires 0 <= i < |packets| => FateOf(packets[i], maxLen))
  }

  ghost predicate HasFate(fates: seq<Fate>, packets: seq<Packet>, i: int, maxLen: Option<nat>)
    requires 0 <= i < |packets| == |fates|
  {
    fates[i] == FateOf(packets[i], maxLen)
  }

  ghost predicate KnownFates(fates: seq<Fate>, packets: seq<Packet>, maxLen: Option<nat>) {
    && |fates| == |packets|
    && forall i {:trigger HasFate(fates, packets, i, maxLen)} ::
         0 <= i < |packets| ==> HasFate(fates, packets, i, maxLen)
  }

  lemma FatesKnown(packets: seq<Packet>, maxLen: Option<nat>)
    ensures KnownFates(Fates(packets, maxLen), packets, maxLen)
  {
  }

  /** What became of a run of packets: the frames the flow took, how many packets failed and how many
      waited, and the packets too big to send. */
  datatype Tally = Tally(wire: seq<Packet>, failed: nat, waits: nat, tooBig: seq<Packet>)

  /** The first `n` packets of those with the given fates, the k-th of them answered by `flow(k)`. */
  function Done(fates: seq<Fate>, n: nat, flow: nat -> Flow): (t: Tally)
    requires n <= |fates|
    ensures t.failed <= n
  {
    if n == 0 then Tally([], 0, 0, [])
    else
      var t := Done(fates, n - 1, flow);
      match fates[n - 1]
      case Vanishes => t
      case TooLarge(packet) => t.(tooBig := t.tooBig + [packet])
      case Leaves(frame) =>
        match flow(n - 1)
        case Takes => t.(wire := t.wire + [frame])
        case TakesAfterWait => t.(wire := t.wire + [frame], waits := t.waits + 1)
        case _ => t.(failed := t.failed + 1)
  }

  /** The flow took the k-th packet. */
  predicate TakenAt(fates: seq<Fate>, flow: nat -> Flow, k: nat)
    requires k < |fates|
  {
    fates[k].Leaves? && (flow(k).Takes? || flow(k).TakesAfterWait?)
  }

  ghost predicate IsPlace(places: seq<nat>, i: int, fates: seq<Fate>, n: nat, flow: nat -> Flow)
    requires 0 <= i < |places| && n <= |fates|
  {
    places[i] < n && TakenAt(fates, flow, places[i])
  }

  ghost predicate Rising(places: seq<nat>, i: int, j: int)
    requires 0 <= i < j < |places|
  {
    places[i] < places[j]
  }

  ghost predicate Listed(places: seq<nat>, k: nat) {
    k in places
  }

  /** `places` lists, rising, exactly the packets among the first `n` that the flow took. */
  ghost predicate Lists(places: seq<nat>, fates: seq<Fate>, n: nat, flow: nat -> Flow)
    requires n <= |fates|
  {
    && (forall i {:trigger IsPlace(places, i, fates, n, flow)} ::
          0 <= i < |places| ==> IsPlace(places, i, fates, n, flow))
    && (forall i, j {:trigger Rising(places, i, j)} :: 0 <= i < j < |places| ==> Rising(places, i, j))
    && (forall k: nat {:trigger Listed(places, k)} :: k < n && TakenAt(fates, flow, k) ==> Listed(places, k))
  }

  lemma ListsNext(places: seq<nat>, fates: seq<Fate>, n: nat, flow: nat -> Flow, next: seq<nat>)
    requires n < |fates| && Lists(places, fates, n, flow)
    requires next == if TakenAt(fates, flow, n) then places + [n] else places
    ensures Lists(next, fates, n + 1, flow)
  {
    var m := n + 1;
    forall i | 0 <= i < |next|
      ensures IsPlace(next, i, fates, m, flow)
    {
      assert i < |places| ==> IsPlace(places, i, fates, n, flow);
    }
    forall i, j | 0 <= i < j < |next|
      ensures Rising(next, i, j)
    {
      assert IsPlace(places, i, fates, n, flow);
      assert j < |places| ==> Rising(places, i, j);
    }
    forall k: nat | k < m && TakenAt(fates, flow, k)
      ensures Listed(next, k)
    {
      if k < n {
        assert Listed(places, k);
      } else {
        assert next[|places|] == k;
      }
    }
  }

  ghost predicate Carries(wire: seq<Packet>, places: seq<nat>, fates: seq<Fate>, i: int)
    requires 0 <= i < |places| == |wire|
  {
    places[i] < |fates| && fates[places[i]] == Leaves(wire[i])
  }

  /** The i-th frame on the wire is that of the i-th place. */
  ghost predicate CarriesAll(wire: seq<Packet>, places: seq<nat>, fates: seq<Fate>) {
    && |wire| == |places|
    && forall i {:trigger Carries(wire, places, fates, i)} :: 0 <= i < |places| ==> Carries(wire, places, fates, i)
  }

  lemma CarriesNext(wire: seq<Packet>, places: seq<nat>, fates: seq<Fate>, k: nat)
    requires CarriesAll(wire, places, fates) && k < |fates| && fates[k].Leaves?
    ensures CarriesAll(wire + [fates[k].frame], places + [k], fates)
  {
    var wire', places' := wire + [fates[k].frame], places + [k];
    forall i | 0 <= i < |places'|
      ensures Carries(wire', places', fates, i)
    {
      assert i < |places| ==> Carries(wire, places, fates, i);
    }
  }

  function Places(fates: seq<Fate>, n: nat, flow: nat -> Flow): seq<nat>
    requires n <= |fates|
  {
    if n == 0 then []
    else if TakenAt(fates, flow, n - 1) then Places(fates, n - 1, flow) + [n - 1]
    else Places(fates, n - 1, flow)
  }

  lemma {:induction false} PlacesList(fates: seq<Fate>, n: nat, flow: nat -> Flow)
    requires n <= |fates|
    ensures Lists(Places(fates, n, flow), fates, n, flow)
  {
    if n > 0 {
      PlacesList(fates, n - 1, flow);
      ListsNext(Places(fates, n - 1, flow), fates, n - 1, flow, Places(fates, n, flow));
    }
  }

  lemma {:induction false} PlacesCarry(fates: seq<Fate>, n: nat, flow: nat -> Flow)
    requires n <= |fates|
    ensures CarriesAll(Done(fates, n, flow).wire, Places(fates, n, flow), fates)
  {
    if n > 0 {
      PlacesCarry(fates, n - 1, flow);
      if TakenAt(fates, flow, n - 1) {
        CarriesNext(Done(fates, n - 1, flow).wire, Places(fates, n - 1, flow), fates, n - 1);
      }
    }
  }

  /** The wire carries the frames of exactly the packets the flow took, in their order. */
  lemma WireIsWhatWasTaken(fates: seq<Fate>, n: nat, flow: nat -> Flow)
    requires n <= |fates|
    ensures exists places ::
              Lists(places, fates, n, flow) && CarriesAll(Done(fates, n, flow).wire, places, fates)
  {
    PlacesList(fates, n, flow);
    PlacesCarry(fates, n, flow);
  }

  /** Every packet done was taken, failed, was too big or vanished. */
  lemma {:induction false} EveryPacketCounted(fates: seq<Fate>, n: nat, flow: nat -> Flow)
    requires n <= |fates|
    ensures var t := Done(fates, n, flow);
            |t.wire| + t.failed + |t.tooBig| + |Vanished(fates, n)| == n
  {
    if n > 0 {
      EveryPacketCounted(fates, n - 1, flow);
      OneMore(Vanished(fates, n - 1), Vanished(fates, n), n - 1, fates[n - 1].Vanishes?);
    }
  }

  lemma OneMore(before: set<nat>, after: set<nat>, k: nat, joins: bool)
    requires k !in before && (forall x :: x in after <==> x in before || (joins && x == k))
    ensures |after| == |before| + if joins then 1 else 0
  {
    assert after == before + if joins then {k} else {};
  }

  /** Failures and waits are those of the packets that failed and waited. */
  lemma {:induction false} FailuresCounted(fates: seq<Fate>, n: nat, flow: nat -> Flow)
    requires n <= |fates|
    ensures Done(fates, n, flow).failed == |FailedIn(fates, n, flow)|
  {
    if n > 0 {
      FailuresCounted(fates, n - 1, flow);
      var k := n - 1;
      OneMore(FailedIn(fates, k, flow), FailedIn(fates, n, flow), k,
              fates[k].Leaves? && (flow(k).FailsAfterWait? || flow(k).Gone?));
    }
  }

  lemma {:induction false} WaitsCounted(fates: seq<Fate>, n: nat, flow: nat -> Flow)
    requires n <= |fates|
    ensures Done(fates, n, flow).waits == |WaitedIn(fates, n, flow)|
  {
    if n > 0 {
      WaitsCounted(fates, n - 1, flow);
      var k := n - 1;
      OneMore(WaitedIn(fates, k, flow), WaitedIn(fates, n, flow), k, fates[k].Leaves? && flow(k).TakesAfterWait?);
    }
  }

  function Vanished(fates: seq<Fate>, n: nat): set<nat>
    requires n <= |fates|
  {
    set k: nat | k < n && fates[k].Vanishes?
  }

  function FailedIn(fates: seq<Fate>, n: nat, flow: nat -> Flow): set<nat>
    requires n <= |fates|
  {
    set k: nat | k < n && fates[k].Leaves? && (flow(k).FailsAfterWait? || flow(k).Gone?)
  }

  function WaitedIn(fates: seq<Fate>, n: nat, flow: nat -> Flow): set<nat>
    requires n <= |fates|
  {
    set k: nat | k < n && fates[k].Leaves? && flow(k).TakesAfterWait?
  }

  const MIN_MTU: Checksum.u16 := 1280

  ghost predicate Answers(packet: Packet, icmp: Packet) {
    IpPackets.IsTooBig(packet, 1280, icmp)
  }

  /** The k-th reply is a Packet Too Big message about the k-th packet. */
  ghost predicate AnswerAll(packets: seq<Packet>, replies: seq<Packet>) {
    |replies| == |packets|
    && forall k {:trigger Answers(packets[k], replies[k])} :: 0 <= k < |packets| ==> Answers(packets[k], replies[k])
  }

  lemma AnswerOneMore(packets: seq<Packet>, replies: seq<Packet>, packet: Packet, icmp: Packet)
    requires AnswerAll(packets, replies) && Answers(packet, icmp)
    ensures AnswerAll(packets + [packet], replies + [icmp])
  {
    var ps, rs := packets + [packet], replies + [icmp];
    forall k | 0 <= k < |ps|
      ensures Answers(ps[k], rs[k])
    {
      if k < |packets| {
        assert Answers(packets[k], replies[k]);
      }
    }
  }

  /** What one call may return for a packet of the given fate. */
  ghost predicate Returns(r: Outcome, fate: Fate, mayWait: bool, flow: Flow) {
    && (r.Dropped? <==> fate.Vanishes?)
    && (r.TooBig? <==> fate.TooLarge?) && (r.TooBig? ==> Answers(fate.packet, r.icmp))
    && (r.Refused? <==> fate.Leaves? && !mayWait && (flow.TakesAfterWait? || flow.FailsAfterWait?))
    && (r.Failed? <==> fate.Leaves? && (flow.Gone? || (mayWait && flow.FailsAfterWait?)))
    && (r.Sent? <==> fate.Leaves? && (flow.Takes? || (mayWait && flow.TakesAfterWait?)))
    && (r.Sent? ==> r.waited == flow.TakesAfterWait?)
  }

  function FrameOf(r: Outcome, fate: Fate): seq<Packet>
    requires r.Sent? ==> fate.Leaves?
  {
    if r.Sent? then [fate.frame] else []
  }

  function ReplyOf(r: Outcome): seq<Packet> {
    if r.TooBig? then [r.icmp] else []
  }

  /** The round's own account of what it did agrees with the tally. */
  ghost predicate Accounts(
    t: Tally, frames0: seq<Packet>, frames: seq<Packet>, answers: seq<Packet>, n: nat, packets: nat, waited: bool)
  {
    && frames == frames0 + t.wire && packets == n - t.failed && t.waits == (if waited then 1 else 0)
    && AnswerAll(t.tooBig, answers)
  }

  /** One more packet disposed of keeps the account. */
  lemma AccountsStep(
    fates: seq<Fate>, n: nat, flow: nat -> Flow, r: Outcome,
    frames0: seq<Packet>, frames: seq<Packet>, answers: seq<Packet>, packets: nat, waited: bool)
    requires n < |fates| && Accounts(Done(fates, n, flow), frames0, frames, answers, n, packets, waited)
    requires Returns(r, fates[n], !waited, flow(n)) && !r.Refused?
    ensures Accounts(Done(fates, n + 1, flow), frames0, frames + FrameOf(r, fates[n]), answers + ReplyOf(r), n + 1,
                     packets + (if r.Failed? then 0 else 1), waited || (r.Sent? && r.waited))
  {
    if r.TooBig? {
      AnswerOneMore(Done(fates, n, flow).tooBig, answers, fates[n].packet, r.icmp);
    }
  }

  class SendWorker {
    var backlog: seq<Packet>
    var channel: seq<seq<Packet>>
    var queued: nat                // queued_packets
    var frames: seq<Packet>        // what the datagram flow took
    var replies: seq<Packet>       // ICMP answers handed to the manager
    const maxLen: Option<nat>

    constructor (maxDatagram: Option<nat>)
      ensures backlog == [] && channel == [] && queued == 0 && frames == [] && replies == [] && maxLen == maxDatagram
    {
      backlog, channel, queued, frames, replies, maxLen := [], [], 0, [], [], maxDatagram;
    }

    method AbsorbSendBatch(packets: seq<Packet>)
      requires queued < PacketPath.WRAP
      modifies this`queued, this`backlog
      ensures queued == (old(queued) - |packets|) % PacketPath.WRAP
      ensures backlog == old(backlog) + packets
    {
      queued := (queued - |packets|) % PacketPath.WRAP;
      backlog := backlog + packets;
    }

    /** Whole batches move from the channel to the backlog, in order, until the limit is reached or the
        channel is empty; the counter falls by what moved. */
    method DrainSendChannelRound(limit: nat)
      requires queued < PacketPath.WRAP
      modifies this`queued, this`backlog, this`channel
      ensures backlog + Flatten(channel) == old(backlog) + Flatten(old(channel))
      ensures |channel| <= |old(channel)| && channel == old(channel)[|old(channel)| - |channel|..]
      ensures |backlog| >= limit || channel == []
      ensures channel != old(channel) ==> |backlog| - |old(channel)[|old(channel)| - |channel| - 1]| < limit
      ensures queued < PacketPath.WRAP && |backlog| >= |old(backlog)|
      ensures queued == (old(queued) - (|backlog| - |old(backlog)|)) % PacketPath.WRAP
    {
      var n := 0;
      while |backlog| < limit && channel != []
        invariant 0 <= n <= |old(channel)| && channel == old(channel)[n..]
        invariant backlog + Flatten(channel) == old(backlog) + Flatten(old(channel))
        invariant n > 0 ==> |backlog| - |old(channel)[n - 1]| < limit
        invariant queued < PacketPath.WRAP && |backlog| >= |old(backlog)|
        invariant queued == (old(queued) - (|backlog| - |old(backlog)|)) % PacketPath.WRAP
        decreases |channel|
      {
        var packets := channel[0];
        PacketPath.WrapAdd(old(queued) - (|backlog| - |old(backlog)|), -|packets|);
        assert backlog + (packets + Flatten(channel[1..])) == backlog + packets + Flatten(channel[1..]);
        channel := channel[1..];
        AbsorbSendBatch(packets);
        n := n + 1;
      }
    }

    /** One packet towards the flow. Only a packet that may wait can be held up, and it is never refused. */
    method SendDatagram(packet: Packet, mayWait: bool, flow: Flow) returns (r: Outcome)
      modifies this`frames
      ensures Returns(r, FateOf(packet, maxLen), mayWait, flow)
      ensures frames == old(frames) + FrameOf(r, FateOf(packet, maxLen))
    {
      var buf := new byte[|packet|](i requires 0 <= i < |packet| => packet[i]);
      assert buf[..] == packet;
      var pass := IpPackets.ProcessOutgoing(buf);
      if !pass {
        return Dropped;
      }
      var frame := [0] + buf[..];
      if maxLen.Some? && |frame| > maxLen.value {
        var icmp := IpPackets.ComposeTooBig(packet, MIN_MTU);
        return match icmp case Some(p) => TooBig(p) case None => Dropped;
      }
      match flow {
        case Takes => frames := frames + [frame]; return Sent(false);
        case Gone => return Failed;
        case TakesAfterWait =>
          if !mayWait { return Refused; }
          frames := frames + [frame];
          return Sent(true);
        case FailsAfterWait =>
          if !mayWait { return Refused; }
          return Failed;
      }
    }

    /** The body of the flush loop: the packet at the front is disposed of, or put back when refused. */
    method SendFront(waited: bool, flow: Flow) returns (r: Outcome)
      requires backlog != []
      modifies this`backlog, this`frames, this`replies
      ensures Returns(r, FateOf(old(backlog)[0], maxLen), !waited, flow)
      ensures backlog == if r.Refused? then old(backlog) else old(backlog)[1..]
      ensures frames == old(frames) + FrameOf(r, FateOf(old(backlog)[0], maxLen))
      ensures replies == old(replies) + ReplyOf(r)
    {
      var packet := backlog[0];
      backlog := backlog[1..];
      r := SendDatagram(packet, !waited, flow);
      if r.Refused? {
        backlog := [packet] + backlog;
      } else if r.TooBig? {
        replies := replies + [r.icmp];
      }
    }

    /** A round disposes of packets from the front of the backlog, in order, each at most once; the
        flow receives exactly the frames of those it took, and the manager a Packet Too Big message for
        each that was too big. At most one packet waits, and a round that starts with a backlog disposes
        of at least one packet. */
    method FlushSendBacklog(flow: nat -> Flow, managerListens: nat -> bool)
      returns (ok: bool, packets: nat, blocked: bool)
      modifies this`backlog, this`frames, this`replies
      ensures |backlog| <= |old(backlog)| && backlog == old(backlog)[|old(backlog)| - |backlog|..]
      ensures old(backlog) != [] ==> |backlog| < |old(backlog)|
      ensures var n := |old(backlog)| - |backlog|;
              var t := Done(Fates(old(backlog), maxLen), n, flow);
              && frames == old(frames) + t.wire && packets == n - t.failed
              && (if blocked then t.waits == 1 else t.waits <= 1)
              && |replies| >= |old(replies)| && replies[..|old(replies)|] == old(replies)
              && AnswerAll(t.tooBig, replies[|old(replies)|..])
      ensures ok ==> (blocked <==> backlog != [])
      ensures !ok ==> |replies| > |old(replies)| && !managerListens(|replies| - |old(replies)| - 1)
      ensures ok ==> forall k :: 0 <= k < |replies| - |old(replies)| ==> managerListens(k)
    {
      ghost var waited, answers;
      FatesKnown(backlog, maxLen);
      ok, packets, blocked, waited, answers := FlushLoop(Fates(backlog, maxLen), flow, managerListens);
      assert replies[|old(replies)|..] == answers;
    }

    method FlushLoop(ghost fates: seq<Fate>, flow: nat -> Flow, managerListens: nat -> bool)
      returns (ok: bool, packets: nat, blocked: bool, ghost waited: bool, ghost answers: seq<Packet>)
      requires KnownFates(fates, backlog, maxLen)
      modifies this`backlog, this`frames, this`replies
      ensures |backlog| <= |old(backlog)| && backlog == old(backlog)[|old(backlog)| - |backlog|..]
      ensures var n := |old(backlog)| - |backlog|;
              && Accounts(Done(fates, n, flow), old(frames), frames, answers, n, packets, waited)
              && (old(backlog) != [] ==> n > 0)
      ensures blocked ==> waited
      ensures replies == old(replies) + answers
      ensures ok ==> (blocked <==> backlog != []) && forall k :: 0 <= k < |answers| ==> managerListens(k)
      ensures !ok ==> answers != [] && !managerListens(|answers| - 1)
    {
      answers := [];
      var n, answered, held := 0, 0, false;
      ok, packets, blocked := true, 0, false;
      while backlog != []
        invariant 0 <= n <= |fates| && backlog == old(backlog)[n..]
        invariant ok && !blocked
        invariant Accounts(Done(fates, n, flow), old(frames), frames, answers, n, packets, held)
        invariant replies == old(replies) + answers && |answers| == answered
        invariant forall k :: 0 <= k < answered ==> managerListens(k)
        decreases |backlog|
      {
        assert HasFate(fates, old(backlog), n, maxLen);
        var r;
        r, packets, held := SendNext(fates, old(backlog), n, held, packets, flow, old(frames), answers);
        if r.Refused? {
          blocked := true;
          break;
        }
        answers := answers + ReplyOf(r);
        n := n + 1;
        if r.TooBig? {
          ok := managerListens(answered);
          answered := answered + 1;
          if !ok {
            break;
          }
        }
      }
      waited := held;
    }

    /** The same with the round's account of it. */
    method SendNext(
      ghost fates: seq<Fate>, ghost all: seq<Packet>, n: nat, waited: bool, packets: nat, flow: nat -> Flow,
      ghost frames0: seq<Packet>, ghost answers: seq<Packet>)
      returns (r: Outcome, packets': nat, waited': bool)
      requires n < |all| == |fates| && backlog == all[n..] && HasFate(fates, all, n, maxLen)
      requires Accounts(Done(fates, n, flow), frames0, frames, answers, n, packets, waited)
      modifies this`backlog, this`frames, this`replies
      ensures replies == old(replies) + ReplyOf(r)
      ensures r.Refused? ==>
                backlog == all[n..] && waited && waited' && packets' == packets && frames == old(frames) && !r.TooBig?
      ensures !r.Refused? ==>
                && backlog == all[n + 1..]
                && Accounts(Done(fates, n + 1, flow), frames0, frames, answers + ReplyOf(r), n + 1, packets', waited')
    {
      r := SendFront(waited, flow(n));
      packets', waited' := packets, waited;
      if !r.Refused? {
        AccountsStep(fates, n, flow, r, frames0, old(frames), answers, packets, waited);
        packets' := packets + if r.Failed? then 0 else 1;
        waited' := waited || (r.Sent? && r.waited);
      }
    }
  }
}
