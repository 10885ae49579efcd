/** Outgoing packets from the stack to the datagram flow: the device's tx queue
    (src/net/tunnel/stack.rs), `drain_stack_packets` (src/net/tunnel/manager/transport.rs), the bounded
    channel and the worker's backlog (src/net/tunnel/manager/masque_io.rs). The manager and the worker
    interleave at every queue operation and every change of the atomic `queued_packets`. */
module PacketPath {
  import opened Common

  type Packet = seq<byte>

  /** `queued_packets` is a 64-bit atomic that wraps. */
  const WRAP: nat := 0x1_0000_0000_0000_0000

  /** The manager's place in drain_stack_packets. */
  datatype Sender =
    | Resting
    | Collecting(batch: seq<Packet>, attempted: nat, budget: nat, batchSize: nat)
    | Sent(count: nat, attempted: nat, budget: nat, batchSize: nat)   // sent, queued_packets not yet raised
    | Requeueing(left: seq<Packet>)                                   // the channel was full or closed

  /** The stack side. `token`: the stack holds a tx token. `emitted` records every packet the stack
      wrote through a token; `drops` counts those the token threw away. */
  datatype Stack = Stack(tx: seq<Packet>, cap: nat, token: bool, sender: Sender, emitted: seq<Packet>, drops: nat)

  /** `lost` counts packets still in the channel when the worker let go of it. */
  datatype Link = Link(channel: seq<seq<Packet>>, cap: nat, open: bool, queued: nat, lost: nat)

  datatype Worker =
    | Looping
    | Got(batch: seq<Packet>, closing: bool)        // received, queued_packets not yet lowered
    | Counted(batch: seq<Packet>, closing: bool)    // lowered, backlog not yet extended
    | Round                                         // in drain_send_channel_round
    | Sending(packet: Packet)                       // in flush_send_backlog
    | Closing                                       // left the loop
    | Left

  /** `disposed` records the packets done with: sent, dropped, answered with ICMP or failed. */
  datatype Work = Work(worker: Worker, backlog: seq<Packet>, limit: nat, disposed: seq<Packet>)

  datatype Path = Path(stack: Stack, link: Link, work: Work)

  function Fresh(deviceCap: nat, channelCap: nat, limit: nat): Path {
    Path(Stack([], deviceCap, false, Resting, [], 0), Link([], channelCap, true, 0, 0), Work(Looping, [], limit, []))
  }

  // ---------------------------------------------------------------- the stack and its device

  /** `transmit` and `receive` give a token only while the queue has room; the token's `consume` checks
      again and would drop. The stack is polled by the manager, so not while it drains. */
  ghost predicate StackStep(p: Stack, p': Stack) {
    && p.sender.Resting?
    && (|| (!p.token && |p.tx| < p.cap && p' == p.(token := true))
        || (p.token && p' == p.(token := false))
        || (p.token && exists packet :: Consumed(p, p', packet)))
  }

  ghost predicate Consumed(p: Stack, p': Stack, packet: Packet) {
    p' == if |p.tx| >= p.cap
          then p.(token := false, emitted := p.emitted + [packet], drops := p.drops + 1)
          else p.(token := false, emitted := p.emitted + [packet], tx := p.tx + [packet])
  }

  // ---------------------------------------------------------------- drain_stack_packets

  /** Steps of the drain loop that stay on the manager's side. */
  ghost predicate DrainStep(p: Stack, p': Stack) {
    match p.sender
    case Resting =>
      && !p.token && p'.sender.Collecting? && p'.sender.batch == [] && p'.sender.attempted == 0
      && p'.sender.batchSize >= 1
      && p' == p.(sender := p'.sender)
    case Collecting(batch, attempted, budget, batchSize) =>
      if attempted < budget && |batch| < batchSize && p.tx != []
      then p' == p.(tx := p.tx[1..], sender := Collecting(batch + [p.tx[0]], attempted + 1, budget, batchSize))
      else batch == [] && p' == p.(sender := Resting)
    case Requeueing(left) =>
      if left == [] then p' == p.(sender := Resting)
      else p' == p.(tx := [left[|left| - 1]] + p.tx, sender := Requeueing(left[..|left| - 1]))
    case Sent(_, _, _, _) => false
  }

  /** `try_send` of a complete batch. */
  ghost predicate TrySendStep(s: Path, s': Path) {
    && s.stack.sender.Collecting?
    && var c := s.stack.sender;
       && c.batch != [] && !(c.attempted < c.budget && |c.batch| < c.batchSize && s.stack.tx != [])
       && if s.link.open && |s.link.channel| < s.link.cap
          then s' == s.(link := s.link.(channel := s.link.channel + [c.batch]),
                        stack := s.stack.(sender := Sent(|c.batch|, c.attempted, c.budget, c.batchSize)))
          else s' == s.(stack := s.stack.(sender := Requeueing(c.batch)))
  }

  /** The `fetch_add` behind a successful send. */
  ghost predicate AddStep(s: Path, s': Path) {
    && s.stack.sender.Sent?
    && var c := s.stack.sender;
       s' == s.(link := s.link.(queued := (s.link.queued + c.count) % WRAP),
                stack := s.stack.(sender := Collecting([], c.attempted, c.budget, c.batchSize)))
  }

  // ---------------------------------------------------------------- the worker

  ghost predicate ReceiveStep(s: Path, s': Path) {
    && s.link.channel != []
    && (|| (s.work.worker.Looping? && s.work.backlog == [])
        || (s.work.worker.Round? && |s.work.backlog| < s.work.limit)
        || (s.work.worker.Closing? && s.work.backlog == []))
    && s' == s.(link := s.link.(channel := s.link.channel[1..]),
                work := s.work.(worker := Got(s.link.channel[0], s.work.worker.Closing?)))
  }

  /** The `fetch_sub` of a received batch. */
  ghost predicate SubtractStep(s: Path, s': Path) {
    && s.work.worker.Got?
    && s' == s.(link := s.link.(queued := (s.link.queued - |s.work.worker.batch|) % WRAP),
                work := s.work.(worker := Counted(s.work.worker.batch, s.work.worker.closing)))
  }

  /** The worker alone: extending the backlog, sending from its front, leaving. */
  ghost predicate WorkStep(w: Work, w': Work) {
    match w.worker
    case Counted(batch, closing) =>
      if closing then w' == w.(worker := Closing, disposed := w.disposed + batch)
      else w' == w.(worker := Round, backlog := w.backlog + batch)
    case Looping =>
      || (w.backlog != [] && w' == w.(worker := Sending(w.backlog[0]), backlog := w.backlog[1..]))
      || w' == w.(worker := Closing)
    case Sending(packet) =>
      || w' == w.(worker := Looping, disposed := w.disposed + [packet])       // sent, dropped, too big, failed
      || w' == w.(worker := Looping, backlog := [packet] + w.backlog)         // blocked
      || w' == w.(worker := Closing, disposed := w.disposed + [packet])       // the manager is gone
    case Closing =>
      w.backlog != [] && w' == w.(disposed := w.disposed + [w.backlog[0]], backlog := w.backlog[1..])
    case _ => false
  }

  /** drain_send_channel_round ends at its limit or on an empty channel. */
  ghost predicate RoundEndsStep(s: Path, s': Path) {
    && s.work.worker.Round? && (|s.work.backlog| >= s.work.limit || s.link.channel == [])
    && s' == s.(work := s.work.(worker := Looping))
  }

  /** The worker ends: the receiver goes away with whatever was sent since the channel was seen empty. */
  ghost predicate LeaveStep(s: Path, s': Path) {
    && s.work.worker.Closing? && s.work.backlog == []
    && s' == s.(work := s.work.(worker := Left, disposed := s.work.disposed + Flatten(s.link.channel)),
                link := s.link.(channel := [], open := false, lost := s.link.lost + |Flatten(s.link.channel)|))
  }

  ghost predicate Next(s: Path, s': Path) {
    || (StackStep(s.stack, s'.stack) && s' == s.(stack := s'.stack))
    || (DrainStep(s.stack, s'.stack) && s' == s.(stack := s'.stack))
    || TrySendStep(s, s') || AddStep(s, s')
    || ReceiveStep(s, s') || SubtractStep(s, s') || RoundEndsStep(s, s') || LeaveStep(s, s')
    || (WorkStep(s.work, s'.work) && s' == s.(work := s'.work))
  }

  // ---------------------------------------------------------------- order

  /** What the manager holds between the channel and the tx queue. */
  function InHand(c: Sender): seq<Packet> {
    match c
    case Collecting(batch, _, _, _) => batch
    case Requeueing(left) => left
    case _ => []
  }

  /** What the worker holds in front of its backlog. */
  function InFront(w: Worker): seq<Packet> {
    if w.Sending? then [w.packet] else []
  }

  /** What the worker holds behind its backlog. */
  function Behind(w: Worker): seq<Packet> {
    if w.Got? || w.Counted? then w.batch else []
  }

  function Taken(w: Work): seq<Packet> {
    w.disposed + InFront(w.worker) + w.backlog + Behind(w.worker)
  }

  function Waiting(p: Stack): seq<Packet> {
    InHand(p.sender) + p.tx
  }

  /** All packets on the path, oldest first. */
  function Line(s: Path): seq<Packet> {
    Taken(s.work) + Flatten(s.link.channel) + Waiting(s.stack)
  }

  /** A drain holds no more than a batch, and has taken no more than its budget. */
  ghost predicate WithinBudget(c: Sender) {
    match c
    case Collecting(batch, attempted, budget, batchSize) => |batch| <= attempted <= budget && |batch| <= batchSize
    case Sent(count, attempted, budget, batchSize) => 0 < count <= attempted <= budget && count <= batchSize
    case _ => true
  }

  ghost predicate Ordered(s: Path) {
    && Line(s) == s.stack.emitted
    && |Waiting(s.stack)| <= s.stack.cap
    && (s.stack.token ==> s.stack.sender.Resting? && |s.stack.tx| < s.stack.cap)
    && s.stack.drops == 0
    && |s.link.channel| <= s.link.cap && WithinBudget(s.stack.sender)
    && (s.work.worker.Left? <==> !s.link.open)
    && (!s.link.open ==> s.link.channel == [])
    && ((s.work.worker.Got? || s.work.worker.Counted?) && s.work.worker.closing ==> s.work.backlog == [])
  }

  /** A step of the stack side that keeps what waits, or adds to its end, keeps the line. */
  lemma StackOrder(s: Path, s': Path)
    requires Ordered(s) && s' == s.(stack := s'.stack)
    requires StackStep(s.stack, s'.stack)
    ensures Ordered(s')
  {
    assert s'.stack.tx == s.stack.tx || s'.stack.tx == s.stack.tx + [s'.stack.emitted[|s.stack.emitted|]];
    if s'.stack.tx != s.stack.tx {
      var packet := s'.stack.emitted[|s.stack.emitted|];
      assert Waiting(s'.stack) == Waiting(s.stack) + [packet];
      assert Line(s') == Line(s) + [packet];
    } else {
      assert Waiting(s'.stack) == Waiting(s.stack);
    }
  }

  /** Taking a packet off the tx queue, and putting one back, keep what waits. */
  lemma DrainKeepsWaiting(p: Stack, p': Stack)
    requires DrainStep(p, p')
    ensures Waiting(p') == Waiting(p) && p'.emitted == p.emitted && p'.cap == p.cap && p'.drops == p.drops
    ensures p'.token == p.token && (p.sender.Resting? ==> !p.token)
  {
    match p.sender
    case Collecting(batch, attempted, budget, batchSize) =>
      if attempted < budget && |batch| < batchSize && p.tx != [] {
        assert batch + p.tx == batch + [p.tx[0]] + p.tx[1..];
      }
    case Requeueing(left) =>
      if left != [] {
        assert left == left[..|left| - 1] + [left[|left| - 1]];
      }
    case _ =>
  }

  lemma DrainOrder(s: Path, s': Path)
    requires Ordered(s) && DrainStep(s.stack, s'.stack) && s' == s.(stack := s'.stack)
    ensures Ordered(s')
  {
    DrainKeepsWaiting(s.stack, s'.stack);
  }

  lemma TrySendOrder(s: Path, s': Path)
    requires Ordered(s) && TrySendStep(s, s')
    ensures Ordered(s')
  {
    var batch := s.stack.sender.batch;
    if s.link.open && |s.link.channel| < s.link.cap {
      FlattenSnoc(s.link.channel, batch);
      assert Taken(s.work) + Flatten(s.link.channel) + (batch + s.stack.tx)
          == Taken(s.work) + (Flatten(s.link.channel) + batch) + ([] + s.stack.tx);
    }
  }

  lemma AddOrder(s: Path, s': Path)
    requires Ordered(s) && AddStep(s, s')
    ensures Ordered(s')
  {
  }

  lemma WorkKeepsTaken(w: Work, w': Work)
    requires WorkStep(w, w')
    requires (w.worker.Got? || w.worker.Counted?) && w.worker.closing ==> w.backlog == []
    ensures Taken(w') == Taken(w)
  {
    match w.worker
    case Counted(batch, closing) =>
    case Looping =>
      if w'.worker.Sending? {
        assert w.backlog == [w.backlog[0]] + w.backlog[1..];
      }
    case Sending(packet) =>
    case Closing => assert w.backlog == [w.backlog[0]] + w.backlog[1..];
  }

  lemma WorkOrder(s: Path, s': Path)
    requires Ordered(s) && WorkStep(s.work, s'.work) && s' == s.(work := s'.work)
    ensures Ordered(s')
  {
    WorkKeepsTaken(s.work, s'.work);
  }

  lemma ReceiveOrder(s: Path, s': Path)
    requires Ordered(s) && ReceiveStep(s, s')
    ensures Ordered(s')
  {
    var batch := s.link.channel[0];
    assert Flatten(s.link.channel) == batch + Flatten(s'.link.channel);
    assert Taken(s'.work) == Taken(s.work) + batch;
    assert Taken(s.work) + (batch + Flatten(s'.link.channel)) == Taken(s.work) + batch + Flatten(s'.link.channel);
  }

  lemma SubtractOrder(s: Path, s': Path)
    requires Ordered(s) && (SubtractStep(s, s') || RoundEndsStep(s, s'))
    ensures Ordered(s')
  {
    assert Taken(s'.work) == Taken(s.work);
  }

  lemma LeaveOrder(s: Path, s': Path)
    requires Ordered(s) && LeaveStep(s, s')
    ensures Ordered(s')
  {
    assert Taken(s'.work) == Taken(s.work) + Flatten(s.link.channel);
    assert Flatten(s'.link.channel) == [];
    assert Taken(s'.work) + [] == Taken(s'.work);
  }

  lemma StepOrder(s: Path, s': Path)
    requires Ordered(s) && Next(s, s')
    ensures Ordered(s')
  {
    if StackStep(s.stack, s'.stack) && s' == s.(stack := s'.stack) { StackOrder(s, s'); }
    else if DrainStep(s.stack, s'.stack) && s' == s.(stack := s'.stack) { DrainOrder(s, s'); }
    else if TrySendStep(s, s') { TrySendOrder(s, s'); }
    else if AddStep(s, s') { AddOrder(s, s'); }
    else if ReceiveStep(s, s') { ReceiveOrder(s, s'); }
    else if SubtractStep(s, s') || RoundEndsStep(s, s') { SubtractOrder(s, s'); }
    else if LeaveStep(s, s') { LeaveOrder(s, s'); }
    else { WorkOrder(s, s'); }
  }

  // ---------------------------------------------------------------- queued_packets

  function SentNotAdded(c: Sender): nat {
    if c.Sent? then c.count else 0
  }

  function ReceivedNotSubtracted(w: Worker): nat {
    if w.Got? then |w.batch| else 0
  }

  /** What the counter stands for; it may be negative for a moment, and then the atomic has wrapped. */
  function Balance(s: Path): int {
    |Flatten(s.link.channel)| - SentNotAdded(s.stack.sender) + ReceivedNotSubtracted(s.work.worker) + s.link.lost
  }

  ghost predicate CountInv(s: Path) {
    s.link.queued == Balance(s) % WRAP
  }

  lemma WrapAdd(a: int, n: int)
    ensures (a % WRAP + n) % WRAP == (a + n) % WRAP
  {
    var q := a / WRAP;
    assert a == q * WRAP + a % WRAP;
    WrapShift(a % WRAP + n, q);
  }

  lemma {:induction false} WrapShift(x: int, q: int)
    ensures (x + q * WRAP) % WRAP == x % WRAP
    decreases if q < 0 then -q else q
  {
    if q > 0 {
      WrapShift(x, q - 1);
      assert x + q * WRAP == (x + (q - 1) * WRAP) + WRAP;
    } else if q < 0 {
      WrapShift(x, q + 1);
      assert x + q * WRAP == (x + (q + 1) * WRAP) - WRAP;
    }
  }

  lemma StepCount(s: Path, s': Path)
    requires Ordered(s) && CountInv(s) && Next(s, s')
    ensures CountInv(s')
  {
    if TrySendStep(s, s') {
      FlattenSnoc(s.link.channel, s.stack.sender.batch);
    } else if AddStep(s, s') {
      WrapAdd(Balance(s), s.stack.sender.count);
      assert Balance(s') == Balance(s) + s.stack.sender.count;
    } else if SubtractStep(s, s') {
      WrapAdd(Balance(s), -|s.work.worker.batch|);
      assert Balance(s') == Balance(s) - |s.work.worker.batch|;
    } else {
      OthersKeepBalance(s, s');
    }
  }

  /** Only a batch on its way into or out of the counter changes what it stands for. */
  lemma OthersKeepBalance(s: Path, s': Path)
    requires Ordered(s) && Next(s, s') && !TrySendStep(s, s') && !AddStep(s, s') && !SubtractStep(s, s')
    ensures Balance(s') == Balance(s) && s'.link.queued == s.link.queued
  {
  }

  // ---------------------------------------------------------------- whole runs

  ghost predicate IsRun(deviceCap: nat, channelCap: nat, limit: nat, states: seq<Path>) {
    && |states| > 0 && states[0] == Fresh(deviceCap, channelCap, limit)
    && forall i :: 0 <= i < |states| - 1 ==> Next(states[i], states[i + 1])
  }

  lemma {:induction false} RunInv(deviceCap: nat, channelCap: nat, limit: nat, states: seq<Path>, i: nat)
    requires IsRun(deviceCap, channelCap, limit, states) && i < |states|
    ensures Ordered(states[i]) && CountInv(states[i])
  {
    if i > 0 {
      RunInv(deviceCap, channelCap, limit, states, i - 1);
      StepOrder(states[i - 1], states[i]);
      StepCount(states[i - 1], states[i]);
    }
  }

  /** At every point of every run: packets disposed of, then those the worker holds, then the channel,
      then those the manager holds, then the tx queue are what the stack emitted, in order; the queue
      with what was taken from it never exceeds its capacity, so requeueing always has room; no packet
      was dropped by a token; a token about to be used finds room. */
  lemma EveryRunKeepsOrder(deviceCap: nat, channelCap: nat, limit: nat, states: seq<Path>)
    requires IsRun(deviceCap, channelCap, limit, states)
    ensures forall i :: 0 <= i < |states| ==>
              var s := states[i];
              && Taken(s.work) + Flatten(s.link.channel) + Waiting(s.stack) == s.stack.emitted
              && |InHand(s.stack.sender)| + |s.stack.tx| <= s.stack.cap
              && s.stack.drops == 0 && (s.stack.token ==> |s.stack.tx| < s.stack.cap)
              && |s.link.channel| <= s.link.cap && WithinBudget(s.stack.sender)
  {
    forall i | 0 <= i < |states|
      ensures Ordered(states[i])
    {
      RunInv(deviceCap, channelCap, limit, states, i);
    }
  }

  /** The counter, in every interleaving: modulo 2^64 it is the packets in the channel, less those sent
      and not yet added, plus those received and not yet subtracted, plus those the worker left behind. */
  lemma EveryRunCounts(deviceCap: nat, channelCap: nat, limit: nat, states: seq<Path>)
    requires IsRun(deviceCap, channelCap, limit, states)
    ensures forall i :: 0 <= i < |states| ==>
              var s := states[i];
              s.link.queued == (|Flatten(s.link.channel)| - SentNotAdded(s.stack.sender)
                                + ReceivedNotSubtracted(s.work.worker) + s.link.lost) % WRAP
  {
    forall i | 0 <= i < |states|
      ensures CountInv(states[i])
    {
      RunInv(deviceCap, channelCap, limit, states, i);
    }
  }

  /** The counter is exact whenever neither side is between a queue operation and its count, and the
      worker has not let go of the channel. */
  lemma CounterIsExactAtRest(deviceCap: nat, channelCap: nat, limit: nat, states: seq<Path>, i: nat)
    requires IsRun(deviceCap, channelCap, limit, states) && i < |states|
    requires !states[i].stack.sender.Sent? && !states[i].work.worker.Got? && states[i].link.open
    requires |Flatten(states[i].link.channel)| < WRAP
    ensures states[i].link.queued == |Flatten(states[i].link.channel)|
  {
    RunInv(deviceCap, channelCap, limit, states, i);
    NothingLostWhileOpen(deviceCap, channelCap, limit, states, i);
  }

  lemma {:induction false} NothingLostWhileOpen(deviceCap: nat, channelCap: nat, limit: nat, states: seq<Path>, i: nat)
    requires IsRun(deviceCap, channelCap, limit, states) && i < |states|
    ensures states[i].link.open ==> states[i].link.lost == 0
  {
    if i > 0 {
      NothingLostWhileOpen(deviceCap, channelCap, limit, states, i - 1);
      assert Next(states[i - 1], states[i]);
    }
  }

  /** A full or closed channel: putting the batch back, last packet first, restores the tx queue. */
  lemma {:induction false} RequeueRestores(states: seq<Stack>, batch: seq<Packet>)
    requires |states| == |batch| + 1 && states[0].sender == Requeueing(batch)
    requires forall i :: 0 <= i < |batch| ==> DrainStep(states[i], states[i + 1])
    ensures states[|batch|].sender == Requeueing([])
    ensures states[|batch|].tx == batch + states[0].tx
    decreases |batch|
  {
    if batch != [] {
      var n := |batch| - 1;
      assert DrainStep(states[0], states[1]);
      RequeueRestores(states[1..], batch[..n]);
      assert batch[..n] + ([batch[n]] + states[0].tx) == batch + states[0].tx;
    }
  }
}
