/** The ring buffer shared by one producer and one consumer
    (src/net/tunnel/manager/buffer.rs), cut at every atomic load, every copied byte and every
    atomic store. Steps of the two sides interleave in any order; memory is sequentially
    consistent, which the Acquire/Release pairs give a one-producer one-consumer ring. */
module Spsc {
  import opened Common
  import opened RingIndex
  import Spec = RingSpec

  type Wish = Spec.Wish

  /** Where the producer stands. `data` is the slice given to `enqueue_slice`. */
  datatype Producer =
    | PIdle
    | PLoadOwn(data: seq<byte>)                                     // before loading write_pos
    | PLoadRead(data: seq<byte>, w: nat)                            // in len(), before read_pos
    | PLoadWrite(data: seq<byte>, w: nat, r: nat)                   // in len(), before write_pos
    | PCopy(data: seq<byte>, w: nat, count: nat, copied: nat)       // copying byte by byte
    | PReturned(data: seq<byte>, count: nat)
    | PAskRead                                                      // len() alone, before read_pos
    | PAskWrite(r: nat)                                             // len() alone, before write_pos
    | PAnswer(len: nat)

  datatype Consumer =
    | CIdle
    | CLoadRead(wish: Wish)                                         // in len(), before read_pos
    | CLoadWrite(wish: Wish, r: nat)                                // in len(), before write_pos
    | CReload(wish: Wish, count: nat)                               // before the second read_pos load
    | CCopy(wish: Wish, r: nat, count: nat, out: seq<byte>)         // copying byte by byte
    | CStore(wish: Wish, r: nat, count: nat, out: seq<byte>)        // before storing read_pos
    | CReturned(wish: Wish, count: nat, out: seq<byte>)
    | CAskRead
    | CAskWrite(r: nat)
    | CAnswer(len: nat)

  /** `published` and `taken` record, over the whole run, the bytes that became visible to the
      consumer and the bytes that left the ring. */
  datatype Ring = Ring(
    buf: seq<byte>,
    readPos: nat,
    writePos: nat,
    producer: Producer,
    consumer: Consumer,
    published: seq<byte>,
    taken: seq<byte>)

  datatype Step =
    | Enqueue(data: seq<byte>) | ProducerLen | ProducerMove | ProducerReturn
    | Begin(wish: Wish) | ConsumerLen | ConsumerMove | ConsumerReturn

  ghost predicate Shaped(s: Ring) {
    |s.buf| >= 2 && s.readPos < |s.buf| && s.writePos < |s.buf|
  }

  /** The plain byte queue this ring stands for. */
  function Queue(s: Ring): seq<byte>
    requires Shaped(s)
  {
    Contents(s.buf, s.readPos, s.writePos)
  }

  function Fresh(cap: nat): Ring
    requires cap >= 2
  {
    Ring(seq(cap, _ => 0), 0, 0, PIdle, CIdle, [], [])
  }

  // ---------------------------------------------------------------- steps

  /** Positions a side may hold while it works; the step functions need them to be in range. */
  ghost predicate ProducerFits(s: Ring)
    requires Shaped(s)
  {
    match s.producer
    case PLoadRead(_, w) => w < |s.buf|
    case PLoadWrite(_, w, r) => w < |s.buf| && r < |s.buf|
    case PCopy(data, w, count, copied) => w < |s.buf| && copied <= count < |s.buf| && 0 < count <= |data|
    case PAskWrite(r) => r < |s.buf|
    case _ => true
  }

  ghost predicate ConsumerFits(s: Ring)
    requires Shaped(s)
  {
    match s.consumer
    case CLoadWrite(_, r) => r < |s.buf|
    case CReload(_, count) => count < |s.buf|
    case CCopy(_, r, count, out) => r < |s.buf| && |out| <= count < |s.buf|
    case CStore(_, r, count, _) => r < |s.buf| && count <= |Queue(s)|
    case CAskWrite(r) => r < |s.buf|
    case _ => true
  }

  ghost predicate Enabled(s: Ring, step: Step) {
    && Shaped(s) && ProducerFits(s) && ConsumerFits(s)
    && match step
       case Enqueue(_) => s.producer.PIdle?
       case ProducerLen => s.producer.PIdle?
       case ProducerMove => !s.producer.PIdle? && !s.producer.PReturned? && !s.producer.PAnswer?
       case ProducerReturn => s.producer.PReturned? || s.producer.PAnswer?
       case Begin(_) => s.consumer.CIdle?
       case ConsumerLen => s.consumer.CIdle?
       case ConsumerMove => !s.consumer.CIdle? && !s.consumer.CReturned? && !s.consumer.CAnswer?
       case ConsumerReturn => s.consumer.CReturned? || s.consumer.CAnswer?
  }

  /** One load, one copied byte or one store of the producer. */
  ghost function MoveProducer(s: Ring): Ring
    requires Enabled(s, ProducerMove)
  {
    var cap := |s.buf|;
    match s.producer
    case PLoadOwn(data) => s.(producer := PLoadRead(data, s.writePos))
    case PLoadRead(data, w) => s.(producer := PLoadWrite(data, w, s.readPos))
    case PLoadWrite(data, w, r) =>
      var room := cap - Held(cap, r, s.writePos) - 1;
      var count := Min(|data|, room);
      s.(producer := if count == 0 then PReturned(data, 0) else PCopy(data, w, count, 0))
    case PCopy(data, w, count, copied) =>
      if copied < count then
        s.(buf := s.buf[SplitCell(cap, w, count, copied) := data[copied]],
           producer := PCopy(data, w, count, copied + 1))
      else
        s.(writePos := Advance(cap, w, count),
           published := s.published + data[..count],
           producer := PReturned(data, count))
    case PAskRead => s.(producer := PAskWrite(s.readPos))
    case PAskWrite(r) => s.(producer := PAnswer(Held(cap, r, s.writePos)))
  }

  /** The first step after `len()` in dequeue_slice, peek_copy and consume. `peek_copy` uses the
      positions it has loaded; the other two load read_pos once more. */
  ghost function AfterLen(wish: Wish, r: nat, len: nat): Consumer {
    match wish
    case Take(max) =>
      var count := Min(max, len);
      if count == 0 then CReturned(wish, 0, []) else CReload(wish, count)
    case Peek(max) =>
      var count := Min(max, len);
      if count == 0 then CReturned(wish, 0, []) else CCopy(wish, r, count, [])
    case Drop(n) =>
      var count := Min(n, len);
      if count == 0 then CReturned(wish, 0, []) else CReload(wish, count)
  }

  /** One load, one copied byte or one store of the consumer. */
  ghost function MoveConsumer(s: Ring): Ring
    requires Enabled(s, ConsumerMove)
  {
    var cap := |s.buf|;
    match s.consumer
    case CLoadRead(wish) => s.(consumer := CLoadWrite(wish, s.readPos))
    case CLoadWrite(wish, r) => s.(consumer := AfterLen(wish, r, Held(cap, r, s.writePos)))
    case CReload(wish, count) =>
      s.(consumer := if wish.Drop? then CStore(wish, s.readPos, count, [])
                     else CCopy(wish, s.readPos, count, []))
    case CCopy(wish, r, count, out) =>
      if |out| < count then
        s.(consumer := CCopy(wish, r, count, out + [s.buf[SplitCell(cap, r, count, |out|)]]))
      else if wish.Take? then
        s.(consumer := CStore(wish, r, count, out))
      else
        s.(consumer := CReturned(wish, count, out))
    case CStore(wish, r, count, out) =>
      s.(readPos := Advance(cap, r, count),
         taken := s.taken + Queue(s)[..count],
         consumer := CReturned(wish, count, out))
    case CAskRead => s.(consumer := CAskWrite(s.readPos))
    case CAskWrite(r) => s.(consumer := CAnswer(Held(cap, r, s.writePos)))
  }

  ghost function Next(s: Ring, step: Step): Ring
    requires Enabled(s, step)
  {
    match step
    case Enqueue(data) => s.(producer := PLoadOwn(data))
    case ProducerLen => s.(producer := PAskRead)
    case ProducerMove => MoveProducer(s)
    case ProducerReturn => s.(producer := PIdle)
    case Begin(wish) => s.(consumer := CLoadRead(wish))
    case ConsumerLen => s.(consumer := CAskRead)
    case ConsumerMove => MoveConsumer(s)
    case ConsumerReturn => s.(consumer := CIdle)
  }

  // ---------------------------------------------------------------- invariant

  /** A read position loaded earlier shows at least as many held bytes as there are now. */
  ghost predicate StaleRead(s: Ring, r: nat)
    requires Shaped(s)
  {
    r < |s.buf| && Held(|s.buf|, s.readPos, s.writePos) <= Held(|s.buf|, r, s.writePos)
  }

  ghost predicate ProducerInv(s: Ring)
    requires Shaped(s)
  {
    var cap := |s.buf|;
    match s.producer
    case PLoadRead(_, w) => w == s.writePos
    case PLoadWrite(_, w, r) => w == s.writePos && StaleRead(s, r)
    case PCopy(data, w, count, copied) =>
      && w == s.writePos && copied <= count && 0 < count <= |data|
      && |Queue(s)| + count < cap
      && forall i :: 0 <= i < copied ==> s.buf[Cell(cap, w, i)] == data[i]
    case PReturned(data, count) => count <= |data|
    case PAskWrite(r) => StaleRead(s, r)
    case PAnswer(len) => |Queue(s)| <= len < cap
    case _ => true
  }

  ghost predicate ConsumerInv(s: Ring)
    requires Shaped(s)
  {
    match s.consumer
    case CLoadWrite(_, r) => r == s.readPos
    case CReload(wish, count) => count <= |Queue(s)| && !wish.Peek?
    case CCopy(wish, r, count, out) =>
      && r == s.readPos && |out| <= count <= |Queue(s)| && out == Queue(s)[..|out|] && !wish.Drop?
    case CStore(wish, r, count, out) =>
      && r == s.readPos && count <= |Queue(s)|
      && !wish.Peek? && out == (if wish.Take? then Queue(s)[..count] else [])
    case CReturned(wish, count, out) =>
      && (wish.Peek? ==> |out| == count && out <= Queue(s))
      && (wish.Take? ==> |out| == count <= |s.taken| && out == s.taken[|s.taken| - count..])
    case CAskWrite(r) => r == s.readPos
    case CAnswer(len) => len <= |Queue(s)|
    case _ => true
  }

  ghost predicate Inv(s: Ring) {
    && Shaped(s)
    && ProducerInv(s)
    && ConsumerInv(s)
    && s.taken + Queue(s) == s.published
  }

  lemma InvFits(s: Ring)
    requires Inv(s)
    ensures ProducerFits(s) && ConsumerFits(s)
  {
  }

  lemma FreshInv(cap: nat)
    requires cap >= 2
    ensures Inv(Fresh(cap)) && Queue(Fresh(cap)) == []
  {
  }

  // ---------------------------------------------------------------- every step keeps the invariant

  /** Copying one byte behind the write position leaves the held bytes alone. */
  lemma CopyKeepsQueue(s: Ring)
    requires Inv(s) && s.producer.PCopy? && s.producer.copied < s.producer.count
    ensures var p := s.producer;
            var idx := SplitCell(|s.buf|, p.w, p.count, p.copied);
            && idx == Cell(|s.buf|, p.w, p.copied) < |s.buf|
            && (forall i :: 0 <= i < |Queue(s)| ==> Cell(|s.buf|, s.readPos, i) != idx)
            && Contents(s.buf[idx := p.data[p.copied]], s.readPos, s.writePos) == Queue(s)
  {
    FreeCellsAreNotHeld(|s.buf|, s.readPos, s.writePos, s.producer.copied);
  }

  lemma ProducerCopyInv(s: Ring)
    requires Inv(s) && s.producer.PCopy? && s.producer.copied < s.producer.count
    requires Enabled(s, ProducerMove)
    ensures Inv(MoveProducer(s)) && Queue(MoveProducer(s)) == Queue(s)
  {
    CopyKeepsQueue(s);
    var s' := MoveProducer(s);
    assert Queue(s') == Queue(s);
    var p := s.producer;
    forall i | 0 <= i < p.copied + 1
      ensures s'.buf[Cell(|s.buf|, p.w, i)] == p.data[i]
    {
    }
  }

  lemma ProducerStoreInv(s: Ring)
    requires Inv(s) && s.producer.PCopy? && s.producer.copied == s.producer.count
    requires Enabled(s, ProducerMove)
    ensures Inv(MoveProducer(s))
    ensures Queue(MoveProducer(s)) == Queue(s) + s.producer.data[..s.producer.count]
  {
    var p := s.producer;
    PushBack(s.buf, s.readPos, s.writePos, p.data[..p.count]);
    var s' := MoveProducer(s);
    assert s'.taken + Queue(s') == (s.taken + Queue(s)) + p.data[..p.count];
    assert Queue(s) <= Queue(s');
  }

  /** Loads change no shared cell. */
  lemma ProducerLoadInv(s: Ring)
    requires Inv(s) && !s.producer.PCopy?
    requires Enabled(s, ProducerMove)
    ensures Inv(MoveProducer(s)) && Queue(MoveProducer(s)) == Queue(s)
  {
    var s' := MoveProducer(s);
    assert Queue(s') == Queue(s);
    assert ConsumerInv(s');
  }

  lemma ProducerMoveInv(s: Ring)
    requires Inv(s) && Enabled(s, ProducerMove)
    ensures Inv(MoveProducer(s))
  {
    if !s.producer.PCopy? {
      ProducerLoadInv(s);
    } else if s.producer.copied < s.producer.count {
      ProducerCopyInv(s);
    } else {
      ProducerStoreInv(s);
    }
  }

  lemma ConsumerCopyInv(s: Ring)
    requires Inv(s) && s.consumer.CCopy?
    requires Enabled(s, ConsumerMove)
    ensures Inv(MoveConsumer(s)) && Queue(MoveConsumer(s)) == Queue(s)
  {
    var c := s.consumer;
    var s' := MoveConsumer(s);
    if |c.out| < c.count {
      assert SplitCell(|s.buf|, c.r, c.count, |c.out|) == Cell(|s.buf|, s.readPos, |c.out|);
      assert s'.consumer.out == Queue(s)[..|c.out| + 1];
    } else {
      assert c.out == Queue(s)[..c.count];
    }
  }

  lemma ConsumerStoreInv(s: Ring)
    requires Inv(s) && s.consumer.CStore?
    requires Enabled(s, ConsumerMove)
    ensures Inv(MoveConsumer(s))
    ensures Queue(s) == Queue(s)[..s.consumer.count] + Queue(MoveConsumer(s))
  {
    var n := s.consumer.count;
    DropFront(s.buf, s.readPos, s.writePos, n);
    var s' := MoveConsumer(s);
    assert Queue(s) == Queue(s)[..n] + Queue(s)[n..];
    assert s'.taken + Queue(s') == s.taken + (Queue(s)[..n] + Queue(s)[n..]);
  }

  /** Loads change no shared cell. */
  lemma ConsumerLoadInv(s: Ring)
    requires Inv(s) && !s.consumer.CCopy? && !s.consumer.CStore?
    requires Enabled(s, ConsumerMove)
    ensures Inv(MoveConsumer(s)) && Queue(MoveConsumer(s)) == Queue(s)
  {
    var s' := MoveConsumer(s);
    assert Queue(s') == Queue(s);
    assert ProducerInv(s');
  }

  lemma ConsumerMoveInv(s: Ring)
    requires Inv(s) && Enabled(s, ConsumerMove)
    ensures Inv(MoveConsumer(s))
  {
    if s.consumer.CCopy? {
      ConsumerCopyInv(s);
    } else if s.consumer.CStore? {
      ConsumerStoreInv(s);
    } else {
      ConsumerLoadInv(s);
    }
  }

  lemma StepInv(s: Ring, step: Step)
    requires Inv(s) && Enabled(s, step)
    ensures Inv(Next(s, step))
  {
    match step
    case ProducerMove => ProducerMoveInv(s);
    case ConsumerMove => ConsumerMoveInv(s);
    case _ =>
  }

  // ---------------------------------------------------------------- refinement

  ghost function AbsProducer(s: Ring): Spec.Producer
    requires Shaped(s) && ProducerFits(s)
  {
    var cap := |s.buf|;
    match s.producer
    case PIdle => Spec.PIdle
    case PLoadOwn(data) => Spec.Enqueuing(data)
    case PLoadRead(data, _) => Spec.Enqueuing(data)
    case PLoadWrite(data, _, r) => Spec.Producer.Copying(data, Min(|data|, cap - 1 - Held(cap, r, s.writePos)))
    case PCopy(data, _, count, _) => Spec.Producer.Copying(data, count)
    case PReturned(data, count) => Spec.PReturned(data, count)
    case PAskRead => Spec.PAsking
    case PAskWrite(r) => Spec.PAnswer(Held(cap, r, s.writePos))
    case PAnswer(len) => Spec.PAnswer(len)
  }

  ghost function AbsConsumer(k: Consumer): Spec.Consumer {
    match k
    case CIdle => Spec.CIdle
    case CLoadRead(wish) => Spec.Working(wish)
    case CLoadWrite(wish, _) => Spec.Working(wish)
    case CReload(wish, count) => Spec.Consumer.Copying(wish, count)
    case CCopy(wish, _, count, _) => Spec.Consumer.Copying(wish, count)
    case CStore(wish, _, count, _) => Spec.Consumer.Copying(wish, count)
    case CReturned(wish, count, out) => Spec.CReturned(wish, count, out)
    case CAskRead => Spec.CAsking
    case CAskWrite(_) => Spec.CAsking
    case CAnswer(len) => Spec.CAnswer(len)
  }

  ghost function Abs(s: Ring): Spec.Queue
    requires Shaped(s) && ProducerFits(s)
  {
    Spec.Queue(|s.buf|, Queue(s), AbsProducer(s), AbsConsumer(s.consumer), s.published, s.taken)
  }

  /** The queue step a micro-step stands for; None is a step the queue does not notice. Looking is
      the load of the other side's position; taking effect is the store of one's own (for a peek,
      which stores nothing, the return). */
  ghost function Label(s: Ring, step: Step): Option<Spec.Step> {
    match step
    case Enqueue(data) => Some(Spec.Enqueue(data))
    case ProducerLen => Some(Spec.AskProducer)
    case ProducerReturn => Some(Spec.ReturnProducer)
    case ProducerMove =>
      if s.producer.PLoadRead? || s.producer.PAskRead? then Some(Spec.Look)
      else if s.producer.PCopy? && s.producer.copied == s.producer.count then Some(Spec.Publish)
      else if s.producer.PLoadWrite? && Shaped(s) && ProducerFits(s)
        && AbsProducer(s).Copying? && AbsProducer(s).count == 0 then Some(Spec.Publish)
      else None
    case Begin(wish) => Some(Spec.Begin(wish))
    case ConsumerLen => Some(Spec.AskConsumer)
    case ConsumerReturn => Some(Spec.ReturnConsumer)
    case ConsumerMove =>
      if s.consumer.CLoadWrite? || s.consumer.CAskWrite? then Some(Spec.Inspect)
      else if s.consumer.CStore? then Some(Spec.Finish)
      else if s.consumer.CCopy? && |s.consumer.out| == s.consumer.count && s.consumer.wish.Peek? then Some(Spec.Finish)
      else None
  }

  /** What `Label` promises about one micro-step. */
  ghost predicate Simulated(s: Ring, s': Ring, effect: Option<Spec.Step>) {
    && Inv(s) && Inv(s') && ProducerFits(s) && ProducerFits(s')
    && match effect
       case None => Abs(s') == Abs(s)
       case Some(a) => Spec.Enabled(Abs(s), a) && Abs(s') == Spec.Next(Abs(s), a)
  }

  lemma LookSimulated(s: Ring)
    requires Inv(s) && Enabled(s, ProducerMove) && (s.producer.PLoadRead? || s.producer.PAskRead?)
    ensures Simulated(s, Next(s, ProducerMove), Label(s, ProducerMove))
  {
    ProducerLoadInv(s);
    InvFits(MoveProducer(s));
  }

  /** Loading write_pos, the producer's own position, is not noticed, unless there is no room. */
  lemma OwnPositionSimulated(s: Ring)
    requires Inv(s) && Enabled(s, ProducerMove)
    requires s.producer.PLoadOwn? || s.producer.PLoadWrite? || s.producer.PAskWrite?
    ensures Simulated(s, Next(s, ProducerMove), Label(s, ProducerMove))
  {
    ProducerLoadInv(s);
    InvFits(MoveProducer(s));
  }

  lemma LoadSimulated(s: Ring)
    requires Inv(s) && Enabled(s, ProducerMove) && !s.producer.PCopy?
    ensures Simulated(s, Next(s, ProducerMove), Label(s, ProducerMove))
  {
    if s.producer.PLoadRead? || s.producer.PAskRead? {
      LookSimulated(s);
    } else {
      OwnPositionSimulated(s);
    }
  }

  lemma CopySimulated(s: Ring)
    requires Inv(s) && Enabled(s, ProducerMove) && s.producer.PCopy? && s.producer.copied < s.producer.count
    ensures Simulated(s, Next(s, ProducerMove), Label(s, ProducerMove))
  {
    ProducerCopyInv(s);
    InvFits(MoveProducer(s));
  }

  lemma StoreSimulated(s: Ring)
    requires Inv(s) && Enabled(s, ProducerMove) && s.producer.PCopy? && s.producer.copied == s.producer.count
    ensures Simulated(s, Next(s, ProducerMove), Label(s, ProducerMove))
  {
    ProducerStoreInv(s);
    InvFits(MoveProducer(s));
  }

  lemma ProducerSimulated(s: Ring)
    requires Inv(s) && Enabled(s, ProducerMove)
    ensures Simulated(s, Next(s, ProducerMove), Label(s, ProducerMove))
  {
    if !s.producer.PCopy? {
      LoadSimulated(s);
    } else if s.producer.copied < s.producer.count {
      CopySimulated(s);
    } else {
      StoreSimulated(s);
    }
  }

  lemma InspectSimulated(s: Ring)
    requires Inv(s) && Enabled(s, ConsumerMove) && (s.consumer.CLoadWrite? || s.consumer.CAskWrite?)
    ensures Simulated(s, Next(s, ConsumerMove), Label(s, ConsumerMove))
  {
    ConsumerLoadInv(s);
    InvFits(MoveConsumer(s));
  }

  /** Loading read_pos, the consumer's own position, is not noticed. */
  lemma OwnLoadSimulated(s: Ring)
    requires Inv(s) && Enabled(s, ConsumerMove)
    requires s.consumer.CLoadRead? || s.consumer.CReload? || s.consumer.CAskRead?
    ensures Simulated(s, Next(s, ConsumerMove), Label(s, ConsumerMove))
  {
    ConsumerLoadInv(s);
    InvFits(MoveConsumer(s));
  }

  lemma ReadSimulated(s: Ring)
    requires Inv(s) && Enabled(s, ConsumerMove) && s.consumer.CCopy?
    ensures Simulated(s, Next(s, ConsumerMove), Label(s, ConsumerMove))
  {
    ConsumerCopyInv(s);
    InvFits(MoveConsumer(s));
  }

  lemma ReleaseSimulated(s: Ring)
    requires Inv(s) && Enabled(s, ConsumerMove) && s.consumer.CStore?
    ensures Simulated(s, Next(s, ConsumerMove), Label(s, ConsumerMove))
  {
    ConsumerStoreInv(s);
    var s' := MoveConsumer(s);
    InvFits(s');
    assert Queue(s') == Queue(s)[s.consumer.count..];
    assert AbsProducer(s') == AbsProducer(s);
  }

  lemma ConsumerSimulated(s: Ring)
    requires Inv(s) && Enabled(s, ConsumerMove)
    ensures Simulated(s, Next(s, ConsumerMove), Label(s, ConsumerMove))
  {
    if s.consumer.CStore? {
      ReleaseSimulated(s);
    } else if s.consumer.CCopy? {
      ReadSimulated(s);
    } else if s.consumer.CLoadWrite? || s.consumer.CAskWrite? {
      InspectSimulated(s);
    } else {
      OwnLoadSimulated(s);
    }
  }

  /** Calls and returns of the producer. */
  lemma ProducerEdgeSimulated(s: Ring, step: Step)
    requires Inv(s) && Enabled(s, step) && (step.Enqueue? || step.ProducerLen? || step.ProducerReturn?)
    ensures Simulated(s, Next(s, step), Label(s, step))
    ensures |Next(s, step).buf| == |s.buf|
  {
    StepInv(s, step);
    InvFits(Next(s, step));
  }

  lemma ConsumerEdgeSimulated(s: Ring, step: Step)
    requires Inv(s) && Enabled(s, step) && (step.Begin? || step.ConsumerLen? || step.ConsumerReturn?)
    ensures Simulated(s, Next(s, step), Label(s, step))
    ensures |Next(s, step).buf| == |s.buf|
  {
    StepInv(s, step);
    InvFits(Next(s, step));
  }

  /** Every micro-step is one step of the queue or none, under every interleaving. */
  lemma StepRefines(s: Ring, step: Step)
    requires Inv(s) && Enabled(s, step)
    ensures Simulated(s, Next(s, step), Label(s, step))
    ensures |Next(s, step).buf| == |s.buf|
  {
    match step
    case ProducerMove => ProducerSimulated(s);
    case ConsumerMove => ConsumerSimulated(s);
    case Enqueue(_) => ProducerEdgeSimulated(s, step);
    case ProducerLen => ProducerEdgeSimulated(s, step);
    case ProducerReturn => ProducerEdgeSimulated(s, step);
    case _ => ConsumerEdgeSimulated(s, step);
  }

  // ---------------------------------------------------------------- whole runs

  /** A run: the states visited and the steps taken between them. */
  ghost predicate IsRun(cap: nat, states: seq<Ring>, steps: seq<Step>) {
    && cap >= 2
    && |states| == |steps| + 1 && states[0] == Fresh(cap)
    && forall i :: 0 <= i < |steps| ==> Enabled(states[i], steps[i]) && states[i + 1] == Next(states[i], steps[i])
  }

  /** The cell the producer writes next, if it is copying. */
  ghost function WriteCell(s: Ring): Option<nat>
    requires Shaped(s) && ProducerFits(s)
  {
    if s.producer.PCopy? && s.producer.copied < s.producer.count
    then Some(SplitCell(|s.buf|, s.producer.w, s.producer.count, s.producer.copied)) else None
  }

  /** The cell the consumer reads next, if it is copying. */
  ghost function ReadCell(s: Ring): Option<nat>
    requires Shaped(s) && ConsumerFits(s)
  {
    if s.consumer.CCopy? && |s.consumer.out| < s.consumer.count
    then Some(SplitCell(|s.buf|, s.consumer.r, s.consumer.count, |s.consumer.out|)) else None
  }

  /** What holds at every point of every run: bytes consumed followed by bytes held are the bytes
      published; a write in progress touches no held cell, so no cell the consumer reads; the
      room computed from positions loaded earlier is never negative and never more than there is; the
      bytes a take has copied out are those that leave the ring. */
  ghost predicate Safe(s: Ring) {
    && Shaped(s) && ProducerFits(s) && ConsumerFits(s)
    && s.taken + Queue(s) == s.published
    && |Queue(s)| < |s.buf|
    && (WriteCell(s).Some? ==>
          forall i :: 0 <= i < |Queue(s)| ==> Cell(|s.buf|, s.readPos, i) != WriteCell(s).value)
    && (WriteCell(s).Some? && ReadCell(s).Some? ==> WriteCell(s).value != ReadCell(s).value)
    && (s.producer.PLoadWrite? ==>
          0 <= |s.buf| - Held(|s.buf|, s.producer.r, s.writePos) - 1 <= |s.buf| - |Queue(s)| - 1)
    && (s.producer.PAnswer? ==> 0 <= |s.buf| - s.producer.len - 1 <= |s.buf| - |Queue(s)| - 1)
    && (s.consumer.CAnswer? ==> s.consumer.len <= |Queue(s)|)
    && (s.consumer.CStore? && s.consumer.wish.Take? ==> s.consumer.out == Queue(s)[..s.consumer.count])
    && (s.consumer.CReturned? && s.consumer.wish.Take? ==>
          |s.consumer.out| <= |s.taken| && s.consumer.out == s.taken[|s.taken| - |s.consumer.out|..])
  }

  lemma InvSafe(s: Ring)
    requires Inv(s)
    ensures Safe(s)
  {
    InvFits(s);
    if WriteCell(s).Some? {
      CopyKeepsQueue(s);
      if ReadCell(s).Some? {
        assert ReadCell(s).value == Cell(|s.buf|, s.readPos, |s.consumer.out|);
      }
    }
  }

  lemma {:induction false} RunInv(cap: nat, states: seq<Ring>, steps: seq<Step>, i: nat)
    requires IsRun(cap, states, steps) && i < |states|
    ensures Inv(states[i]) && |states[i].buf| == cap
  {
    if i == 0 {
      FreshInv(cap);
    } else {
      RunInv(cap, states, steps, i - 1);
      StepRefines(states[i - 1], steps[i - 1]);
    }
  }

  /** Under every interleaving. */
  lemma EveryInterleavingIsSafe(cap: nat, states: seq<Ring>, steps: seq<Step>)
    requires IsRun(cap, states, steps)
    ensures forall i :: 0 <= i < |states| ==> Safe(states[i])
  {
    forall i | 0 <= i < |states| ensures Safe(states[i]) {
      RunInv(cap, states, steps, i);
      InvSafe(states[i]);
    }
  }

  /** A side that has work to do is never blocked: whatever the other side did, its next step is
      defined. */
  lemma NeverStuck(cap: nat, states: seq<Ring>, steps: seq<Step>, i: nat)
    requires IsRun(cap, states, steps) && i < |states|
    ensures var s := states[i];
            && (Enabled(s, ProducerMove) || Enabled(s, ProducerReturn) || Enabled(s, ProducerLen))
            && (Enabled(s, ConsumerMove) || Enabled(s, ConsumerReturn) || Enabled(s, ConsumerLen))
  {
    RunInv(cap, states, steps, i);
    InvFits(states[i]);
  }

  /** The queue steps that the first `n` micro-steps of a run stand for. */
  ghost function Effects(states: seq<Ring>, steps: seq<Step>, n: nat): seq<Spec.Step>
    requires n <= |steps| < |states|
  {
    if n == 0 then []
    else
      match Label(states[n - 1], steps[n - 1])
      case None => Effects(states, steps, n - 1)
      case Some(a) => Effects(states, steps, n - 1) + [a]
  }

  lemma StepOfRun(cap: nat, states: seq<Ring>, steps: seq<Step>, n: nat)
    requires IsRun(cap, states, steps) && n < |steps|
    ensures Simulated(states[n], states[n + 1], Label(states[n], steps[n]))
  {
    RunInv(cap, states, steps, n);
    assert Enabled(states[n], steps[n]);
    StepRefines(states[n], steps[n]);
  }

  /** Every run of micro-steps is a run of the plain queue: its effects, in order, lead from the empty
      queue to the one the ring stands for. */
  lemma {:induction false} RunRefines(cap: nat, states: seq<Ring>, steps: seq<Step>, n: nat)
    returns (queues: seq<Spec.Queue>)
    requires IsRun(cap, states, steps) && n <= |steps|
    ensures Spec.IsRun(cap, queues, Effects(states, steps, n))
    ensures Shaped(states[n]) && ProducerFits(states[n]) && queues[|queues| - 1] == Abs(states[n])
  {
    if n == 0 {
      FreshInv(cap);
      queues := [Spec.Fresh(cap)];
    } else {
      queues := RunRefines(cap, states, steps, n - 1);
      StepOfRun(cap, states, steps, n - 1);
      match Label(states[n - 1], steps[n - 1])
      case None =>
      case Some(a) =>
        Spec.RunSnoc(cap, queues, Effects(states, steps, n - 1), a);
        queues := queues + [Abs(states[n])];
    }
  }
}
