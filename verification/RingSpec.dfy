/** The ring buffer as its callers may think of it: a bounded byte queue on which each call looks
    at the other side once and takes effect once. Module Spsc refines it step by step. */
module RingSpec {
  import opened Common

  datatype Producer =
    | PIdle
    | Enqueuing(data: seq<byte>)                    // enqueue_slice, room not looked at yet
    | Copying(data: seq<byte>, count: nat)          // room looked at: `count` bytes will be written
    | PReturned(data: seq<byte>, count: nat)
    | PAsking                                       // len(), other position not looked at yet
    | PAnswer(len: nat)

  /** What the consumer wants: take bytes, look at them, or drop them. */
  datatype Wish = Take(max: nat) | Peek(max: nat) | Drop(max: nat)

  datatype Consumer =
    | CIdle
    | Working(wish: Wish)
    | Copying(wish: Wish, count: nat)               // length looked at: `count` bytes are concerned
    | CReturned(wish: Wish, count: nat, out: seq<byte>)
    | CAsking
    | CAnswer(len: nat)

  /** `published` and `taken` record, over the whole run, the bytes that entered and left. */
  datatype Queue = Queue(
    cap: nat, held: seq<byte>,
    producer: Producer, consumer: Consumer,
    published: seq<byte>, taken: seq<byte>)

  function Fresh(cap: nat): Queue {
    Queue(cap, [], PIdle, CIdle, [], [])
  }

  datatype Step =
    | Enqueue(data: seq<byte>) | AskProducer | Look | Publish | ReturnProducer
    | Begin(wish: Wish) | AskConsumer | Inspect | Finish | ReturnConsumer

  ghost predicate Enabled(q: Queue, step: Step) {
    match step
    case Enqueue(_) => q.producer.PIdle?
    case AskProducer => q.producer.PIdle?
    case Look => q.producer.Enqueuing? || q.producer.PAsking?
    case Publish => q.producer.Copying? && q.producer.count <= |q.producer.data|
    case ReturnProducer => q.producer.PReturned? || q.producer.PAnswer?
    case Begin(_) => q.consumer.CIdle?
    case AskConsumer => q.consumer.CIdle?
    case Inspect => q.consumer.Working? || q.consumer.CAsking?
    case Finish => q.consumer.Copying? && q.consumer.count <= |q.held|
    case ReturnConsumer => q.consumer.CReturned? || q.consumer.CAnswer?
  }

  ghost function Inspected(wish: Wish, len: nat): Consumer {
    var count := Min(wish.max, len);
    if count == 0 then CReturned(wish, 0, []) else Consumer.Copying(wish, count)
  }

  ghost function Next(q: Queue, step: Step): Queue
    requires Enabled(q, step)
  {
    match step
    case Enqueue(data) => q.(producer := Enqueuing(data))
    case AskProducer => q.(producer := PAsking)
    case Look =>
      if q.producer.PAsking? then q.(producer := PAnswer(|q.held|))
      else q.(producer := Producer.Copying(q.producer.data,
                                           Max(0, Min(|q.producer.data|, q.cap - 1 - |q.held|))))
    case Publish =>
      var slice := q.producer.data[..q.producer.count];
      q.(held := q.held + slice, published := q.published + slice,
         producer := PReturned(q.producer.data, q.producer.count))
    case ReturnProducer => q.(producer := PIdle)
    case Begin(wish) => q.(consumer := Working(wish))
    case AskConsumer => q.(consumer := CAsking)
    case Inspect =>
      if q.consumer.CAsking? then q.(consumer := CAnswer(|q.held|))
      else q.(consumer := Inspected(q.consumer.wish, |q.held|))
    case Finish =>
      var wish, n := q.consumer.wish, q.consumer.count;
      var out := if wish.Drop? then [] else q.held[..n];
      if wish.Peek? then q.(consumer := CReturned(wish, n, out))
      else q.(held := q.held[n..], taken := q.taken + q.held[..n], consumer := CReturned(wish, n, out))
    case ReturnConsumer => q.(consumer := CIdle)
  }

  /** Between looking and acting, the other side can only have helped. */
  ghost predicate Inv(q: Queue) {
    && |q.held| < q.cap
    && q.taken + q.held == q.published
    && (match q.producer
        case Copying(data, count) => count <= |data| && |q.held| + count < q.cap
        case PReturned(data, count) => count <= |data|
        case PAnswer(len) => |q.held| <= len < q.cap
        case _ => true)
    && (match q.consumer
        case Copying(wish, count) => 0 < count <= |q.held| && count <= wish.max
        case CReturned(wish, count, out) =>
          (wish.Peek? ==> out <= q.held) && (!wish.Drop? ==> |out| == count)
        case CAnswer(len) => len <= |q.held|
        case _ => true)
  }

  lemma PublishInv(q: Queue)
    requires Inv(q) && Enabled(q, Publish)
    ensures Inv(Next(q, Publish))
  {
    var q' := Next(q, Publish);
    assert q'.taken + q'.held == (q.taken + q.held) + q.producer.data[..q.producer.count];
  }

  lemma FinishInv(q: Queue)
    requires Inv(q) && Enabled(q, Finish)
    ensures Inv(Next(q, Finish))
  {
    var n := q.consumer.count;
    assert q.held == q.held[..n] + q.held[n..];
    assert q.taken + q.held[..n] + q.held[n..] == q.taken + q.held;
  }

  lemma StepInv(q: Queue, step: Step)
    requires Inv(q) && Enabled(q, step)
    ensures Inv(Next(q, step))
    ensures Next(q, step).cap == q.cap
  {
    match step
    case Publish => PublishInv(q);
    case Finish => FinishInv(q);
    case _ =>
  }

  /** A run of queue steps from the empty queue. */
  ghost predicate IsRun(cap: nat, queues: seq<Queue>, steps: seq<Step>) {
    && |queues| == |steps| + 1 && queues[0] == Fresh(cap)
    && forall i :: 0 <= i < |steps| ==> Enabled(queues[i], steps[i]) && queues[i + 1] == Next(queues[i], steps[i])
  }

  lemma RunSnoc(cap: nat, queues: seq<Queue>, steps: seq<Step>, step: Step)
    requires IsRun(cap, queues, steps) && Enabled(queues[|steps|], step)
    ensures IsRun(cap, queues + [Next(queues[|steps|], step)], steps + [step])
  {
  }

  // ---------------------------------------------------------------- calls that nothing interrupts

  /** `enqueue_slice` alone appends as much of the slice as there is room for, one cell staying free, and
      returns that count. */
  lemma EnqueueAlone(q: Queue, data: seq<byte>) returns (done: Queue)
    requires Inv(q) && q.producer.PIdle?
    ensures Enabled(q, Enqueue(data)) && Enabled(Next(q, Enqueue(data)), Look)
    ensures Enabled(Next(Next(q, Enqueue(data)), Look), Publish)
    ensures done == Next(Next(Next(q, Enqueue(data)), Look), Publish)
    ensures var n := if |data| <= q.cap - 1 - |q.held| then |data| else q.cap - 1 - |q.held|;
            done == q.(held := q.held + data[..n], published := q.published + data[..n],
                       producer := PReturned(data, n))
  {
    done := Next(Next(Next(q, Enqueue(data)), Look), Publish);
  }

  /** The state in which a consumer's call alone returns. */
  ghost function CallAlone(q: Queue, wish: Wish): Queue
    requires Inv(q) && q.consumer.CIdle?
  {
    var seen := Next(Next(q, Begin(wish)), Inspect);
    if seen.consumer.Copying? then Next(seen, Finish) else seen
  }

  /** `dequeue_slice` alone gives and removes the oldest bytes, as many as are held and wanted. */
  lemma TakeAlone(q: Queue, max: nat)
    requires Inv(q) && q.consumer.CIdle?
    ensures var n := if max <= |q.held| then max else |q.held|;
            CallAlone(q, Take(max))
            == q.(held := q.held[n..], taken := q.taken + q.held[..n], consumer := CReturned(Take(max), n, q.held[..n]))
  {
    assert q.held[0..] == q.held && q.taken + q.held[..0] == q.taken;
  }

  /** `peek_copy` alone gives them and removes none. */
  lemma PeekAlone(q: Queue, max: nat)
    requires Inv(q) && q.consumer.CIdle?
    ensures var n := if max <= |q.held| then max else |q.held|;
            CallAlone(q, Peek(max)) == q.(consumer := CReturned(Peek(max), n, q.held[..n]))
  {
  }

  /** `consume` alone removes them and gives none. */
  lemma DropAlone(q: Queue, max: nat)
    requires Inv(q) && q.consumer.CIdle?
    ensures var n := if max <= |q.held| then max else |q.held|;
            CallAlone(q, Drop(max))
            == q.(held := q.held[n..], taken := q.taken + q.held[..n], consumer := CReturned(Drop(max), n, []))
  {
    assert q.held[0..] == q.held && q.taken + q.held[..0] == q.taken;
  }

  /** `len` alone answers with the number of bytes held. */
  lemma LenAlone(q: Queue)
    requires Inv(q)
    ensures q.producer.PIdle? ==> Next(Next(q, AskProducer), Look) == q.(producer := PAnswer(|q.held|))
    ensures q.consumer.CIdle? ==> Next(Next(q, AskConsumer), Inspect) == q.(consumer := CAnswer(|q.held|))
  {
  }
}
