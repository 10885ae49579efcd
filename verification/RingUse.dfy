/** The byte path uses its rings only through their calls: every step of client or manager is no step,
    one step or two steps of module RingSpec on each ring. Module Spsc refines those steps down to single
    loads, copied bytes and stores. */
module RingUse {
  import opened BytePath
  import S = RingSpec

  ghost predicate Moves(q: S.Queue, q': S.Queue) {
    || q' == q
    || (exists a :: RingStep(q, q', a))
    || (exists m, a, b :: RingStep(q, m, a) && RingStep(m, q', b))
  }

  /** A call of the producer begins, ends, or ends and is followed by another. */
  ghost predicate ProducerCalls(p: S.Producer, p': S.Producer) {
    || (p.PIdle? && (p'.PAsking? || p'.Enqueuing?))
    || ((p.PAnswer? || p.PReturned?) && (p'.PIdle? || p'.PAsking? || p'.Enqueuing?))
  }

  ghost predicate ConsumerCalls(k: S.Consumer, k': S.Consumer) {
    || (k.CIdle? && (k'.CAsking? || k'.Working?))
    || ((k.CAnswer? || k.CReturned?) && (k'.CIdle? || k'.CAsking? || k'.Working?))
  }

  ghost predicate Calls(q: S.Queue, q': S.Queue) {
    || q' == q
    || (q' == q.(producer := q'.producer) && ProducerCalls(q.producer, q'.producer))
    || (q' == q.(consumer := q'.consumer) && ConsumerCalls(q.consumer, q'.consumer))
  }

  ghost function ProducerOpens(p: S.Producer): S.Step
    requires p.PAsking? || p.Enqueuing?
  {
    if p.PAsking? then S.AskProducer else S.Enqueue(p.data)
  }

  ghost function ConsumerOpens(k: S.Consumer): S.Step
    requires k.CAsking? || k.Working?
  {
    if k.CAsking? then S.AskConsumer else S.Begin(k.wish)
  }

  lemma ProducerCallMoves(q: S.Queue, q': S.Queue)
    requires q' == q.(producer := q'.producer) && ProducerCalls(q.producer, q'.producer)
    ensures Moves(q, q')
  {
    if q.producer.PIdle? {
      assert RingStep(q, q', ProducerOpens(q'.producer));
    } else {
      var m := q.(producer := S.PIdle);
      assert RingStep(q, m, S.ReturnProducer);
      if !q'.producer.PIdle? {
        assert RingStep(m, q', ProducerOpens(q'.producer));
      }
    }
  }

  lemma ConsumerCallMoves(q: S.Queue, q': S.Queue)
    requires q' == q.(consumer := q'.consumer) && ConsumerCalls(q.consumer, q'.consumer)
    ensures Moves(q, q')
  {
    if q.consumer.CIdle? {
      assert RingStep(q, q', ConsumerOpens(q'.consumer));
    } else {
      var m := q.(consumer := S.CIdle);
      assert RingStep(q, m, S.ReturnConsumer);
      if !q'.consumer.CIdle? {
        assert RingStep(m, q', ConsumerOpens(q'.consumer));
      }
    }
  }

  lemma CallMoves(q: S.Queue, q': S.Queue)
    requires Calls(q, q')
    ensures Moves(q, q')
  {
    if q' != q {
      if q' == q.(producer := q'.producer) && ProducerCalls(q.producer, q'.producer) {
        ProducerCallMoves(q, q');
      } else {
        ConsumerCallMoves(q, q');
      }
    }
  }

  lemma ClientCalls(c: Conn, c': Conn)
    requires SendStep(c, c') || RecvStep(c, c') || FlagStep(c, c') || DropStep(c, c')
    ensures Calls(c.up.ring, c'.up.ring) && Calls(c.down.ring, c'.down.ring)
  {
  }

  lemma ManagerCalls(c: Conn, c': Conn)
    requires FlushStep(c, c') || FillStep(c, c') || FinStep(c, c') || RequestStep(c, c') || PeerStep(c, c')
    ensures Calls(c.up.ring, c'.up.ring) && Calls(c.down.ring, c'.down.ring)
  {
  }

  /** Every step of the byte path moves each ring by steps of the plain queue. */
  lemma StepsAreRingSteps(c: Conn, c': Conn)
    requires Next(c, c')
    ensures Moves(c.up.ring, c'.up.ring) && Moves(c.down.ring, c'.down.ring)
  {
    if SendStep(c, c') || RecvStep(c, c') || FlagStep(c, c') || DropStep(c, c') {
      ClientCalls(c, c');
      CallMoves(c.up.ring, c'.up.ring);
      CallMoves(c.down.ring, c'.down.ring);
    } else if SendRingStep(c, c') || RecvRingStep(c, c') {
    } else {
      ManagerCalls(c, c');
      CallMoves(c.up.ring, c'.up.ring);
      CallMoves(c.down.ring, c'.down.ring);
    }
  }

  lemma MovesExtend(cap: nat, queues: seq<S.Queue>, steps: seq<S.Step>, q': S.Queue)
    returns (queues': seq<S.Queue>, steps': seq<S.Step>)
    requires S.IsRun(cap, queues, steps) && Moves(queues[|steps|], q')
    ensures S.IsRun(cap, queues', steps') && queues'[|steps'|] == q'
  {
    var q := queues[|steps|];
    if q' == q {
      return queues, steps;
    }
    if a :| RingStep(q, q', a) {
      S.RunSnoc(cap, queues, steps, a);
      return queues + [q'], steps + [a];
    }
    var m, a, b :| RingStep(q, m, a) && RingStep(m, q', b);
    S.RunSnoc(cap, queues, steps, a);
    S.RunSnoc(cap, queues + [m], steps + [a], b);
    return queues + [m] + [q'], steps + [a] + [b];
  }

  /** In every run of the byte path, what each ring went through is a run of the plain queue. */
  lemma {:induction false} RingsRun(sendCap: nat, recvCap: nat, states: seq<Conn>, i: nat)
    returns (up: seq<S.Queue>, ups: seq<S.Step>, down: seq<S.Queue>, downs: seq<S.Step>)
    requires IsRun(sendCap, recvCap, states) && i < |states|
    ensures S.IsRun(sendCap, up, ups) && up[|ups|] == states[i].up.ring
    ensures S.IsRun(recvCap, down, downs) && down[|downs|] == states[i].down.ring
  {
    if i == 0 {
      return [S.Fresh(sendCap)], [], [S.Fresh(recvCap)], [];
    }
    up, ups, down, downs := RingsRun(sendCap, recvCap, states, i - 1);
    assert Next(states[i - 1], states[i]);
    StepsAreRingSteps(states[i - 1], states[i]);
    up, ups := MovesExtend(sendCap, up, ups, states[i].up.ring);
    down, downs := MovesExtend(recvCap, down, downs, states[i].down.ring);
  }
}
