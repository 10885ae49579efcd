/** The queue of TCP sockets with pending work (src/net/tunnel/manager.rs,
    src/net/tunnel/manager/phases.rs). A handle waits at most once; a targeted sweep takes handles from
    the front, a full sweep empties the queue. */
module ReadyQueue {
  import opened Common

  datatype Step = Arrives(handle: Handle) | TargetedSweep | FullSweep

  function Enqueue(q: seq<Handle>, h: Handle): seq<Handle> {
    if h in q then q else q + [h]
  }

  /** How many handles a targeted sweep takes. */
  function Taken(budget: nat, q: seq<Handle>): (n: nat)
    ensures n <= |q|
  {
    Min(Max(1, budget), |q|)
  }

  function After(budget: nat, q: seq<Handle>, step: Step): seq<Handle> {
    match step
    case Arrives(h) => Enqueue(q, h)
    case TargetedSweep => q[Taken(budget, q)..]
    case FullSweep => []
  }

  /** The handles a step takes off the queue, to be serviced or dropped. */
  function Takes(budget: nat, q: seq<Handle>, step: Step): seq<Handle> {
    match step
    case Arrives(_) => []
    case TargetedSweep => q[..Taken(budget, q)]
    case FullSweep => q
  }

  function Run(budget: nat, q: seq<Handle>, steps: seq<Step>): seq<Handle>
    decreases |steps|
  {
    if steps == [] then q else Run(budget, After(budget, q, steps[0]), steps[1..])
  }

  function Sweeps(steps: seq<Step>): nat {
    if steps == [] then 0 else (if steps[0].Arrives? then 0 else 1) + Sweeps(steps[1..])
  }

  /** No step makes a handle wait twice. */
  lemma StepKeepsDistinct(budget: nat, q: seq<Handle>, step: Step)
    requires NoDuplicates(q)
    ensures NoDuplicates(After(budget, q, step))
  {
  }

  /** A handle that arrives waits, behind those that waited before it. */
  lemma ArrivalsWait(budget: nat, q: seq<Handle>, h: Handle)
    ensures h in After(budget, q, Arrives(h)) && q <= After(budget, q, Arrives(h))
    ensures forall x :: x in After(budget, q, Arrives(h)) ==> x in q || x == h
  {
  }

  /** A targeted sweep takes at least one waiting handle and at most its budget, and all if it can; what it
      takes and what it leaves are the queue. */
  lemma SweepsTakeABudget(budget: nat, q: seq<Handle>)
    ensures var taken, left := Takes(budget, q, TargetedSweep), After(budget, q, TargetedSweep);
            && taken + left == q
            && |taken| <= (if budget == 0 then 1 else budget)
            && (left != [] ==> |taken| == if budget == 0 then 1 else budget)
  {
  }

  /** Step `i` of the run takes `h`, and it is within the first `k` sweeps. */
  ghost predicate TakenAt(budget: nat, q: seq<Handle>, steps: seq<Step>, h: Handle, i: nat, k: nat) {
    && i < |steps|
    && h in Takes(budget, Run(budget, q, steps[..i]), steps[i])
    && Sweeps(steps[..i + 1]) <= k
  }

  /** How many sweeps bring position `p` to the front. */
  function Bound(budget: nat, p: nat): nat {
    p / Max(1, budget) + 1
  }

  lemma MultiplesAreFarApart(m: int, d: int)
    requires m > 0
    ensures d >= 1 ==> d * m >= m
    ensures d <= -1 ==> d * m <= -m
  {
    assert d * m - m == (d - 1) * m;
    assert d * m + m == (d + 1) * m;
  }

  lemma BoundStep(budget: nat, p: nat)
    requires p >= Max(1, budget)
    ensures Bound(budget, p - Max(1, budget)) == Bound(budget, p) - 1
  {
    var m := Max(1, budget);
    var a, b := p / m, (p - m) / m;
    assert p == a * m + p % m && p - m == b * m + (p - m) % m;
    assert (a - b - 1) * m == a * m - b * m - m;
    MultiplesAreFarApart(m, a - b - 1);
  }

  /** No starvation: whatever is enqueued meanwhile, the handle at position `p` is serviced or dropped
      by the (p / max(1, budget) + 1)-th sweep that follows. */
  lemma {:induction false} TakenInTime(budget: nat, q: seq<Handle>, p: nat, steps: seq<Step>)
    requires p < |q| && Sweeps(steps) >= Bound(budget, p)
    ensures exists i: nat :: TakenAt(budget, q, steps, q[p], i, Bound(budget, p))
    decreases |steps|
  {
    var h, step := q[p], steps[0];
    if step.FullSweep? || (step.TargetedSweep? && p < Taken(budget, q)) {
      assert step.TargetedSweep? ==> q[..Taken(budget, q)][p] == h;
      assert steps[..0] == [] && steps[..1] == [step];
      assert Sweeps([step]) == 1 + Sweeps([step][1..]) == 1;
      assert TakenAt(budget, q, steps, h, 0, Bound(budget, p));
    } else {
      var next := After(budget, q, step);
      var p' := if step.Arrives? then p else p - Max(1, budget);
      if !step.Arrives? {
        BoundStep(budget, p);
      }
      assert next[p'] == h;
      TakenInTime(budget, next, p', steps[1..]);
      var i: nat :| TakenAt(budget, next, steps[1..], h, i, Bound(budget, p'));
      assert steps[..i + 1][1..] == steps[1..][..i] && steps[..i + 2][1..] == steps[1..][..i + 1];
      assert TakenAt(budget, q, steps, h, i + 1, Bound(budget, p));
    }
  }
}
