/** The wake-up of the manager by poll_write (src/net/tunnel/manager/stream.rs): `was_empty` is sampled
    before the bytes are published, so a flush in between can leave them without a notification. When
    exactly that happens, and that it cannot happen when poll_write is one step. */
module WriteWakeups {
  import opened Common
  import opened EventFlags

  /** Bytes wait in a ring that was empty when they came, and no look at it is certain to come. */
  ghost predicate Lost(s: State, h: Handle) {
    h in s.sockets && s.sockets[h].stream in s.writers.due && !WriteComing(s, h)
  }

  /** poll_write publishes into an empty ring that it had seen non-empty, and nothing else is coming. */
  ghost predicate BlindPublish(s: State, step: Step, h: Handle) {
    && step.Publish? && step.count > 0
    && h in s.sockets && s.sockets[h].stream == step.sid && step.sid in s.writers.sampled
    && Held(s.writers, step.sid) == 0 && !s.writers.sampled[step.sid]
    && !WriteComing(s, h)
  }

  // ---------------------------------------------------------------- what every step does to it

  lemma ClientKeeps(s: State, step: Step, s': State, h: Handle)
    requires Inv(s) && Next(s, step, s') && h in s.sockets
    requires step.Notify? || step.Send? || step.Free? || step.NotifyFreed? || step.Sample? || step.NotifyWritten?
    ensures Lost(s', h) ==> Lost(s, h)
  {
  }

  lemma PublishLoses(s: State, step: Step, s': State, h: Handle)
    requires Inv(s) && Next(s, step, s') && h in s.sockets && step.Publish?
    ensures Lost(s', h) && !Lost(s, h) <==> BlindPublish(s, step, h)
  {
  }

  lemma QueueKeeps(s: State, step: Step, s': State, h: Handle)
    requires Inv(s) && Next(s, step, s') && h in s.sockets
    requires step.Create? || step.Receive? || step.Packet? || step.StartTargeted? || step.StartFull?
    ensures Lost(s', h) ==> Lost(s, h)
  {
    if step.Receive? {
      assert s.channel == [s.channel[0]] + s'.channel;
    }
  }

  lemma SweepKeeps(s: State, step: Step, s': State, h: Handle)
    requires Inv(s) && Next(s, step, s') && h in s.sockets
    requires step.Inactive? || step.Take? || step.Clear? || step.Fill? || step.Done? || step.End?
    ensures Lost(s', h) ==> Lost(s, h)
  {
  }

  lemma FlushKeeps(s: State, step: Step, s': State, h: Handle)
    requires Inv(s) && Next(s, step, s') && h in s.sockets
    requires step.FlushLook? || step.FlushTake? || step.FlushStop?
    ensures Lost(s', h) ==> Lost(s, h)
  {
  }

  /** Exactly when a wake-up is lost: a step loses the wake-up of a live socket if and only if it is a
      blind publish. */
  lemma LostExactly(s: State, step: Step, s': State, h: Handle)
    requires Inv(s) && Next(s, step, s') && h in s.sockets
    ensures Lost(s', h) && !Lost(s, h) <==> BlindPublish(s, step, h)
  {
    if step.Publish? {
      PublishLoses(s, step, s', h);
    } else if step.FlushLook? || step.FlushTake? || step.FlushStop? {
      FlushKeeps(s, step, s', h);
    } else if step.Create? || step.Receive? || step.Packet? || step.StartTargeted? || step.StartFull? {
      QueueKeeps(s, step, s', h);
    } else if step.Inactive? || step.Take? || step.Clear? || step.Fill? || step.Done? || step.End? {
      SweepKeeps(s, step, s', h);
    } else {
      ClientKeeps(s, step, s', h);
    }
  }

  lemma NewSocketsAreNotLost(s: State, step: Step, s': State, h: Handle)
    requires Inv(s) && Next(s, step, s') && h !in s.sockets
    ensures !Lost(s', h)
  {
  }

  // ---------------------------------------------------------------- whole runs

  /** Step `j` was a blind publish, and no look was certain to come ever since. */
  ghost predicate LostSince(states: seq<State>, steps: seq<Step>, h: Handle, j: nat, i: nat)
    requires |states| == |steps| + 1
  {
    && j < i < |states| && BlindPublish(states[j], steps[j], h)
    && forall k :: j < k <= i ==> Lost(states[k], h)
  }

  /** Over every run: a live socket's bytes wait with no look to come if and only if a blind publish put
      them there. */
  lemma {:induction false} LostIffBlindlyPublished(states: seq<State>, steps: seq<Step>, h: Handle, i: nat)
    requires IsRun(states, steps) && i < |states|
    ensures Lost(states[i], h) <==> exists j: nat :: LostSince(states, steps, h, j, i)
  {
    if Lost(states[i], h) && i > 0 {
      var s, step, s' := states[i - 1], steps[i - 1], states[i];
      RunInv(states, steps, i - 1);
      assert Next(s, step, s');
      if h !in s.sockets {
        NewSocketsAreNotLost(s, step, s', h);
      } else {
        LostExactly(s, step, s', h);
        if Lost(s, h) {
          LostIffBlindlyPublished(states, steps, h, i - 1);
          var j: nat :| LostSince(states, steps, h, j, i - 1);
          assert LostSince(states, steps, h, j, i);
        } else {
          assert LostSince(states, steps, h, i - 1, i);
        }
      }
    }
  }

  /** Every publish directly follows its sample: poll_write is one step. */
  ghost predicate WritesAreOneStep(steps: seq<Step>) {
    forall j :: 0 <= j < |steps| && steps[j].Publish? ==> j > 0 && steps[j - 1] == Sample(steps[j].sid)
  }

  /** Then no wake-up is ever lost. */
  lemma OneStepWritesLoseNothing(states: seq<State>, steps: seq<Step>, h: Handle, i: nat)
    requires IsRun(states, steps) && i < |states| && WritesAreOneStep(steps)
    ensures !Lost(states[i], h)
  {
    LostIffBlindlyPublished(states, steps, h, i);
    if j: nat :| LostSince(states, steps, h, j, i) {
      SampleSeesWhatPublishMeets(states[j - 1], states[j], steps[j].sid);
      assert false;
    }
  }

  lemma SampleSeesWhatPublishMeets(s: State, s': State, sid: StreamId)
    requires SampleStep(s, s', sid)
    ensures s'.writers.sampled[sid] <==> Held(s'.writers, sid) == 0
  {
  }

  /** At rest, the streams whose bytes wait unseen are exactly those whose writer had seen the ring
      non-empty, and their wake-ups are lost. */
  lemma QuietMeansFlushedOrLost(states: seq<State>, steps: seq<Step>, i: nat, h: Handle)
    requires IsRun(states, steps) && i < |states| && Quiet(states[i]) && h in states[i].sockets
    ensures var sid := states[i].sockets[h].stream;
            && (sid in states[i].writers.due <==> sid in states[i].writers.blind)
            && (sid in states[i].writers.due <==> Lost(states[i], h))
  {
    RunInv(states, steps, i);
    var s := states[i];
    assert s.sockets[h].stream in s.writers.due && s.sockets[h].stream !in s.writers.blind ==> WriteComing(s, h);
  }

  // ---------------------------------------------------------------- a run that loses one

  /** Some step leads from `s` to `s'`. */
  ghost predicate Steps(s: State, s': State) {
    exists step :: Next(s, step, s')
  }

  /** A path from the start is a run of the steps that lead along it. */
  lemma PathIsRun(states: seq<State>) returns (steps: seq<Step>)
    requires IsPath(states, Steps) && states[0] == Fresh()
    ensures IsRun(states, steps)
  {
    steps := [];
    for i := 0 to |states| - 1
      invariant |steps| == i
      invariant forall j :: 0 <= j < i ==> Next(states[j], steps[j], states[j + 1])
    {
      assert Steps(states[i], states[i + 1]);
      var step :| Next(states[i], step, states[i + 1]);
      steps := steps + [step];
    }
  }

  /** One stream 0 on socket 0. */
  ghost function One(
    w: Writers, flags: set<Kind>, inFlight: set<(StreamId, Kind)>, channel: seq<Event>,
    pending: set<Kind>, ready: set<Handle>, manager: Manager): State
  {
    State(Clients(map[0 := Stream(0, flags)], inFlight, {}, {}), w, channel,
          map[0 := Socket(0, pending)], ready, manager)
  }

  const EMPTY := Writers(map[], map[], {}, {}, {})

  /** One byte is in the ring and a second poll_write has seen it. */
  const SEEN := Writers(map[0 := 1], map[0 := false], {}, {0}, {})

  ghost function Serving(w: Writers, flags: set<Kind>, toClear: set<Kind>, flush: Flush): State {
    One(w, flags, {}, [], {}, {}, Sweep(false, {}, {}, Some(Service(0, toClear, false, flush))))
  }

  lemma Overwrite<V>(a: V, b: V)
    ensures map[0 := a][0 := b] == map[0 := b]
  {
  }

  /** A first write samples and publishes. */
  lemma WriteOnce(s0: State, s1: State, s2: State)
    requires s0 == One(EMPTY, {}, {}, [], {Write}, {}, Idle)
    requires s1 == One(EMPTY.(sampled := map[0 := true]), {}, {}, [], {Write}, {}, Idle)
    requires s2 == One(Writers(map[0 := 1], map[], {0}, {0}, {}), {}, {}, [], {Write}, {}, Idle)
    ensures Steps(Fresh(), s0) && Steps(s0, s1) && Steps(s1, s2)
  {
    assert map[0 := true] - {0} == map[];
    assert Next(Fresh(), Create(0, 0), s0) && Next(s0, Sample(0), s1) && Next(s1, Publish(0, 1), s2);
  }

  /** It is announced, and a second write samples the ring. */
  lemma Announce(s0: State, s1: State, s2: State)
    requires s0 == One(Writers(map[0 := 1], map[], {0}, {0}, {}), {}, {}, [], {Write}, {}, Idle)
    requires s1 == One(Writers(map[0 := 1], map[], {}, {0}, {}), {Write}, {(0, Write)}, [], {Write}, {}, Idle)
    requires s2 == One(Writers(map[0 := 1], map[], {}, {0}, {}), {Write}, {}, [Event(0, Write)], {Write}, {}, Idle)
    ensures Steps(s0, s1) && Steps(s1, s2)
  {
    Overwrite(Stream(0, {}), Stream(0, {Write}));
    var none: set<Kind> := {};
    assert none + {Write} == {Write};
    var quiet: set<(StreamId, Kind)> := {};
    assert quiet + {(0, Write)} == {(0, Write)};
    assert {(0, Write)} - {(0, Write)} == quiet;
    assert {0} - {0} == {};
    assert Next(s0, NotifyWritten(0), s1) && Next(s1, Send(0, Write), s2);
  }

  lemma ReceiveIt(s0: State, s1: State, s2: State)
    requires s0 == One(Writers(map[0 := 1], map[], {}, {0}, {}), {Write}, {}, [Event(0, Write)], {Write}, {}, Idle)
    requires s1 == One(Writers(map[0 := 1], map[], {}, {0}, {}), {Write}, {}, [], {Write}, {0}, Idle)
    requires s2 == One(SEEN, {Write}, {}, [], {Write}, {0}, Idle)
    ensures Steps(s0, s1) && Steps(s1, s2)
  {
    Overwrite(Socket(0, {Write}), Socket(0, {Write}));
    assert {Write} + {Write} == {Write};
    var none: set<Handle> := {};
    assert none + {0} == {0};
    assert Next(s0, Receive, s1) && Next(s1, Sample(0), s2);
  }

  /** The manager takes the event. */
  lemma TakeEvent(s0: State, s1: State, s2: State, s3: State)
    requires s0 == One(SEEN, {Write}, {}, [], {Write}, {0}, Idle)
    requires s1 == One(SEEN, {Write}, {}, [], {Write}, {}, Sweep(false, {0}, {}, None))
    requires s2 == Serving(SEEN, {Write}, {Write}, FlushToCome) && s3 == Serving(SEEN, {}, {}, FlushToCome)
    ensures Steps(s0, s1) && Steps(s1, s2) && Steps(s2, s3)
  {
    assert {0} - {0} == {};
    Overwrite(Socket(0, {Write}), Socket(0, {}));
    assert Flushes({Write}, FlushToCome);
    Overwrite(Stream(0, {Write}), Stream(0, {}));
    var none: set<Kind> := {};
    assert {Write} - {Write} == none;
    assert Next(s0, StartTargeted({0}), s1) && Next(s1, Take(0), s2) && Next(s2, Clear(Write), s3);
  }

  /** It hands over the byte. */
  lemma FlushOnce(s0: State, s1: State, s2: State)
    requires s0 == Serving(SEEN, {}, {}, FlushToCome)
    requires s1 == Serving(SEEN.(due := {}), {}, {}, FlushSaw(1))
    requires s2 == Serving(SEEN.(held := map[0 := 0], due := {}), {}, {}, FlushToCome)
    ensures Steps(s0, s1) && Steps(s1, s2)
  {
    assert {0} - {0} == {};
    var none: set<StreamId> := {};
    assert none - {0} == none;
    Overwrite(1, 0);
    assert Next(s0, FlushLook(1), s1) && Next(s1, FlushTake(1), s2);
  }

  /** It finds the ring empty. */
  lemma FlushStops(s0: State, s1: State, s2: State)
    requires s0 == Serving(SEEN.(held := map[0 := 0], due := {}), {}, {}, FlushToCome)
    requires s1 == Serving(SEEN.(held := map[0 := 0], due := {}), {}, {}, FlushSaw(0))
    requires s2 == Serving(SEEN.(held := map[0 := 0], due := {}), {}, {}, NoFlush)
    ensures Steps(s0, s1) && Steps(s1, s2)
  {
    var none: set<StreamId> := {};
    assert none - {0} == none;
    assert Next(s0, FlushLook(0), s1) && Next(s1, FlushStop, s2);
  }

  /** The second write publishes and announces nothing. */
  lemma WriteTwice(s0: State, s1: State, s2: State, s3: State)
    requires s0 == Serving(SEEN.(held := map[0 := 0], due := {}), {}, {}, NoFlush)
    requires s1 == One(SEEN.(held := map[0 := 0], due := {}), {}, {}, [], {}, {}, Sweep(false, {}, {}, None))
    requires s2 == One(SEEN.(held := map[0 := 0], due := {}), {}, {}, [], {}, {}, Idle)
    requires s3 == One(Writers(map[0 := 1], map[], {}, {0}, {0}), {}, {}, [], {}, {}, Idle)
    ensures Steps(s0, s1) && Steps(s1, s2) && Steps(s2, s3)
  {
    assert map[0 := false] - {0} == map[];
    Overwrite(0, 1);
    var none: set<StreamId> := {};
    assert none + {0} == {0};
    assert s1.sockets - {} == s1.sockets;
    assert Next(s0, Done, s1) && Next(s1, End, s2);
    assert Next(s2, Publish(0, 1), s3);
  }

  /** A wake-up can be lost: a run that ends with nothing under way and a byte in the ring that nobody
      will look at. Later writes see a non-empty ring and announce nothing either. */
  lemma WakeupCanBeLost() returns (states: seq<State>, steps: seq<Step>)
    ensures IsRun(states, steps)
    ensures Quiet(states[|states| - 1]) && Lost(states[|states| - 1], 0)
    ensures Held(states[|states| - 1].writers, 0) == 1
  {
    states := Announced();
    var leg := EventTaken();
    JoinPaths(states, leg, Steps);
    states := states + leg[1..];
    leg := Flushed();
    JoinPaths(states, leg, Steps);
    states := states + leg[1..];
    leg := Unseen();
    JoinPaths(states, leg, Steps);
    states := states + leg[1..];
    steps := PathIsRun(states);
  }

  lemma Announced() returns (p: seq<State>)
    ensures IsPath(p, Steps) && p[0] == Fresh()
    ensures p[|p| - 1] == One(SEEN, {Write}, {}, [], {Write}, {0}, Idle)
  {
    var s1 := One(EMPTY, {}, {}, [], {Write}, {}, Idle);
    var s2 := One(EMPTY.(sampled := map[0 := true]), {}, {}, [], {Write}, {}, Idle);
    var s3 := One(Writers(map[0 := 1], map[], {0}, {0}, {}), {}, {}, [], {Write}, {}, Idle);
    var told := Writers(map[0 := 1], map[], {}, {0}, {});
    var s4 := One(told, {Write}, {(0, Write)}, [], {Write}, {}, Idle);
    var s5 := One(told, {Write}, {}, [Event(0, Write)], {Write}, {}, Idle);
    var s6 := One(told, {Write}, {}, [], {Write}, {0}, Idle);
    var s7 := One(SEEN, {Write}, {}, [], {Write}, {0}, Idle);
    WriteOnce(s1, s2, s3);
    Announce(s3, s4, s5);
    ReceiveIt(s5, s6, s7);
    p := [Fresh(), s1, s2, s3, s4, s5, s6, s7];
  }

  lemma EventTaken() returns (p: seq<State>)
    ensures IsPath(p, Steps) && p[0] == One(SEEN, {Write}, {}, [], {Write}, {0}, Idle)
    ensures p[|p| - 1] == Serving(SEEN, {}, {}, FlushToCome)
  {
    var s0 := One(SEEN, {Write}, {}, [], {Write}, {0}, Idle);
    var s1 := One(SEEN, {Write}, {}, [], {Write}, {}, Sweep(false, {0}, {}, None));
    var s2, s3 := Serving(SEEN, {Write}, {Write}, FlushToCome), Serving(SEEN, {}, {}, FlushToCome);
    TakeEvent(s0, s1, s2, s3);
    p := [s0, s1, s2, s3];
  }

  lemma Flushed() returns (p: seq<State>)
    ensures IsPath(p, Steps) && p[0] == Serving(SEEN, {}, {}, FlushToCome)
    ensures p[|p| - 1] == Serving(SEEN.(held := map[0 := 0], due := {}), {}, {}, NoFlush)
  {
    var empty := SEEN.(held := map[0 := 0], due := {});
    var s3, s4 := Serving(SEEN, {}, {}, FlushToCome), Serving(SEEN.(due := {}), {}, {}, FlushSaw(1));
    var s5, s6 := Serving(empty, {}, {}, FlushToCome), Serving(empty, {}, {}, FlushSaw(0));
    var s7 := Serving(empty, {}, {}, NoFlush);
    FlushOnce(s3, s4, s5);
    FlushStops(s5, s6, s7);
    p := [s3, s4, s5, s6, s7];
  }

  lemma Unseen() returns (p: seq<State>)
    ensures IsPath(p, Steps) && p[0] == Serving(SEEN.(held := map[0 := 0], due := {}), {}, {}, NoFlush)
    ensures p[|p| - 1] == One(Writers(map[0 := 1], map[], {}, {0}, {0}), {}, {}, [], {}, {}, Idle)
  {
    var empty := SEEN.(held := map[0 := 0], due := {});
    var s7, s8 := Serving(empty, {}, {}, NoFlush), One(empty, {}, {}, [], {}, {}, Sweep(false, {}, {}, None));
    var s9 := One(empty, {}, {}, [], {}, {}, Idle);
    var end := One(Writers(map[0 := 1], map[], {}, {0}, {0}), {}, {}, [], {}, {}, Idle);
    WriteTwice(s7, s8, s9, end);
    p := [s7, s8, s9, end];
  }
}
