/** Coalesced socket events: the `*_event_queued` flags of SocketStreamHandle
    (src/net/tunnel/manager/stream.rs), the event channel, `pending_events` with the ready queue, and
    the sweep that clears the flags (src/net/tunnel/manager/phases.rs). Any number of sockets; a
    handle may be reused while the stream of its previous socket is still alive. Every atomic swap,
    send and store is a step; steps of client tasks interleave with those of the manager. */
module EventFlags {
  import opened Common

  type StreamId = nat

  datatype Kind = Read | Write | Closed

  const ALL: set<Kind> := {Read, Write, Closed}

  datatype Event = Event(handle: Handle, kind: Kind)

  /** A SocketStreamHandle: its flags that are set. It outlives its socket. */
  datatype Stream = Stream(handle: Handle, flags: set<Kind>)

  datatype Socket = Socket(stream: StreamId, pending: set<Kind>)

  /** flush_pending_to_stack in a service: its next turn looks at the ring, or it saw `chunk` bytes it
      may hand to the stack, or there is nothing left to do. */
  datatype Flush = FlushToCome | FlushSaw(chunk: nat) | NoFlush

  /** Servicing one socket: the mask was taken, some flags are still to be cleared, and flushing and
      fill_recv_buffer may still be to come. */
  datatype Service = Service(handle: Handle, toClear: set<Kind>, fillPending: bool, flush: Flush)

  datatype Manager =
    | Idle
    | Sweep(full: bool, todo: set<Handle>, closing: set<Handle>, current: Option<Service>)

  /** `inFlight`: notifiers that set a flag and have not sent yet. `freed`: streams whose poll_read
      took bytes and has not called notify_read_ready yet. `due`: streams whose poll_read took bytes
      since the last call of fill_recv_buffer. */
  datatype Clients = Clients(
    streams: map<StreamId, Stream>, inFlight: set<(StreamId, Kind)>, freed: set<StreamId>, due: set<StreamId>)

  /** The writing side. `held`: bytes in each send ring. `sampled`: what `was_empty` is in a poll_write
      that has not published yet. `wrote`: streams whose poll_write published and has yet to call
      notify_write_ready. `due`: streams whose ring became non-empty since the manager last looked at
      it; `blind`: those of them where a poll_write had seen the ring non-empty. */
  datatype Writers = Writers(
    held: map<StreamId, nat>, sampled: map<StreamId, bool>,
    wrote: set<StreamId>, due: set<StreamId>, blind: set<StreamId>)

  datatype State = State(
    clients: Clients, writers: Writers, channel: seq<Event>,
    sockets: map<Handle, Socket>, ready: set<Handle>, manager: Manager)

  function Fresh(): State {
    State(Clients(map[], {}, {}, {}), Writers(map[], map[], {}, {}, {}), [], map[], {}, Idle)
  }

  function Held(w: Writers, sid: StreamId): nat {
    if sid in w.held then w.held[sid] else 0
  }

  // ---------------------------------------------------------------- client steps

  /** The swap of a notify call: a flag that was already set ends the call. */
  ghost predicate Swap(c: Clients, c': Clients, sid: StreamId, kind: Kind) {
    && sid in c.streams
    && if kind in c.streams[sid].flags then c' == c
       else c' == c.(streams := c.streams[sid := c.streams[sid].(flags := c.streams[sid].flags + {kind})],
                     inFlight := c.inFlight + {(sid, kind)})
  }

  ghost predicate NotifyStep(s: State, s': State, sid: StreamId, kind: Kind) {
    Swap(s.clients, s'.clients, sid, kind) && s' == s.(clients := s'.clients)
  }

  ghost predicate SendStep(s: State, s': State, sid: StreamId, kind: Kind) {
    && (sid, kind) in s.clients.inFlight && sid in s.clients.streams
    && s' == s.(clients := s.clients.(inFlight := s.clients.inFlight - {(sid, kind)}),
                channel := s.channel + [Event(s.clients.streams[sid].handle, kind)])
  }

  /** poll_read took bytes. */
  ghost predicate FreeStep(s: State, s': State, sid: StreamId) {
    && sid in s.clients.streams && sid !in s.clients.freed
    && s' == s.(clients := s.clients.(freed := s.clients.freed + {sid}, due := s.clients.due + {sid}))
  }

  /** poll_read reaches the swap of notify_read_ready. */
  ghost predicate NotifyFreedStep(s: State, s': State, sid: StreamId) {
    && sid in s.clients.freed
    && Swap(s.clients.(freed := s.clients.freed - {sid}), s'.clients, sid, Read)
    && s' == s.(clients := s'.clients)
  }

  /** poll_write samples `was_empty`. */
  ghost predicate SampleStep(s: State, s': State, sid: StreamId) {
    && sid in s.clients.streams && sid !in s.writers.sampled && sid !in s.writers.wrote
    && s' == s.(writers := s.writers.(sampled := s.writers.sampled[sid := Held(s.writers, sid) == 0]))
  }

  /** enqueue_slice publishes `n` bytes; only `was_empty` with some bytes leads to a notification. */
  ghost predicate PublishStep(s: State, s': State, sid: StreamId, n: nat) {
    && sid in s.writers.sampled
    && s' == s.(writers := Published(s.writers, sid, n, s.writers.sampled[sid]))
  }

  ghost function Published(w: Writers, sid: StreamId, n: nat, wasEmpty: bool): Writers {
    var rest := w.sampled - {sid};
    if n == 0 then w.(sampled := rest)
    else
      var fromEmpty := Held(w, sid) == 0;
      Writers(w.held[sid := Held(w, sid) + n], rest,
              if wasEmpty then w.wrote + {sid} else w.wrote,
              if fromEmpty then w.due + {sid} else w.due,
              if fromEmpty && !wasEmpty then w.blind + {sid} else w.blind)
  }

  /** poll_write reaches the swap of notify_write_ready. */
  ghost predicate NotifyWrittenStep(s: State, s': State, sid: StreamId) {
    && sid in s.writers.wrote
    && Swap(s.clients, s'.clients, sid, Write)
    && s' == s.(clients := s'.clients, writers := s.writers.(wrote := s.writers.wrote - {sid}))
  }

  // ---------------------------------------------------------------- manager steps

  ghost predicate CreateStep(s: State, s': State, h: Handle, sid: StreamId) {
    && s.manager.Idle? && h !in s.sockets && sid !in s.clients.streams
    && s' == s.(clients := s.clients.(streams := s.clients.streams[sid := Stream(h, {})]),
                sockets := s.sockets[h := Socket(sid, {Write})])
  }

  /** handle_socket_event, and note_incoming_tcp_handle with a larger mask. */
  ghost function Marked(sockets: map<Handle, Socket>, h: Handle, mask: set<Kind>): map<Handle, Socket> {
    if h in sockets then sockets[h := sockets[h].(pending := sockets[h].pending + mask)] else sockets
  }

  ghost predicate ReceiveStep(s: State, s': State) {
    && s.manager.Idle? && s.channel != []
    && var e := s.channel[0];
       s' == s.(channel := s.channel[1..], sockets := Marked(s.sockets, e.handle, {e.kind}),
                ready := s.ready + {e.handle})
  }

  ghost predicate PacketStep(s: State, s': State, h: Handle) {
    s.manager.Idle? && s' == s.(sockets := Marked(s.sockets, h, {Read, Write}), ready := s.ready + {h})
  }

  ghost predicate StartTargetedStep(s: State, s': State, popped: set<Handle>) {
    && s.manager.Idle? && popped <= s.ready
    && s' == s.(ready := s.ready - popped, manager := Sweep(false, popped, {}, None))
  }

  ghost predicate StartFullStep(s: State, s': State) {
    s.manager.Idle? && s' == s.(ready := {}, manager := Sweep(true, s.sockets.Keys, {}, None))
  }

  /** An inactive handle is put aside for removal. */
  ghost predicate InactiveStep(s: State, s': State, h: Handle) {
    && s.manager.Sweep? && s.manager.current.None? && h in s.manager.todo
    && s' == s.(manager := s.manager.(todo := s.manager.todo - {h}, closing := s.manager.closing + {h}))
  }

  /** An active handle: take its pending events. */
  ghost predicate TakeStep(s: State, s': State, h: Handle) {
    && s.manager.Sweep? && s.manager.current.None? && h in s.manager.todo
    && if h !in s.sockets then s' == s.(manager := s.manager.(todo := s.manager.todo - {h}))
       else
         var mask := if s.manager.full then ALL else s.sockets[h].pending;
         exists flush :: Flushes(mask, flush)
           && s' == s.(sockets := s.sockets[h := s.sockets[h].(pending := {})],
                       manager := s.manager.(todo := s.manager.todo - {h},
                                             current := Some(Service(h, mask, Read in mask, flush))))
  }

  /** A write or close event always leads to a flush; a socket that is closing is flushed anyway. */
  ghost predicate Flushes(mask: set<Kind>, flush: Flush) {
    flush.FlushToCome? || (flush.NoFlush? && Write !in mask && Closed !in mask)
  }

  ghost predicate ClearStep(s: State, s': State, kind: Kind) {
    && s.manager.Sweep? && s.manager.current.Some?
    && var now := s.manager.current.value;
       && kind in now.toClear && now.handle in s.sockets && s.sockets[now.handle].stream in s.clients.streams
       && var sid := s.sockets[now.handle].stream;
          s' == s.(clients := s.clients.(streams := Lowered(s.clients.streams, sid, kind)),
                   manager := s.manager.(current := Some(now.(toClear := now.toClear - {kind}))))
  }

  ghost function Lowered(streams: map<StreamId, Stream>, sid: StreamId, kind: Kind): map<StreamId, Stream>
    requires sid in streams
  {
    streams[sid := streams[sid].(flags := streams[sid].flags - {kind})]
  }

  /** A turn of flush_pending_to_stack, after the flags were cleared: it looks at the ring, and `chunk`
      is what it may hand over, none if the stack cannot send. */
  ghost predicate FlushLookStep(s: State, s': State, chunk: nat) {
    && s.manager.Sweep? && s.manager.current.Some?
    && var now := s.manager.current.value;
       && now.toClear == {} && now.flush.FlushToCome? && now.handle in s.sockets
       && var sid := s.sockets[now.handle].stream;
          && chunk <= Held(s.writers, sid)
          && s' == s.(writers := s.writers.(due := s.writers.due - {sid}, blind := s.writers.blind - {sid}),
                      manager := s.manager.(current := Some(now.(flush := FlushSaw(chunk)))))
  }

  /** The stack takes `n` bytes, which leave the ring; after the whole chunk there is another turn. */
  ghost predicate FlushTakeStep(s: State, s': State, n: nat) {
    && s.manager.Sweep? && s.manager.current.Some?
    && var now := s.manager.current.value;
       && now.flush.FlushSaw? && 0 < n <= now.flush.chunk && now.handle in s.sockets
       && var sid := s.sockets[now.handle].stream;
          && n <= Held(s.writers, sid)
          && s' == s.(writers := s.writers.(held := s.writers.held[sid := Held(s.writers, sid) - n]),
                      manager := s.manager.(current := Some(now.(flush := AfterTake(n, now.flush.chunk)))))
  }

  ghost function AfterTake(n: nat, chunk: nat): Flush {
    if n == chunk then FlushToCome else NoFlush
  }

  /** An empty ring, or a stack that takes nothing, ends the flush. */
  ghost predicate FlushStopStep(s: State, s': State) {
    && s.manager.Sweep? && s.manager.current.Some? && s.manager.current.value.flush.FlushSaw?
    && s' == s.(manager := s.manager.(current := Some(s.manager.current.value.(flush := NoFlush))))
  }

  /** fill_recv_buffer is called, after the flags were cleared. */
  ghost predicate FillStep(s: State, s': State) {
    && s.manager.Sweep? && s.manager.current.Some?
    && var now := s.manager.current.value;
       && now.toClear == {} && now.flush.NoFlush? && now.fillPending && now.handle in s.sockets
       && s' == s.(clients := s.clients.(due := s.clients.due - {s.sockets[now.handle].stream}),
                   manager := s.manager.(current := Some(now.(fillPending := false))))
  }

  ghost predicate DoneStep(s: State, s': State) {
    && s.manager.Sweep? && s.manager.current.Some?
    && s.manager.current.value.toClear == {} && !s.manager.current.value.fillPending
    && s.manager.current.value.flush.NoFlush?
    && s' == s.(manager := s.manager.(current := None))
  }

  /** The sweep is over: inactive sockets are removed. */
  ghost predicate EndStep(s: State, s': State) {
    && s.manager.Sweep? && s.manager.current.None? && s.manager.todo == {}
    && s' == s.(sockets := s.sockets - s.manager.closing, ready := s.ready - s.manager.closing, manager := Idle)
  }

  datatype Step =
    | Notify(sid: StreamId, kind: Kind) | Send(sid: StreamId, kind: Kind) | Free(sid: StreamId)
    | NotifyFreed(sid: StreamId) | Sample(sid: StreamId) | Publish(sid: StreamId, count: nat)
    | NotifyWritten(sid: StreamId)
    | Create(handle: Handle, sid: StreamId) | Receive | Packet(handle: Handle)
    | StartTargeted(popped: set<Handle>) | StartFull | Inactive(handle: Handle) | Take(handle: Handle)
    | Clear(kind: Kind) | FlushLook(count: nat) | FlushTake(count: nat) | FlushStop | Fill | Done | End

  ghost predicate Next(s: State, step: Step, s': State) {
    match step
    case Notify(sid, kind) => NotifyStep(s, s', sid, kind)
    case Send(sid, kind) => SendStep(s, s', sid, kind)
    case Free(sid) => FreeStep(s, s', sid)
    case NotifyFreed(sid) => NotifyFreedStep(s, s', sid)
    case Sample(sid) => SampleStep(s, s', sid)
    case Publish(sid, n) => PublishStep(s, s', sid, n)
    case NotifyWritten(sid) => NotifyWrittenStep(s, s', sid)
    case Create(h, sid) => CreateStep(s, s', h, sid)
    case Receive => ReceiveStep(s, s')
    case Packet(h) => PacketStep(s, s', h)
    case StartTargeted(popped) => StartTargetedStep(s, s', popped)
    case StartFull => StartFullStep(s, s')
    case Inactive(h) => InactiveStep(s, s', h)
    case Take(h) => TakeStep(s, s', h)
    case Clear(kind) => ClearStep(s, s', kind)
    case FlushLook(chunk) => FlushLookStep(s, s', chunk)
    case FlushTake(n) => FlushTakeStep(s, s', n)
    case FlushStop => FlushStopStep(s, s')
    case Fill => FillStep(s, s')
    case Done => DoneStep(s, s')
    case End => EndStep(s, s')
  }

  // ---------------------------------------------------------------- invariant

  /** An event of this kind is on its way to the manager, or waits there to be serviced. */
  ghost predicate OnItsWay(s: State, h: Handle, kind: Kind)
    requires h in s.sockets
  {
    || Event(h, kind) in s.channel
    || (s.sockets[h].stream, kind) in s.clients.inFlight
    || (kind in s.sockets[h].pending && (h in s.ready || (s.manager.Sweep? && h in s.manager.todo)))
    || (s.manager.Sweep? && s.manager.full && h in s.manager.todo)
    || (s.manager.Sweep? && h in s.manager.closing)
  }

  /** The sweep is at this socket and has not cleared the flag yet. */
  ghost predicate BeingCleared(s: State, h: Handle, kind: Kind) {
    && s.manager.Sweep? && s.manager.current.Some?
    && s.manager.current.value.handle == h && kind in s.manager.current.value.toClear
  }

  /** The sweep is at this socket and fill_recv_buffer is still to come. */
  ghost predicate BeingFilled(s: State, h: Handle) {
    && s.manager.Sweep? && s.manager.current.Some?
    && s.manager.current.value.handle == h && s.manager.current.value.fillPending
  }

  ghost predicate Linked(s: State) {
    && (forall h :: h in s.sockets ==>
          s.sockets[h].stream in s.clients.streams && s.clients.streams[s.sockets[h].stream].handle == h)
    && (s.manager.Sweep? && s.manager.current.Some? ==>
          && s.manager.current.value.handle in s.sockets
          && (Read in s.manager.current.value.toClear ==> s.manager.current.value.fillPending)
          && (Write in s.manager.current.value.toClear || Closed in s.manager.current.value.toClear ==>
                s.manager.current.value.flush.FlushToCome?))
    && (forall sid :: sid in s.clients.freed || sid in s.clients.due ==> sid in s.clients.streams)
    && (forall p :: p in s.clients.inFlight ==> p.0 in s.clients.streams)
  }

  /** A set flag means an event that is not lost. */
  ghost predicate NoneSwallowed(s: State)
    requires Linked(s)
  {
    forall h, kind :: h in s.sockets && kind in s.clients.streams[s.sockets[h].stream].flags ==>
      OnItsWay(s, h, kind) || BeingCleared(s, h, kind)
  }

  /** Freed space means a read event on its way, or a call of fill_recv_buffer still to come. */
  ghost predicate SpaceNoticed(s: State) {
    forall h :: h in s.sockets && s.sockets[h].stream in s.clients.due ==>
      s.sockets[h].stream in s.clients.freed || OnItsWay(s, h, Read) || BeingFilled(s, h)
  }

  // ---------------------------------------------------------------- the writing side

  /** The sweep is at this socket, and flush_pending_to_stack is still to look at its ring. */
  ghost predicate BeingFlushed(s: State, h: Handle) {
    && s.manager.Sweep? && s.manager.current.Some?
    && s.manager.current.value.handle == h && s.manager.current.value.flush.FlushToCome?
  }

  /** A look at this socket's send ring is certain to come. */
  ghost predicate WriteComing(s: State, h: Handle)
    requires h in s.sockets
  {
    || s.sockets[h].stream in s.writers.wrote
    || OnItsWay(s, h, Write) || OnItsWay(s, h, Closed) || BeingFlushed(s, h)
  }

  ghost predicate WritersLinked(s: State) {
    && (forall sid :: sid in s.writers.sampled || sid in s.writers.wrote || sid in s.writers.due ==>
          sid in s.clients.streams)
    && (forall sid :: sid in s.writers.due ==> Held(s.writers, sid) > 0)
    && s.writers.blind <= s.writers.due
    && (s.manager.Sweep? && s.manager.current.Some? && s.manager.current.value.flush.FlushSaw? ==>
          var now := s.manager.current.value;
          && now.toClear == {} && now.handle in s.sockets
          && now.flush.chunk <= Held(s.writers, s.sockets[now.handle].stream)
          && (s.sockets[now.handle].stream in s.writers.due ==> now.flush.chunk == 0))
  }

  /** Bytes in a ring that was empty are noticed, unless the writer had seen the ring non-empty. */
  ghost predicate WritesNoticed(s: State) {
    forall h :: h in s.sockets && s.sockets[h].stream in s.writers.due && s.sockets[h].stream !in s.writers.blind ==>
      WriteComing(s, h)
  }

  ghost predicate Inv(s: State) {
    Linked(s) && NoneSwallowed(s) && SpaceNoticed(s) && WritersLinked(s) && WritesNoticed(s)
  }

  lemma FreshInv()
    ensures Inv(Fresh())
  {
  }

  lemma NotifyStepInv(s: State, s': State, sid: StreamId, kind: Kind)
    requires Inv(s) && NotifyStep(s, s', sid, kind)
    ensures Inv(s')
  {
  }

  lemma SendStepInv(s: State, s': State, sid: StreamId, kind: Kind)
    requires Inv(s) && SendStep(s, s', sid, kind)
    ensures Inv(s')
  {
  }

  lemma FreeStepInv(s: State, s': State, sid: StreamId)
    requires Inv(s) && (FreeStep(s, s', sid) || NotifyFreedStep(s, s', sid))
    ensures Inv(s')
  {
  }

  lemma ClientStepInv(s: State, step: Step, s': State)
    requires Inv(s) && Next(s, step, s')
    requires step.Notify? || step.Send? || step.Free? || step.NotifyFreed?
    ensures Inv(s')
  {
    match step
    case Notify(sid, kind) => NotifyStepInv(s, s', sid, kind);
    case Send(sid, kind) => SendStepInv(s, s', sid, kind);
    case Free(sid) => FreeStepInv(s, s', sid);
    case NotifyFreed(sid) => FreeStepInv(s, s', sid);
  }

  lemma ReceiveStepInv(s: State, s': State)
    requires Inv(s) && ReceiveStep(s, s')
    ensures Inv(s')
  {
    assert s.channel == [s.channel[0]] + s'.channel;
  }

  lemma StartStepInv(s: State, step: Step, s': State)
    requires Inv(s) && Next(s, step, s') && (step.StartTargeted? || step.StartFull?)
    ensures Inv(s')
  {
  }

  lemma QueueStepInv(s: State, step: Step, s': State)
    requires Inv(s) && Next(s, step, s')
    requires step.Create? || step.Receive? || step.Packet? || step.StartTargeted? || step.StartFull?
    ensures Inv(s')
  {
    if step.Receive? {
      ReceiveStepInv(s, s');
    } else if step.StartTargeted? || step.StartFull? {
      StartStepInv(s, step, s');
    }
  }

  lemma TakeStepInv(s: State, s': State, h: Handle)
    requires Inv(s) && TakeStep(s, s', h)
    ensures Inv(s')
  {
    forall kind: Kind ensures kind in ALL {
      assert kind.Read? || kind.Write? || kind.Closed?;
    }
  }

  lemma ClearStepInv(s: State, s': State, kind: Kind)
    requires Inv(s) && ClearStep(s, s', kind)
    ensures Inv(s')
  {
  }

  lemma EndStepInv(s: State, s': State)
    requires Inv(s) && EndStep(s, s')
    ensures Inv(s')
  {
  }

  lemma SweepStepInv(s: State, step: Step, s': State)
    requires Inv(s) && Next(s, step, s')
    requires step.Inactive? || step.Clear? || step.Fill? || step.Done? || step.End?
    ensures Inv(s')
  {
    if step.Clear? {
      ClearStepInv(s, s', step.kind);
    } else if step.End? {
      EndStepInv(s, s');
    }
  }

  lemma PublishStepInv(s: State, s': State, sid: StreamId, n: nat)
    requires Inv(s) && PublishStep(s, s', sid, n)
    ensures Inv(s')
  {
  }

  lemma NotifyWrittenStepInv(s: State, s': State, sid: StreamId)
    requires Inv(s) && NotifyWrittenStep(s, s', sid)
    ensures Inv(s')
  {
  }

  lemma WriteStepInv(s: State, step: Step, s': State)
    requires Inv(s) && Next(s, step, s')
    requires step.Sample? || step.Publish? || step.NotifyWritten?
    ensures Inv(s')
  {
    if step.Publish? {
      PublishStepInv(s, s', step.sid, step.count);
    } else if step.NotifyWritten? {
      NotifyWrittenStepInv(s, s', step.sid);
    }
  }

  lemma FlushTakeStepInv(s: State, s': State, n: nat)
    requires Inv(s) && FlushTakeStep(s, s', n)
    ensures Inv(s')
  {
  }

  lemma FlushStepInv(s: State, step: Step, s': State)
    requires Inv(s) && Next(s, step, s')
    requires step.FlushLook? || step.FlushTake? || step.FlushStop?
    ensures Inv(s')
  {
    if step.FlushTake? {
      FlushTakeStepInv(s, s', step.count);
    }
  }

  lemma StepInv(s: State, step: Step, s': State)
    requires Inv(s) && Next(s, step, s')
    ensures Inv(s')
  {
    if step.Notify? || step.Send? || step.Free? || step.NotifyFreed? {
      ClientStepInv(s, step, s');
    } else if step.Create? || step.Receive? || step.Packet? || step.StartTargeted? || step.StartFull? {
      QueueStepInv(s, step, s');
    } else if step.Take? {
      TakeStepInv(s, s', step.handle);
    } else if step.Sample? || step.Publish? || step.NotifyWritten? {
      WriteStepInv(s, step, s');
    } else if step.FlushLook? || step.FlushTake? || step.FlushStop? {
      FlushStepInv(s, step, s');
    } else {
      SweepStepInv(s, step, s');
    }
  }

  // ---------------------------------------------------------------- whole runs

  ghost predicate IsRun(states: seq<State>, steps: seq<Step>) {
    && |states| == |steps| + 1 && states[0] == Fresh()
    && forall i :: 0 <= i < |steps| ==> Next(states[i], steps[i], states[i + 1])
  }

  lemma {:induction false} RunInv(states: seq<State>, steps: seq<Step>, i: nat)
    requires IsRun(states, steps) && i < |states|
    ensures Inv(states[i])
  {
    if i > 0 {
      RunInv(states, steps, i - 1);
      StepInv(states[i - 1], steps[i - 1], states[i]);
    }
  }

  /** No coalesced notification is swallowed, freed space is never forgotten, and bytes written to an
      empty ring are not, unless the writer had seen the ring non-empty, in any run. */
  lemma NoNotificationIsSwallowed(states: seq<State>, steps: seq<Step>)
    requires IsRun(states, steps)
    ensures forall i :: 0 <= i < |states| ==>
              && Linked(states[i]) && NoneSwallowed(states[i]) && SpaceNoticed(states[i])
              && WritesNoticed(states[i])
  {
    forall i | 0 <= i < |states|
      ensures && Linked(states[i]) && NoneSwallowed(states[i]) && SpaceNoticed(states[i])
              && WritesNoticed(states[i])
    {
      RunInv(states, steps, i);
    }
  }

  /** Nothing is under way: no event in the channel or about to be sent, nothing ready, no sweep, no
      client between its read or write and its notification. */
  ghost predicate Quiet(s: State) {
    && s.manager.Idle? && s.channel == [] && s.ready == {}
    && s.clients.inFlight == {} && s.clients.freed == {} && s.writers.wrote == {}
  }

  /** Whenever the system is quiet, every live socket may notify again, and the manager has called
      fill_recv_buffer since any of its clients last took bytes. */
  lemma QuietMeansServiced(states: seq<State>, steps: seq<Step>, i: nat, h: Handle)
    requires IsRun(states, steps) && i < |states|
    requires Quiet(states[i]) && h in states[i].sockets
    ensures states[i].sockets[h].stream in states[i].clients.streams
    ensures states[i].clients.streams[states[i].sockets[h].stream].flags == {}
    ensures states[i].sockets[h].stream !in states[i].clients.due
  {
    RunInv(states, steps, i);
    var s := states[i];
    assert forall kind :: !OnItsWay(s, h, kind);
  }
}
