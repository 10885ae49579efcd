/** What the flags of a stream promise its two sides, in the interleaved byte path: when a read ends the
    stream, what a closed write half refuses, and what comes before a shutdown. */
module StreamLaws {
  import opened Common
  import opened BytePath
  import S = RingSpec

  /** A read that found the ring empty twice reports the end of the stream exactly when the flag it then
      loads is set; no other load or store reports it. */
  lemma EofExactly(c: Conn, c': Conn)
    requires FlagStep(c, c')
    ensures c'.down.eofs == c.down.eofs + 1 <==>
              || (c.client.ReadCheckSocketClosed? && c.flags.closed)
              || (c.client.ReadCheckReadClosed? && c.flags.readClosed)
    ensures c.client.ReadCheckSocketClosed? && !c.flags.closed ==> c'.client.ReadCheckReadClosed?
  {
  }

  /** Only those steps report it. */
  lemma OnlyReadsEnd(c: Conn, c': Conn)
    requires Next(c, c') && c'.down.eofs != c.down.eofs
    ensures FlagStep(c, c') && (c.client.ReadCheckSocketClosed? || c.client.ReadCheckReadClosed?)
  {
  }

  // ---------------------------------------------------------------- a closed write half

  /** The write half is closed, and no poll_write is past the load that would have told it. */
  ghost predicate Frozen(c: Conn) {
    || (c.flags.writeShutdown && !MidWrite(c.client))
    || (c.flags.writeClosed && !MidWrite(c.client) && !c.client.WriteCheckShutdown?)
  }

  ghost predicate StaysFrozen(c: Conn, c': Conn) {
    Frozen(c) ==>
      Frozen(c') && c'.up.accepted == c.up.accepted && c'.up.ring.published == c.up.ring.published
  }

  lemma SendStaysFrozen(c: Conn, c': Conn)
    requires SendStep(c, c')
    ensures StaysFrozen(c, c')
  {
  }

  lemma ReadStaysFrozen(c: Conn, c': Conn)
    requires RecvStep(c, c') || FlagStep(c, c') || DropStep(c, c')
    ensures StaysFrozen(c, c')
  {
  }

  lemma ManagerStaysFrozen(c: Conn, c': Conn)
    requires FlushStep(c, c') || FillStep(c, c') || FinStep(c, c') || RequestStep(c, c') || PeerStep(c, c')
    ensures StaysFrozen(c, c')
  {
  }

  lemma RingStaysFrozen(c: Conn, c': Conn)
    requires SendAligned(c) && (SendRingStep(c, c') || RecvRingStep(c, c'))
    ensures StaysFrozen(c, c')
  {
  }

  lemma StepStaysFrozen(c: Conn, c': Conn)
    requires SendAligned(c) && Next(c, c')
    ensures StaysFrozen(c, c')
  {
    if SendStep(c, c') {
      SendStaysFrozen(c, c');
    } else if RecvStep(c, c') || FlagStep(c, c') || DropStep(c, c') {
      ReadStaysFrozen(c, c');
    } else if SendRingStep(c, c') || RecvRingStep(c, c') {
      RingStaysFrozen(c, c');
    } else {
      ManagerStaysFrozen(c, c');
    }
  }

  lemma RunStaysFrozen(sendCap: nat, recvCap: nat, states: seq<Conn>, i: nat)
    requires IsRun(sendCap, recvCap, states) && i + 1 < |states|
    ensures StaysFrozen(states[i], states[i + 1])
  {
    RunInv(sendCap, recvCap, states, i);
    StepStaysFrozen(states[i], states[i + 1]);
  }

  lemma {:induction false} FrozenChain(states: seq<Conn>, f: nat, i: nat)
    requires f <= i < |states| && Frozen(states[f])
    requires forall k :: f <= k < i ==> StaysFrozen(states[k], states[k + 1])
    ensures Frozen(states[i]) && states[i].up.accepted == states[f].up.accepted
    ensures states[i].up.ring.published == states[f].up.ring.published
    decreases i
  {
    if f < i {
      FrozenChain(states, f, i - 1);
      assert StaysFrozen(states[i - 1], states[i - 1 + 1]);
    }
  }

  /** Over every run: once the write half is closed and no write is under way, nothing more is accepted. */
  lemma NoWriteAfterClose(sendCap: nat, recvCap: nat, states: seq<Conn>, f: nat, i: nat)
    requires IsRun(sendCap, recvCap, states) && f <= i < |states| && Frozen(states[f])
    ensures Frozen(states[i]) && states[i].up.accepted == states[f].up.accepted
    ensures states[i].up.ring.published == states[f].up.ring.published
  {
    forall k | f <= k < i
      ensures StaysFrozen(states[k], states[k + 1])
    {
      RunStaysFrozen(sendCap, recvCap, states, k);
    }
    FrozenChain(states, f, i);
  }

  /** poll_shutdown closes the write half only after everything accepted was handed to the stack. */
  lemma ShutdownComesAfterFlush(c: Conn, c': Conn)
    requires Inv(c) && FlagStep(c, c') && c'.flags.writeShutdown && !c.flags.writeShutdown
    ensures c.client.ShutdownSwap? && c.up.handed == c.up.accepted && c.up.ring.held == []
  {
    assert c.up.ring.taken + [] == c.up.ring.taken;
  }

  // ---------------------------------------------------------------- after a close request

  /** A close was asked for and fill_recv_buffer is not under way. */
  ghost predicate NoMoreFills(c: Conn) {
    c.up.close.requested && !UsesRecvManager(c.manager)
  }

  ghost predicate StaysUnfilled(c: Conn, c': Conn) {
    NoMoreFills(c) ==> NoMoreFills(c') && c'.down.pulled == c.down.pulled
  }

  lemma StepStaysUnfilled(c: Conn, c': Conn)
    requires Next(c, c')
    ensures StaysUnfilled(c, c')
  {
  }

  lemma {:induction false} UnfilledChain(states: seq<Conn>, f: nat, i: nat)
    requires f <= i < |states| && NoMoreFills(states[f])
    requires forall k :: f <= k < i ==> StaysUnfilled(states[k], states[k + 1])
    ensures NoMoreFills(states[i]) && states[i].down.pulled == states[f].down.pulled
    decreases i
  {
    if f < i {
      UnfilledChain(states, f, i - 1);
      assert StaysUnfilled(states[i - 1], states[i - 1 + 1]);
    }
  }

  /** Over every run: once a close was asked for, no more bytes are taken from the stack. */
  lemma NoFillAfterCloseRequest(sendCap: nat, recvCap: nat, states: seq<Conn>, f: nat, i: nat)
    requires IsRun(sendCap, recvCap, states) && f <= i < |states| && NoMoreFills(states[f])
    ensures NoMoreFills(states[i]) && states[i].down.pulled == states[f].down.pulled
  {
    forall k | f <= k < i
      ensures StaysUnfilled(states[k], states[k + 1])
    {
      StepStaysUnfilled(states[k], states[k + 1]);
    }
    UnfilledChain(states, f, i);
  }

  // ---------------------------------------------------------------- a stream that is over

  /** A dropped stream and a removed socket leave the other side the flags it waits for. */
  ghost predicate OverMeansClosed(c: Conn) {
    && (DropBegun(c.client) ==> c.flags.dropped)
    && (c.client.DropWriteClosed? || c.client.Gone? ==> c.flags.readClosed)
    && (c.client.Gone? ==> c.flags.writeClosed)
    && (c.manager.CloseReadClosed? || c.manager.CloseWriteClosed? || c.manager.Removed? ==> c.flags.closed)
    && (c.manager.CloseWriteClosed? || c.manager.Removed? ==> c.flags.readClosed)
    && (c.manager.Removed? ==> c.flags.writeClosed)
  }

  lemma ClientOver(c: Conn, c': Conn)
    requires OverMeansClosed(c) && (SendStep(c, c') || RecvStep(c, c') || FlagStep(c, c') || DropStep(c, c'))
    ensures OverMeansClosed(c')
  {
  }

  lemma ManagerOver(c: Conn, c': Conn)
    requires OverMeansClosed(c)
    requires FlushStep(c, c') || FillStep(c, c') || FinStep(c, c') || RequestStep(c, c') || PeerStep(c, c')
    ensures OverMeansClosed(c')
  {
  }

  lemma StepOver(c: Conn, c': Conn)
    requires OverMeansClosed(c) && Next(c, c')
    ensures OverMeansClosed(c')
  {
    if SendStep(c, c') || RecvStep(c, c') || FlagStep(c, c') || DropStep(c, c') {
      ClientOver(c, c');
    } else if !SendRingStep(c, c') && !RecvRingStep(c, c') {
      ManagerOver(c, c');
    }
  }

  /** Over every run: once a stream is gone, `socket_dropped`, `read_closed` and `write_closed` are set, and
      once a socket is removed, `socket_closed`, `read_closed` and `write_closed` are. */
  lemma {:induction false} EveryEndIsMarked(sendCap: nat, recvCap: nat, states: seq<Conn>, i: nat)
    requires IsRun(sendCap, recvCap, states) && i < |states|
    ensures OverMeansClosed(states[i])
  {
    if i > 0 {
      EveryEndIsMarked(sendCap, recvCap, states, i - 1);
      StepOver(states[i - 1], states[i]);
    }
  }
}
