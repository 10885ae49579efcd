/** Two runs of the byte path in which a stronger promise fails. Both need a step of the manager
    between two steps of one poll call. */
module BytePathRaces {
  import opened Common
  import opened BytePath
  import S = RingSpec

  /** `to` is reached from `from` in some number of steps. */
  ghost predicate Leads(from: Conn, path: seq<Conn>, to: Conn) {
    IsPath(path, Next) && path[0] == from && path[|path| - 1] == to
  }

  // ---------------------------------------------------------------- FIN before an accepted byte

  /** The states of the first run: a client, its side of the send ring, and the rest as new. */
  ghost function Writing(client: Client, producer: S.Producer): Conn {
    Fresh(2, 2).(client := client, up := Fresh(2, 2).up.(ring := S.Fresh(2).(producer := producer)))
  }

  /** After the Close command. */
  ghost function Closing(client: Client, manager: Manager, ring: S.Queue, accepted: seq<byte>): Conn {
    Conn(Up(ring, accepted, [], None, Close(true, true, Some([7]), false, 0, None)), Fresh(2, 2).down,
         client, manager, Flags(false, false, false, false, true))
  }

  const FULL := S.Queue(2, [7], S.PReturned([7], 1), S.CIdle, [7], [])

  lemma WriteFirst() returns (p: seq<Conn>)
    ensures Leads(Fresh(2, 2), p, Writing(WriteFull([7]), S.PAsking))
  {
    var a, b, c, d := Fresh(2, 2), Writing(WriteCheckClosed([7]), S.PIdle),
      Writing(WriteCheckShutdown([7]), S.PIdle), Writing(WriteFull([7]), S.PAsking);
    assert FlagStep(a, b) && FlagStep(b, c) && SendStep(c, d);
    p := [a, b, c, d];
  }

  lemma WriteSecond() returns (p: seq<Conn>)
    ensures Leads(Writing(WriteFull([7]), S.PAsking), p, Writing(WriteEnqueue([7]), S.Enqueuing([7])))
  {
    var a, b, c, d, e := Writing(WriteFull([7]), S.PAsking), Writing(WriteFull([7]), S.PAnswer(0)),
      Writing(WriteEmpty([7]), S.PAsking), Writing(WriteEmpty([7]), S.PAnswer(0)),
      Writing(WriteEnqueue([7]), S.Enqueuing([7]));
    assert SendRingStep(a, b) && SendStep(b, c) && SendRingStep(c, d) && SendStep(d, e);
    p := [a, b, c, d, e];
  }

  lemma CloseFirst() returns (p: seq<Conn>)
    ensures Leads(Writing(WriteEnqueue([7]), S.Enqueuing([7])), p,
                  Closing(WriteEnqueue([7]), FinMaySend(0), S.Fresh(2).(producer := S.Enqueuing([7])), []))
  {
    var q := S.Fresh(2).(producer := S.Enqueuing([7]));
    var a, b, c, d, e := Writing(WriteEnqueue([7]), S.Enqueuing([7])),
      Closing(WriteEnqueue([7]), Idle, q, []),
      Closing(WriteEnqueue([7]), FinLen(0), q.(consumer := S.CAsking), []),
      Closing(WriteEnqueue([7]), FinLen(0), q.(consumer := S.CAnswer(0)), []),
      Closing(WriteEnqueue([7]), FinMaySend(0), q, []);
    assert RequestStep(a, b) && FinStep(b, c) && SendRingStep(c, d) && FinStep(d, e);
    p := [a, b, c, d, e];
  }

  lemma CloseSecond() returns (p: seq<Conn>, end: Conn)
    ensures Leads(Closing(WriteEnqueue([7]), FinMaySend(0), S.Fresh(2).(producer := S.Enqueuing([7])), []), p, end)
    ensures end.up.close.fins == 1 && end.flags.dropped && end.up.accepted == [7] && end.up.handed == []
  {
    var q := S.Fresh(2).(producer := S.Enqueuing([7]));
    var a, b, c, d := Closing(WriteEnqueue([7]), FinMaySend(0), q, []),
      Closing(WriteEnqueue([7]), FinMaySend(0), q.(producer := S.Producer.Copying([7], 1)), []),
      Closing(WriteEnqueue([7]), FinMaySend(0), FULL, []),
      Closing(Ready, FinMaySend(0), FULL.(producer := S.PIdle), [7]);
    var e := d.(client := DropReadClosed, flags := d.flags.(dropped := true));
    end := e.(manager := Idle, up := e.up.(close := e.up.close.(finSent := true, fins := 1, finMark := Some(0))));
    assert SendRingStep(a, b) && SendRingStep(b, c) && SendStep(c, d) && DropStep(d, e) && FinStep(e, end);
    p := [a, b, c, d, e, end];
  }

  /** A Close command that catches a write in flight can let FIN pass a byte that poll_write accepted:
      the condition on `caught` in `FinIsLast` cannot be left out. */
  lemma EarlyCloseCanLoseBytes() returns (states: seq<Conn>)
    ensures IsRun(2, 2, states)
    ensures var c := states[|states| - 1];
            c.up.close.fins == 1 && c.flags.dropped && c.up.accepted != c.up.handed
  {
    var p := WriteFirst();
    var q := WriteSecond();
    var r := CloseFirst();
    var s, end := CloseSecond();
    JoinPaths(p, q, Next);
    JoinPaths(r, s, Next);
    JoinPaths(p + q[1..], r + s[1..], Next);
    states := (p + q[1..]) + (r + s[1..])[1..];
  }

  // ---------------------------------------------------------------- end-of-file before data

  ghost function Reading(client: Client, consumer: S.Consumer): Conn {
    Fresh(2, 2).(client := client, down := Fresh(2, 2).down.(ring := S.Fresh(2).(consumer := consumer)))
  }

  /** The manager fills while poll_read is about to load read_closed. */
  ghost function Filling(manager: Manager, ring: S.Queue, pulled: seq<byte>): Conn {
    Fresh(2, 2).(client := ReadCheckReadClosed(0), manager := manager, down := Down(ring, pulled, [], 0))
  }

  lemma ReadFirst() returns (p: seq<Conn>)
    ensures Leads(Fresh(2, 2), p, Filling(Idle, S.Fresh(2), []))
  {
    var a, b, c, d, e, f, g := Fresh(2, 2), Reading(ReadEmpty(1), S.CAsking), Reading(ReadEmpty(1), S.CAnswer(0)),
      Reading(ReadEmptyAgain(1, 0), S.CAsking), Reading(ReadEmptyAgain(1, 0), S.CAnswer(0)),
      Reading(ReadCheckSocketClosed(0), S.CIdle), Filling(Idle, S.Fresh(2), []);
    assert RecvStep(a, b) && RecvRingStep(b, c) && RecvStep(c, d);
    assert RecvRingStep(d, e) && RecvStep(e, f) && FlagStep(f, g);
    p := [a, b, c, d, e, f, g];
  }

  lemma FillFirst() returns (p: seq<Conn>)
    ensures Leads(Filling(Idle, S.Fresh(2), []), p,
                  Filling(FillEnqueue([7], 0), S.Fresh(2).(producer := S.Enqueuing([7])), [7]))
  {
    var q := S.Fresh(2);
    var asks, knows := q.(producer := S.PAsking), q.(producer := S.PAnswer(0));
    var a, b, c, d, e, f, g := Filling(Idle, q, []), Filling(FillRoom, asks, []), Filling(FillRoom, knows, []),
      Filling(FillRoomAgain, asks, []), Filling(FillRoomAgain, knows, []), Filling(FillRecv(0, 1), q, []),
      Filling(FillEnqueue([7], 0), q.(producer := S.Enqueuing([7])), [7]);
    assert FillStep(a, b) && RecvRingStep(b, c) && FillStep(c, d);
    assert RecvRingStep(d, e) && FillStep(e, f) && FillStep(f, g);
    p := [a, b, c, d, e, f, g];
  }

  lemma FillSecond() returns (p: seq<Conn>, end: Conn)
    ensures Leads(Filling(FillEnqueue([7], 0), S.Fresh(2).(producer := S.Enqueuing([7])), [7]), p, end)
    ensures end.down.eofs == 1 && end.down.pulled == [7] && end.down.delivered == [] && end.down.ring.held == [7]
  {
    var q := S.Fresh(2);
    var a, b, c, d, e, f := Filling(FillEnqueue([7], 0), q.(producer := S.Enqueuing([7])), [7]),
      Filling(FillEnqueue([7], 0), q.(producer := S.Producer.Copying([7], 1)), [7]),
      Filling(FillEnqueue([7], 0), FULL, [7]), Filling(FillRoom, FULL.(producer := S.PAsking), [7]),
      Filling(FillRoom, FULL.(producer := S.PAnswer(1)), [7]), Filling(Idle, FULL.(producer := S.PIdle), [7]);
    var g := f.(flags := f.flags.(readClosed := true));
    end := g.(client := Ready, down := g.down.(eofs := 1));
    assert RecvRingStep(a, b) && RecvRingStep(b, c) && FillStep(c, d) && RecvRingStep(d, e);
    assert FillStep(e, f) && PeerStep(f, g) && FlagStep(g, end);
    p := [a, b, c, d, e, f, g, end];
  }

  /** End-of-file can overtake data: a byte published between the second emptiness test and the
      load of `read_closed` is still in the ring when poll_read reports the end. */
  lemma EofCanOvertakeData() returns (states: seq<Conn>)
    ensures IsRun(2, 2, states)
    ensures var c := states[|states| - 1];
            c.down.eofs == 1 && c.down.pulled == [7] && c.down.delivered == []
  {
    var p := ReadFirst();
    var q := FillFirst();
    var r, end := FillSecond();
    JoinPaths(p, q, Next);
    JoinPaths(p + q[1..], r, Next);
    states := p + q[1..] + r[1..];
  }
}
