/** The capsule stream of a MASQUE tunnel, section 3.2 of RFC 9297: `process_control_chunk` and
    `process_capsule` (src/net/tunnel/masque.rs), on a 64-bit machine. */
module ControlStream {
  import opened Common
  import Varint
  import opened Capsules

  const USIZE_LIMIT: nat := 0x1_0000_0000_0000_0000

  /** MasqueControlState, and the error that ended the stream if there was one: the worker stops at
      the first error (src/net/tunnel/manager/masque_io.rs). */
  datatype Control = Control(buf: seq<byte>, addresses: seq<Entry>, routes: seq<Entry>, error: Option<Error>)

  /** The frame at the front of the buffer, once it is complete. */
  datatype Frame = Frame(kind: nat, payload: seq<byte>, len: nat) | Incomplete | Overflow

  function NextFrame(buf: seq<byte>): (f: Frame)
    ensures f.Frame? ==> 0 < f.len <= |buf|
  {
    var kind := Varint.Decode(buf);
    if !kind.Decoded? then Incomplete
    else
      var len := Varint.Decode(buf[kind.len..]);
      if !len.Decoded? then Incomplete
      else
        var frameLen := kind.len + len.len + len.value;
        if frameLen >= USIZE_LIMIT then Overflow
        else if |buf| < frameLen then Incomplete
        else Frame(kind.value, buf[kind.len + len.len..frameLen], frameLen)
  }

  /** `process_capsule`: unknown types are skipped, a malformed payload ends the stream. */
  function Handled(c: Control, kind: nat, payload: seq<byte>): Control {
    if kind == 1 then
      match Parse(AddressAssign, payload)
      case Accepted(entries) => c.(addresses := c.addresses + entries)
      case Rejected(error) => c.(error := Some(error))
    else if kind == 3 then
      match Parse(RouteAdvertisement, payload)
      case Accepted(entries) => c.(routes := c.routes + entries)
      case Rejected(error) => c.(error := Some(error))
    else c
  }

  /** The loop of `process_control_chunk`: take complete frames off the buffer. */
  function Drain(c: Control): Control
    decreases |c.buf|
  {
    if c.error.Some? then c
    else
      match NextFrame(c.buf)
      case Incomplete => c
      case Overflow => c.(error := Some(FrameOverflow))
      case Frame(kind, payload, len) => Drain(Handled(c.(buf := c.buf[len..]), kind, payload))
  }

  function Feed(c: Control, chunk: seq<byte>): Control {
    if c.error.Some? then c else Drain(c.(buf := c.buf + chunk))
  }

  /** The end of the stream: a partial capsule left over is an error. */
  function Finish(c: Control): Control {
    if c.error.None? && c.buf != [] then c.(error := Some(TruncatedStream)) else c
  }

  function FeedAll(c: Control, chunks: seq<seq<byte>>): Control
    decreases |chunks|
  {
    if chunks == [] then c else FeedAll(Feed(c, chunks[0]), chunks[1..])
  }

  const FRESH := Control([], [], [], None)

  // ---------------------------------------------------------------- the source's object

  class MasqueControlState {
    var recvBuf: seq<byte>
    var assignedAddresses: seq<Entry>
    var advertisedRoutes: seq<Entry>

    constructor ()
      ensures State() == FRESH
    {
      recvBuf, assignedAddresses, advertisedRoutes := [], [], [];
    }

    ghost function State(): Control
      reads this
    {
      Control(recvBuf, assignedAddresses, advertisedRoutes, None)
    }

    method ProcessCapsule(kind: nat, payload: seq<byte>) returns (error: Option<Error>)
      modifies this
      ensures State().(error := error) == Handled(old(State()), kind, payload)
    {
      if kind == 1 {
        var parsed := ParsePayload(AddressAssign, payload);
        if parsed.Rejected? {
          return Some(parsed.error);
        }
        assignedAddresses := assignedAddresses + parsed.entries;
      } else if kind == 3 {
        var parsed := ParsePayload(RouteAdvertisement, payload);
        if parsed.Rejected? {
          return Some(parsed.error);
        }
        advertisedRoutes := advertisedRoutes + parsed.entries;
      }
      error := None;
    }

    /** Takes a complete frame off the front of the buffer. */
    method SplitFrame() returns (frame: Frame)
      modifies this`recvBuf
      ensures frame == NextFrame(old(recvBuf))
      ensures recvBuf == if frame.Frame? then old(recvBuf)[frame.len..] else old(recvBuf)
    {
      var kind := Varint.Decode(recvBuf);
      if !kind.Decoded? {
        return Incomplete;
      }
      var len := Varint.Decode(recvBuf[kind.len..]);
      if !len.Decoded? {
        return Incomplete;
      }
      var frameLen := kind.len + len.len + len.value;
      if frameLen >= USIZE_LIMIT {
        return Overflow;
      }
      if |recvBuf| < frameLen {
        return Incomplete;
      }
      frame := Frame(kind.value, recvBuf[kind.len + len.len..frameLen], frameLen);
      recvBuf := recvBuf[frameLen..];
    }

    method ProcessControlChunk(chunk: seq<byte>, fin: bool) returns (error: Option<Error>)
      modifies this
      ensures State().(error := error)
           == (if fin then Finish(Feed(old(State()), chunk)) else Feed(old(State()), chunk))
    {
      recvBuf := recvBuf + chunk;
      error := None;
      while true
        invariant error == None
        invariant Feed(old(State()), chunk) == Drain(State())
        decreases |recvBuf|
      {
        var frame := SplitFrame();
        match frame {
          case Incomplete => break;
          case Overflow => return Some(FrameOverflow);
          case Frame(kind, payload, _) =>
            error := ProcessCapsule(kind, payload);
            if error.Some? {
              return;
            }
        }
      }
      if fin && recvBuf != [] {
        error := Some(TruncatedStream);
      }
    }
  }

  // ---------------------------------------------------------------- chunking does not matter

  /** More bytes behind a complete frame do not change it. */
  lemma FramePrefix(buf: seq<byte>, more: seq<byte>)
    requires NextFrame(buf).Frame?
    ensures NextFrame(buf + more) == NextFrame(buf)
  {
    var kind, frame := Varint.Decode(buf), NextFrame(buf);
    var len := Varint.Decode(buf[kind.len..]);
    Varint.DecodePrefix(buf, more);
    Varint.DecodePrefix(buf[kind.len..], more);
    SliceOfSum(buf, more, kind.len, |buf|);
    SliceOfSum(buf, more, kind.len + len.len, frame.len);
  }

  lemma SliceOfSum(a: seq<byte>, b: seq<byte>, i: nat, j: nat)
    requires i <= j <= |a|
    ensures (a + b)[i..j] == a[i..j] && (a + b)[i..] == a[i..] + b
  {
  }

  /** The frame-length sum cannot reach 2^64: the overflow error is unreachable. */
  lemma NoOverflow(buf: seq<byte>)
    ensures !NextFrame(buf).Overflow?
  {
    var kind := Varint.Decode(buf);
    if kind.Decoded? {
      Varint.DecodeIsNumber(buf);
      if Varint.Decode(buf[kind.len..]).Decoded? {
        Varint.DecodeIsNumber(buf[kind.len..]);
      }
    }
  }

  /** Handling a capsule looks at no byte of the buffer. */
  lemma HandleFrame(c: Control, kind: nat, payload: seq<byte>, buf: seq<byte>)
    ensures Handled(c.(buf := buf), kind, payload) == Handled(c, kind, payload).(buf := buf)
    ensures Handled(c, kind, payload).buf == c.buf
  {
  }

  /** Draining, then draining again with more bytes, is draining once with all of them. */
  lemma {:induction false} DrainTwice(c: Control, more: seq<byte>)
    requires c.error.None?
    ensures var d := Drain(c);
            Drain(c.(buf := c.buf + more)) ==
              if d.error.Some? then d.(buf := d.buf + more) else Drain(d.(buf := d.buf + more))
    decreases |c.buf|
  {
    NoOverflow(c.buf);
    if NextFrame(c.buf).Frame? {
      var next := OneFrame(c, more);
      if next.error.None? {
        DrainTwice(next, more);
      }
    }
  }

  /** The frame at the front is handled the same with and without more bytes behind it. */
  lemma OneFrame(c: Control, more: seq<byte>) returns (next: Control)
    requires c.error.None? && NextFrame(c.buf).Frame?
    ensures |next.buf| < |c.buf| && Drain(c) == Drain(next)
    ensures Drain(c.(buf := c.buf + more)) == Drain(next.(buf := next.buf + more))
  {
    var f := NextFrame(c.buf);
    var rest := c.buf[f.len..];
    next := Handled(c.(buf := rest), f.kind, f.payload);
    FramePrefix(c.buf, more);
    HandleFrame(c, f.kind, f.payload, rest);
    HandleFrame(c, f.kind, f.payload, rest + more);
    assert (c.buf + more)[f.len..] == rest + more;
  }

  /** What a reader of the tunnel can see: addresses, routes, the verdict, and the unparsed tail as
      long as the stream is accepted. */
  predicate Same(a: Control, b: Control) {
    && a.addresses == b.addresses && a.routes == b.routes && a.error == b.error
    && (a.error.None? ==> a.buf == b.buf)
  }

  lemma FeedTwice(c: Control, a: seq<byte>, b: seq<byte>)
    ensures Same(Feed(Feed(c, a), b), Feed(c, a + b))
  {
    if c.error.None? {
      var e := c.(buf := c.buf + a);
      assert e.(buf := e.buf + b) == c.(buf := c.buf + (a + b)) by {
        assert c.buf + a + b == c.buf + (a + b);
      }
      DrainTwice(e, b);
    }
  }

  lemma FeedSame(c: Control, d: Control, chunk: seq<byte>)
    requires Same(c, d)
    ensures Same(Feed(c, chunk), Feed(d, chunk))
  {
  }

  lemma {:induction false} FeedAllSame(c: Control, d: Control, chunks: seq<seq<byte>>)
    requires Same(c, d)
    ensures Same(FeedAll(c, chunks), FeedAll(d, chunks))
    decreases |chunks|
  {
    if chunks != [] {
      FeedSame(c, d, chunks[0]);
      FeedAllSame(Feed(c, chunks[0]), Feed(d, chunks[0]), chunks[1..]);
    }
  }

  /** Any chunks, one after the other, are as good as their concatenation in one chunk. */
  lemma {:induction false} FeedAllIsOne(c: Control, first: seq<byte>, chunks: seq<seq<byte>>)
    ensures Same(FeedAll(Feed(c, first), chunks), Feed(c, first + Flatten(chunks)))
    decreases |chunks|
  {
    if chunks == [] {
      assert first + [] == first;
    } else {
      FeedTwice(c, first, chunks[0]);
      FeedAllSame(Feed(Feed(c, first), chunks[0]), Feed(c, first + chunks[0]), chunks[1..]);
      FeedAllIsOne(c, first + chunks[0], chunks[1..]);
      assert first + (chunks[0] + Flatten(chunks[1..])) == first + chunks[0] + Flatten(chunks[1..]);
    }
  }

  /** The parser is chunking-invariant: two ways to cut the same byte stream give the same addresses,
      routes and verdict, and the same unparsed tail while accepted, before and after the end of the
      stream. */
  lemma ChunkingInvariant(chunks: seq<seq<byte>>, others: seq<seq<byte>>)
    requires Flatten(chunks) == Flatten(others)
    ensures Same(FeedAll(FRESH, chunks), FeedAll(FRESH, others))
    ensures Same(Finish(FeedAll(FRESH, chunks)), Finish(FeedAll(FRESH, others)))
  {
    assert Feed(FRESH, []) == FRESH;
    FeedAllIsOne(FRESH, [], chunks);
    FeedAllIsOne(FRESH, [], others);
  }

  lemma {:induction false} DrainNeverOverflows(c: Control)
    requires c.error != Some(FrameOverflow)
    ensures Drain(c).error != Some(FrameOverflow)
    decreases |c.buf|
  {
    NoOverflow(c.buf);
    if c.error.None? && NextFrame(c.buf).Frame? {
      var f := NextFrame(c.buf);
      ParseErrors(AddressAssign, f.payload);
      ParseErrors(RouteAdvertisement, f.payload);
      DrainNeverOverflows(Handled(c.(buf := c.buf[f.len..]), f.kind, f.payload));
    }
  }

  /** Whatever chunks arrive, and at the end of the stream, the overflow error is never reported. */
  lemma {:induction false} NeverOverflows(c: Control, chunks: seq<seq<byte>>)
    requires c.error != Some(FrameOverflow)
    ensures FeedAll(c, chunks).error != Some(FrameOverflow)
    ensures Finish(FeedAll(c, chunks)).error != Some(FrameOverflow)
    decreases |chunks|
  {
    if chunks != [] {
      DrainNeverOverflows(c.(buf := c.buf + chunks[0]));
      NeverOverflows(Feed(c, chunks[0]), chunks[1..]);
    }
  }

  lemma {:induction false} ParseErrors(kind: Kind, p: seq<byte>)
    ensures Parse(kind, p).Rejected? ==> Parse(kind, p).error != FrameOverflow
    decreases |p|
  {
    if p != [] && First(kind, p).Got? {
      ParseErrors(kind, p[First(kind, p).len..]);
    }
  }

  lemma FrameOfCapsule(kind: nat, payload: seq<byte>)
    requires kind < Varint.LIMIT && |payload| < Varint.LIMIT
    ensures var buf := Varint.Encode(kind) + Varint.Encode(|payload|) + payload;
            NextFrame(buf) == Frame(kind, payload, |buf|)
  {
    var head, len := Varint.Encode(kind), Varint.Encode(|payload|);
    var buf := head + len + payload;
    Varint.RoundTrip(kind, len + payload);
    Varint.RoundTrip(|payload|, payload);
    ThreeParts(head, len, payload);
  }

  lemma ThreeParts(a: seq<byte>, b: seq<byte>, c: seq<byte>)
    ensures a + b + c == a + (b + c) && (a + b + c)[|a|..] == b + c
    ensures (a + b + c)[|a| + |b|..|a + b + c|] == c
  {
  }

  lemma NothingLeft(c: Control)
    requires c.buf == []
    ensures Drain(c) == c
  {
  }

  /** A complete capsule written by the peer is handled, and leaves nothing behind. */
  lemma CapsuleIsHandled(c: Control, kind: nat, payload: seq<byte>)
    requires c.error.None? && c.buf == [] && kind < Varint.LIMIT && |payload| < Varint.LIMIT
    ensures Feed(c, Varint.Encode(kind) + Varint.Encode(|payload|) + payload) == Handled(c, kind, payload)
  {
    var buf := Varint.Encode(kind) + Varint.Encode(|payload|) + payload;
    FrameOfCapsule(kind, payload);
    var full := c.(buf := c.buf + buf);
    assert full.buf == buf && buf[|buf|..] == [] && full.(buf := []) == c;
    HandleFrame(c, kind, payload, []);
    NothingLeft(Handled(c, kind, payload));
  }

  // ---------------------------------------------------------------- what each capsule does

  /** The bytes of a capsule. */
  function Capsule(kind: nat, payload: seq<byte>): seq<byte>
    requires kind < Varint.LIMIT && |payload| < Varint.LIMIT
  {
    Varint.Encode(kind) + Varint.Encode(|payload|) + payload
  }

  /** Type 1 appends the assigned prefixes. */
  lemma AddressesAreAppended(c: Control, es: seq<Entry>)
    requires c.error.None? && c.buf == [] && |EncodeAll(es)| < Varint.LIMIT
    requires forall e :: e in es ==> WellFormed(AddressAssign, e)
    ensures Feed(c, Capsule(1, EncodeAll(es))) == c.(addresses := c.addresses + es)
  {
    CapsuleIsHandled(c, 1, EncodeAll(es));
    ParseOfEncoded(AddressAssign, es);
  }

  /** Type 3 appends the routes. */
  lemma RoutesAreAppended(c: Control, es: seq<Entry>)
    requires c.error.None? && c.buf == [] && |EncodeAll(es)| < Varint.LIMIT
    requires forall e :: e in es ==> WellFormed(RouteAdvertisement, e)
    ensures Feed(c, Capsule(3, EncodeAll(es))) == c.(routes := c.routes + es)
  {
    CapsuleIsHandled(c, 3, EncodeAll(es));
    ParseOfEncoded(RouteAdvertisement, es);
  }

  /** Any other type is skipped. */
  lemma OthersAreSkipped(c: Control, kind: nat, payload: seq<byte>)
    requires c.error.None? && c.buf == [] && kind < Varint.LIMIT && |payload| < Varint.LIMIT
    requires kind != 1 && kind != 3
    ensures Feed(c, Capsule(kind, payload)) == c
  {
    CapsuleIsHandled(c, kind, payload);
  }

  /** A payload outside the grammar ends the stream, and nothing of it is kept. */
  lemma BadPayloadsEndTheStream(c: Control, kind: nat, payload: seq<byte>)
    requires c.error.None? && c.buf == [] && |payload| < Varint.LIMIT && (kind == 1 || kind == 3)
    requires !exists es: seq<Entry> ::
               && (forall e :: e in es ==> WellFormed(if kind == 1 then AddressAssign else RouteAdvertisement, e))
               && EncodeAll(es) == payload
    ensures var d := Feed(c, Capsule(kind, payload));
            d.error.Some? && d.addresses == c.addresses && d.routes == c.routes
  {
    CapsuleIsHandled(c, kind, payload);
    AcceptsExactlyTheGrammar(if kind == 1 then AddressAssign else RouteAdvertisement, payload);
  }

  /** A capsule that is cut short stays in the buffer, and is an error if the stream ends there. */
  lemma CutCapsule(c: Control, kind: nat, payload: seq<byte>, k: nat)
    requires c.error.None? && c.buf == [] && kind < Varint.LIMIT && |payload| < Varint.LIMIT
    requires k < |Capsule(kind, payload)|
    ensures var d := Feed(c, Capsule(kind, payload)[..k]);
            && d == c.(buf := Capsule(kind, payload)[..k])
            && Finish(d).error == (if k == 0 then None else Some(TruncatedStream))
  {
    var all := Capsule(kind, payload);
    var part := all[..k];
    FrameOfCapsule(kind, payload);
    assert all == part + all[k..];
    NoOverflow(part);
    if NextFrame(part).Frame? {
      FramePrefix(part, all[k..]);
      assert false;
    }
    assert c.buf + part == part;
  }

  /** A whole capsule leaves nothing behind, so the stream may end there. */
  lemma WholeCapsulesEndWell(c: Control, es: seq<Entry>)
    requires c.error.None? && c.buf == [] && |EncodeAll(es)| < Varint.LIMIT
    requires forall e :: e in es ==> WellFormed(AddressAssign, e)
    ensures Finish(Feed(c, Capsule(1, EncodeAll(es)))).error == None
  {
    AddressesAreAppended(c, es);
  }

  /** The address capsule of the wire tests, for any IPv4 prefix: type 1, length 7, request id 0, version 4. */
  lemma AssignsIpv4(c: Control, address: seq<byte>, prefix: byte)
    requires c.error.None? && c.buf == [] && |address| == 4
    ensures Feed(c, [1, 7, 0, 4] + address + [prefix])
            == c.(addresses := c.addresses + [Assigned([0], address, prefix)])
  {
    var a := Assigned([0], address, prefix);
    Varint.DecodesExactly([0]);
    OneEntry(a);
    AddressesAreAppended(c, [a]);
    SmallCapsule(1, Encode(a));
    AddressBytes(address, prefix);
  }

  /** A route capsule: type 3, length 34, version 6, the two ends and the protocol. */
  lemma RoutesIpv6(c: Control, start: seq<byte>, end: seq<byte>, protocol: byte)
    requires c.error.None? && c.buf == [] && |start| == 16 && |end| == 16
    ensures Feed(c, [3, 34, 6] + start + end + [protocol]) == c.(routes := c.routes + [Route(start, end, protocol)])
  {
    var r := Route(start, end, protocol);
    OneEntry(r);
    RoutesAreAppended(c, [r]);
    SmallCapsule(3, Encode(r));
    RouteBytes(start, end, protocol);
  }

  lemma AddressBytes(address: seq<byte>, prefix: byte)
    ensures [1, 7] + ([0] + [4] + address + [prefix]) == [1, 7, 0, 4] + address + [prefix]
  {
  }

  lemma RouteBytes(start: seq<byte>, end: seq<byte>, protocol: byte)
    ensures [3, 34] + ([6] + start + end + [protocol]) == [3, 34, 6] + start + end + [protocol]
  {
  }

  lemma SmallCapsule(kind: nat, payload: seq<byte>)
    requires kind < 64 && |payload| < 64
    ensures Capsule(kind, payload) == [kind, |payload|] + payload
  {
  }

  lemma OneEntry(e: Entry)
    ensures EncodeAll([e]) == Encode(e)
  {
    assert EncodeAll([e]) == Encode(e) + EncodeAll([e][1..]);
  }
}
