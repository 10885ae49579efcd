/** Outgoing IP packets and synthesized ICMP messages (src/net/tunnel/masque.rs). */
module IpPackets {
  import opened Common
  import opened Checksum

  const IPV4_HEADER_LEN := 20
  const IPV6_HEADER_LEN := 40

  // ---------------------------------------------------------------- outgoing packets

  /** The packet `process_outgoing_ip_packet` leaves behind when it passes one: one hop less, and for
      IPv4 a new header checksum. */
  function Outgoing(p: seq<byte>): Option<seq<byte>> {
    if p == [] then None
    else if p[0] / 16 == 4 then
      if |p| < IPV4_HEADER_LEN || p[8] <= 1 then None
      else
        var q := p[8 := p[8] - 1];
        Some(Stored(q, 10, Complement(SumSkipping(q[..IPV4_HEADER_LEN], 10))))
    else if p[0] / 16 == 6 then
      if |p| < IPV6_HEADER_LEN || p[7] <= 1 then None else Some(p[7 := p[7] - 1])
    else None
  }

  /** `process_outgoing_ip_packet`, in place; a packet that is not passed is left as it was. */
  method ProcessOutgoing(packet: array<byte>) returns (pass: bool)
    modifies packet
    ensures pass <==> Outgoing(old(packet[..])).Some?
    ensures pass <==>
              || (packet.Length >= 20 && 0x40 <= old(packet[..])[0] < 0x50 && old(packet[..])[8] >= 2)
              || (packet.Length >= 40 && 0x60 <= old(packet[..])[0] < 0x70 && old(packet[..])[7] >= 2)
    ensures packet[..] == (if pass then Outgoing(old(packet[..])).value else old(packet[..]))
  {
    if packet.Length == 0 {
      return false;
    }
    var version := packet[0] / 16;
    if version == 4 {
      if packet.Length < IPV4_HEADER_LEN {
        return false;
      }
      var ttl := packet[8];
      if ttl <= 1 {
        return false;
      }
      packet[8] := ttl - 1;
      assert packet[..] == old(packet[..])[8 := ttl - 1];
      assert packet[..IPV4_HEADER_LEN] == packet[..][..IPV4_HEADER_LEN];
      var checksum := Calculate(packet[..IPV4_HEADER_LEN], 10);
      packet[10] := checksum / 256;
      packet[11] := checksum % 256;
      return true;
    } else if version == 6 {
      if packet.Length < IPV6_HEADER_LEN {
        return false;
      }
      var hopLimit := packet[7];
      if hopLimit <= 1 {
        return false;
      }
      packet[7] := hopLimit - 1;
      return true;
    }
    return false;
  }

  /** Header length in bytes that an IPv4 packet announces. */
  function HeaderLen(p: seq<byte>): nat
    requires p != []
  {
    p[0] % 16 * 4
  }

  /** Which packets pass: those with a complete header of version 4 or 6 and at least two hops left. */
  lemma PassesExactly(p: seq<byte>)
    ensures Outgoing(p).Some? <==>
              || (|p| >= 20 && 0x40 <= p[0] < 0x50 && p[8] >= 2)
              || (|p| >= 40 && 0x60 <= p[0] < 0x70 && p[7] >= 2)
  {
  }

  /** Only the hop count and, for IPv4, the two checksum bytes change. */
  lemma OutgoingChangesOnlyHopAndChecksum(p: seq<byte>)
    requires Outgoing(p).Some?
    ensures var q := Outgoing(p).value;
            && |q| == |p|
            && (p[0] / 16 == 4 ==>
                  && 20 <= |p| && 2 <= p[8] && q[8] == p[8] - 1
                  && forall i :: 0 <= i < |p| && i != 8 && i != 10 && i != 11 ==> q[i] == p[i])
            && (p[0] / 16 == 6 ==>
                  && 40 <= |p| && 2 <= p[7] && q[7] == p[7] - 1
                  && forall i :: 0 <= i < |p| && i != 7 ==> q[i] == p[i])
            && (p[0] / 16 == 4 || p[0] / 16 == 6)
  {
  }

  /** The first 20 bytes of every passed IPv4 packet verify at a receiver. */
  lemma FixedHeaderVerifies(p: seq<byte>)
    requires Outgoing(p).Some? && p[0] / 16 == 4
    ensures Verifies(Sum(Outgoing(p).value[..IPV4_HEADER_LEN]))
  {
    var head := p[8 := p[8] - 1][..IPV4_HEADER_LEN];
    StoredVerifies(head, 10, 0);
    assert Outgoing(p).value[..IPV4_HEADER_LEN] == Stored(head, 10, Complement(SumSkipping(head, 10)));
  }

  /** A receiver checks the whole announced header. It accepts exactly when the option bytes sum to a
      multiple of 0xffff; without options (IHL 5) it always does. */
  lemma HeaderVerifiesExactly(p: seq<byte>)
    requires Outgoing(p).Some? && p[0] / 16 == 4
    requires IPV4_HEADER_LEN <= HeaderLen(p) <= |p|
    ensures Verifies(Sum(Outgoing(p).value[..HeaderLen(p)]))
            <==> Sum(p[IPV4_HEADER_LEN..HeaderLen(p)]) % 0xffff == 0
    ensures HeaderLen(p) == IPV4_HEADER_LEN ==> Verifies(Sum(Outgoing(p).value[..HeaderLen(p)]))
  {
    var q, n := Outgoing(p).value, HeaderLen(p);
    FixedHeaderVerifies(p);
    OutgoingChangesOnlyHopAndChecksum(p);
    var fixed, options := q[..IPV4_HEADER_LEN], p[IPV4_HEADER_LEN..n];
    assert q[..n] == fixed + options;
    SumOfPieces(fixed, options, 0);
    RestDecides(Sum(fixed), Sum(options));
  }

  /** What is added to an acceptable sum is acceptable exactly when it is a multiple of 0xffff. */
  lemma RestDecides(sum: nat, rest: nat)
    requires Verifies(sum)
    ensures Verifies(sum + rest) <==> rest % 0xffff == 0
  {
    VerifiesExactly(sum);
    VerifiesExactly(sum + rest);
    Residue(sum / 0xffff, rest);
  }

  /** With options the promise can fail: a 24-byte header whose option word is 1. */
  lemma OptionsCanFail()
    ensures var p: seq<byte> := [0x46] + seq(7, _ => 0) + [64] + seq(14, _ => 0) + [1];
            Outgoing(p).Some? && !Verifies(Sum(Outgoing(p).value[..HeaderLen(p)]))
  {
    var p: seq<byte> := [0x46] + seq(7, _ => 0) + [64] + seq(14, _ => 0) + [1];
    assert p[0] == 0x46 && p[8] == 64 && HeaderLen(p) == 24 == |p|;
    var options := p[20..24];
    assert options == [0, 0, 0, 1];
    assert SumFrom(options, -1, 4) == 0 && SumFrom(options, -1, 2) == 1 && Sum(options) == 1;
    HeaderVerifiesExactly(p);
  }

  // ---------------------------------------------------------------- ICMP messages

  /** An ICMPv4 "fragmentation needed" message (RFC 792) about `orig`: sent back along its path, with
      the header and the first bytes of `orig` inside, and with both checksums acceptable to a
      receiver. */
  ghost predicate IsIcmpv4TooBig(orig: seq<byte>, mtu: u16, p: seq<byte>)
    requires |orig| >= IPV4_HEADER_LEN
  {
    var quoted := Min(|orig|, IPV4_HEADER_LEN + 8);
    && |p| == 28 + quoted && |p| <= 56
    && p[..10] == [0x45, 0, |p| / 256, |p| % 256, 0, 0, 0, 0, 64, 1]
    && p[12..16] == orig[16..20] && p[16..20] == orig[12..16]
    && Verifies(Sum(p[..20]))
    && p[20] == 3 && p[21] == 4 && p[24..28] == [0, 0, mtu / 256, mtu % 256]
    && p[28..] == orig[..quoted]
    && Verifies(Sum(p[20..]))
  }

  /** An ICMPv6 Packet Too Big message (section 3.2 of RFC 4443) about `orig`, at most 1280 bytes. */
  ghost predicate IsIcmpv6TooBig(orig: seq<byte>, mtu: u16, p: seq<byte>)
    requires |orig| >= IPV6_HEADER_LEN
  {
    var quoted := Min(|orig|, 1232);
    && |p| == 48 + quoted && |p| <= 1280
    && p[..8] == [0x60, 0, 0, 0, (|p| - 40) / 256, (|p| - 40) % 256, 58, 64]
    && p[8..24] == orig[24..40] && p[24..40] == orig[8..24]
    && p[40] == 2 && p[41] == 0 && p[44..48] == [0, 0, mtu / 256, mtu % 256]
    && p[48..] == orig[..quoted]
    && Verifies(Pseudo(p[8..24], p[24..40], |p| - 40) + Sum(p[40..]))
  }

  /** A Packet Too Big message about `orig`, of its own version. */
  ghost predicate IsTooBig(orig: seq<byte>, mtu: u16, p: seq<byte>) {
    && orig != []
    && (|| (orig[0] / 16 == 4 && |orig| >= IPV4_HEADER_LEN && IsIcmpv4TooBig(orig, mtu, p))
        || (orig[0] / 16 == 6 && |orig| >= IPV6_HEADER_LEN && IsIcmpv6TooBig(orig, mtu, p)))
  }

  // The messages, piece by piece, with the checksum fields still zero.

  function Ipv4Header(total: u16, src: seq<byte>, dst: seq<byte>): seq<byte> {
    [0x45, 0, total / 256, total % 256, 0, 0, 0, 0, 64, 1, 0, 0] + src + dst
  }

  function Ipv6Header(payload: u16, src: seq<byte>, dst: seq<byte>): seq<byte> {
    [0x60, 0, 0, 0, payload / 256, payload % 256, 58, 64] + src + dst
  }

  function IcmpMessage(kind: byte, code: byte, mtu: u16, quote: seq<byte>): seq<byte> {
    [kind, code, 0, 0, 0, 0, mtu / 256, mtu % 256] + quote
  }

  function Icmpv4TooBig(orig: seq<byte>, mtu: u16): seq<byte>
    requires |orig| >= IPV4_HEADER_LEN
  {
    var quote := orig[..Min(|orig|, IPV4_HEADER_LEN + 8)];
    var head := Ipv4Header(28 + |quote|, orig[16..20], orig[12..16]);
    var body := IcmpMessage(3, 4, mtu, quote);
    Stored(head, 10, Complement(SumSkipping(head, 10))) + Stored(body, 2, Complement(SumSkipping(body, 2)))
  }

  function Icmpv6TooBig(orig: seq<byte>, mtu: u16): seq<byte>
    requires |orig| >= IPV6_HEADER_LEN
  {
    var quote := orig[..Min(|orig|, 1232)];
    var src, dst := orig[24..40], orig[8..24];
    var body := IcmpMessage(2, 0, mtu, quote);
    Ipv6Header(|body|, src, dst) + Stored(body, 2, Complement(Pseudo(src, dst, |body|) + SumSkipping(body, 2)))
  }

  lemma Icmpv4TooBigIsOne(orig: seq<byte>, mtu: u16)
    requires |orig| >= IPV4_HEADER_LEN
    ensures IsIcmpv4TooBig(orig, mtu, Icmpv4TooBig(orig, mtu))
  {
    var quote := orig[..Min(|orig|, IPV4_HEADER_LEN + 8)];
    var head := Ipv4Header(28 + |quote|, orig[16..20], orig[12..16]);
    var body := IcmpMessage(3, 4, mtu, quote);
    StoredVerifies(head, 10, 0);
    StoredVerifies(body, 2, 0);
    var p := Icmpv4TooBig(orig, mtu);
    assert p[..20] == Stored(head, 10, Complement(SumSkipping(head, 10)));
    assert p[20..] == Stored(body, 2, Complement(SumSkipping(body, 2)));
    assert p[12..16] == p[..20][12..16] && p[16..20] == p[..20][16..20] && p[..10] == p[..20][..10];
    assert p[28..] == p[20..][8..] && p[24..28] == p[20..][4..8];
  }

  lemma Icmpv6TooBigIsOne(orig: seq<byte>, mtu: u16)
    requires |orig| >= IPV6_HEADER_LEN
    ensures IsIcmpv6TooBig(orig, mtu, Icmpv6TooBig(orig, mtu))
  {
    var quote := orig[..Min(|orig|, 1232)];
    var src, dst := orig[24..40], orig[8..24];
    var body := IcmpMessage(2, 0, mtu, quote);
    StoredVerifies(body, 2, Pseudo(src, dst, |body|));
    var p := Icmpv6TooBig(orig, mtu);
    assert p[..40] == Ipv6Header(|body|, src, dst);
    assert p[40..] == Stored(body, 2, Complement(Pseudo(src, dst, |body|) + SumSkipping(body, 2)));
    assert p[..8] == p[..40][..8] && p[8..24] == p[..40][8..24] && p[24..40] == p[..40][24..40];
    assert p[8..24] == src && p[24..40] == dst;
    assert p[48..] == p[40..][8..] && p[44..48] == p[40..][4..8];
  }

  // The source builds them in a zeroed buffer.

  /** `copy_from_slice` into a buffer. */
  method Copy(packet: array<byte>, at: nat, bytes: seq<byte>)
    requires at + |bytes| <= packet.Length
    modifies packet
    ensures packet[..] == old(packet[..at]) + bytes + old(packet[at + |bytes|..])
  {
    forall i | 0 <= i < |bytes| { packet[at + i] := bytes[i]; }
  }

  method Put(packet: array<byte>, at: nat, checksum: u16)
    requires at + 1 < packet.Length
    modifies packet
    ensures packet[..] == Stored(old(packet[..]), at, checksum)
  {
    packet[at] := checksum / 256;
    packet[at + 1] := checksum % 256;
  }

  method PutIpv4Header(packet: array<byte>, total: u16, src: seq<byte>, dst: seq<byte>)
    requires packet.Length >= 20 && |src| == 4 && |dst| == 4
    requires forall i :: 0 <= i < 20 ==> packet[i] == 0
    modifies packet
    ensures packet[..] == Ipv4Header(total, src, dst) + old(packet[20..])
  {
    packet[0] := 0x45;
    packet[2] := total / 256;
    packet[3] := total % 256;
    packet[8] := 64;
    packet[9] := 1;
    ghost var fixed := packet[..];
    assert fixed[..12] == Ipv4Header(total, src, dst)[..12] && fixed[20..] == old(packet[20..]);
    Copy(packet, 12, src);
    Copy(packet, 16, dst);
    assert packet[..] == fixed[..12] + src + dst + fixed[20..];
  }

  method PutIpv6Header(packet: array<byte>, payload: u16, src: seq<byte>, dst: seq<byte>)
    requires packet.Length >= 40 && |src| == 16 && |dst| == 16
    requires forall i :: 0 <= i < 40 ==> packet[i] == 0
    modifies packet
    ensures packet[..] == Ipv6Header(payload, src, dst) + old(packet[40..])
  {
    packet[0] := 0x60;
    packet[4] := payload / 256;
    packet[5] := payload % 256;
    packet[6] := 58;
    packet[7] := 64;
    ghost var fixed := packet[..];
    assert fixed[..8] == Ipv6Header(payload, src, dst)[..8] && fixed[40..] == old(packet[40..]);
    Copy(packet, 8, src);
    Copy(packet, 24, dst);
    assert packet[..] == fixed[..8] + src + dst + fixed[40..];
  }

  method PutIcmp(packet: array<byte>, at: nat, kind: byte, code: byte, mtu: u16, quote: seq<byte>)
    requires at + 8 + |quote| == packet.Length
    requires forall i :: at <= i < at + 8 ==> packet[i] == 0
    modifies packet
    ensures packet[..] == old(packet[..at]) + IcmpMessage(kind, code, mtu, quote)
  {
    packet[at] := kind;
    packet[at + 1] := code;
    packet[at + 6] := mtu / 256;
    packet[at + 7] := mtu % 256;
    Copy(packet, at + 8, quote);
  }

  lemma StoredFront(a: seq<byte>, b: seq<byte>, at: nat, checksum: u16)
    requires at + 1 < |a|
    ensures Stored(a + b, at, checksum) == Stored(a, at, checksum) + b
  {
  }

  lemma StoredBack(a: seq<byte>, b: seq<byte>, at: nat, checksum: u16)
    requires at + 1 < |b|
    ensures Stored(a + b, |a| + at, checksum) == a + Stored(b, at, checksum)
  {
  }

  /** `compose_icmpv4_packet_too_big`. */
  method ComposeIcmpv4(orig: seq<byte>, mtu: u16) returns (r: Option<seq<byte>>)
    ensures r.None? <==> |orig| < IPV4_HEADER_LEN
    ensures r.Some? ==> IsIcmpv4TooBig(orig, mtu, r.value)
  {
    if |orig| < IPV4_HEADER_LEN {
      return None;
    }
    var quote := orig[..Min(|orig|, IPV4_HEADER_LEN + 8)];
    var total := IPV4_HEADER_LEN + 8 + |quote|;
    var packet := new byte[total](_ => 0);
    PutIpv4Header(packet, total, orig[16..20], orig[12..16]);
    ghost var head, zeros := Ipv4Header(total, orig[16..20], orig[12..16]), packet[20..];
    assert packet[..][..20] == head && packet[..] == head + zeros;
    var ipChecksum := Calculate(packet[..IPV4_HEADER_LEN], 10);
    Put(packet, 10, ipChecksum);
    StoredFront(head, zeros, 10, ipChecksum);
    ghost var front := Stored(head, 10, ipChecksum);
    assert packet[..] == front + zeros;
    PutIcmp(packet, 20, 3, 4, mtu, quote);
    ghost var body := IcmpMessage(3, 4, mtu, quote);
    assert packet[..] == front + body && packet[20..] == packet[..][20..] == body;
    var icmpChecksum := Calculate(packet[20..], 2);
    Put(packet, 22, icmpChecksum);
    StoredBack(front, body, 2, icmpChecksum);
    Icmpv4TooBigIsOne(orig, mtu);
    r := Some(packet[..]);
  }

  /** `compose_icmpv6_packet_too_big`. */
  method ComposeIcmpv6(orig: seq<byte>, mtu: u16) returns (r: Option<seq<byte>>)
    ensures r.None? <==> |orig| < IPV6_HEADER_LEN
    ensures r.Some? ==> IsIcmpv6TooBig(orig, mtu, r.value)
  {
    if |orig| < IPV6_HEADER_LEN {
      return None;
    }
    var quote := orig[..Min(|orig|, 1280 - IPV6_HEADER_LEN - 8)];
    var icmpLen := 8 + |quote|;
    var packet := new byte[IPV6_HEADER_LEN + icmpLen](_ => 0);
    PutIpv6Header(packet, icmpLen, orig[24..40], orig[8..24]);
    ghost var head, zeros := Ipv6Header(icmpLen, orig[24..40], orig[8..24]), packet[40..];
    assert packet[..] == head + zeros;
    PutIcmp(packet, 40, 2, 0, mtu, quote);
    ghost var body := IcmpMessage(2, 0, mtu, quote);
    assert packet[..] == head + body;
    assert packet[8..24] == packet[..][8..24] == orig[24..40];
    assert packet[24..40] == packet[..][24..40] == orig[8..24];
    assert packet[40..] == packet[..][40..] == body;
    var checksum := CalculateIcmpv6(packet[8..24], packet[24..40], packet[40..]);
    Put(packet, 42, checksum);
    StoredBack(head, body, 2, checksum);
    Icmpv6TooBigIsOne(orig, mtu);
    r := Some(packet[..]);
  }

  /** `compose_icmp_packet_too_big`: a reply exists exactly for packets with a complete header. */
  method ComposeTooBig(orig: seq<byte>, mtu: u16) returns (r: Option<seq<byte>>)
    ensures r.Some? <==> orig != [] && ((orig[0] / 16 == 4 && |orig| >= IPV4_HEADER_LEN)
                                        || (orig[0] / 16 == 6 && |orig| >= IPV6_HEADER_LEN))
    ensures r.Some? && orig[0] / 16 == 4 ==> IsIcmpv4TooBig(orig, mtu, r.value)
    ensures r.Some? && orig[0] / 16 == 6 ==> IsIcmpv6TooBig(orig, mtu, r.value)
  {
    if orig == [] {
      return None;
    }
    var version := orig[0] / 16;
    if version == 4 {
      r := ComposeIcmpv4(orig, mtu);
    } else if version == 6 {
      r := ComposeIcmpv6(orig, mtu);
    } else {
      r := None;
    }
  }
}
