/** ADDRESS_ASSIGN and ROUTE_ADVERTISEMENT payloads, sections 4.7.1 and 4.7.3 of RFC 9484
    (src/net/tunnel/masque.rs). Addresses stay byte strings; their textual form is not modelled. */
module Capsules {
  import opened Common
  import Varint

  datatype Kind = AddressAssign | RouteAdvertisement

  /** One entry as it is kept: an assigned prefix, or a range of addresses. `requestId` is the raw
      varint in front of an assigned prefix; the source decodes it and drops it. */
  datatype Entry =
    | Assigned(requestId: seq<byte>, address: seq<byte>, prefix: byte)
    | Route(start: seq<byte>, end: seq<byte>, protocol: byte)

  datatype Error =
    | BadVarint | MissingVersion | InvalidVersion(version: byte) | TruncatedAddress | MissingLastByte
    | FrameOverflow | TruncatedStream

  datatype Parsed = Accepted(entries: seq<Entry>) | Rejected(error: Error)

  datatype One = Got(entry: Entry, len: nat) | Bad(error: Error)

  // ---------------------------------------------------------------- the grammar

  /** Address width in bytes for an IP version byte; 0 for any other byte. */
  function Width(version: byte): nat {
    if version == 4 then 4 else if version == 6 then 16 else 0
  }

  function VersionOf(address: seq<byte>): byte {
    if |address| == 4 then 4 else 6
  }

  predicate IsAddress(address: seq<byte>) { |address| == 4 || |address| == 16 }

  predicate WellFormed(kind: Kind, e: Entry) {
    match kind
    case AddressAssign =>
      && e.Assigned? && IsAddress(e.address)
      && Varint.Decode(e.requestId).Decoded? && Varint.Decode(e.requestId).len == |e.requestId|
    case RouteAdvertisement => e.Route? && IsAddress(e.start) && |e.end| == |e.start|
  }

  function Encode(e: Entry): seq<byte> {
    match e
    case Assigned(requestId, address, prefix) => requestId + [VersionOf(address)] + address + [prefix]
    case Route(start, end, protocol) => [VersionOf(start)] + start + end + [protocol]
  }

  function EncodeAll(es: seq<Entry>): seq<byte> {
    if es == [] then [] else Encode(es[0]) + EncodeAll(es[1..])
  }

  // ---------------------------------------------------------------- parsing one entry

  /** The entry at the front of a payload. */
  function First(kind: Kind, p: seq<byte>): (r: One)
    ensures r.Got? ==> 0 < r.len <= |p|
  {
    match kind
    case AddressAssign =>
      var id := Varint.Decode(p);
      if !id.Decoded? then Bad(BadVarint)
      else if |p| <= id.len then Bad(MissingVersion)
      else
        var w := Width(p[id.len]);
        var at := id.len + 1;
        if w == 0 then Bad(InvalidVersion(p[id.len]))
        else if |p| < at + w then Bad(TruncatedAddress)
        else if |p| == at + w then Bad(MissingLastByte)
        else Got(Assigned(p[..id.len], p[at..at + w], p[at + w]), at + w + 1)
    case RouteAdvertisement =>
      if p == [] then Bad(MissingVersion)
      else
        var w := Width(p[0]);
        if w == 0 then Bad(InvalidVersion(p[0]))
        else if |p| < 1 + 2 * w then Bad(TruncatedAddress)
        else if |p| == 1 + 2 * w then Bad(MissingLastByte)
        else Got(Route(p[1..1 + w], p[1 + w..1 + 2 * w], p[1 + 2 * w]), 2 + 2 * w)
  }

  /** The whole payload, entry by entry. */
  function Parse(kind: Kind, p: seq<byte>): Parsed
    decreases |p|
  {
    if p == [] then Accepted([])
    else
      match First(kind, p)
      case Bad(error) => Rejected(error)
      case Got(entry, len) => Prepend([entry], Parse(kind, p[len..]))
  }

  function Prepend(es: seq<Entry>, r: Parsed): Parsed {
    if r.Accepted? then Accepted(es + r.entries) else r
  }

  lemma PrependJoin(es: seq<Entry>, e: Entry, r: Parsed)
    ensures Prepend(es, Prepend([e], r)) == Prepend(es + [e], r)
  {
    if r.Accepted? {
      assert es + ([e] + r.entries) == es + [e] + r.entries;
    }
  }

  // ---------------------------------------------------------------- the source's loops

  lemma Shift(p: seq<byte>, o: nat, a: nat, b: nat)
    requires o <= |p| && a <= b <= |p| - o
    ensures p[o..][a..b] == p[o + a..o + b]
  {
  }

  /** The body of the loop of `parse_address_assign_capsule`, reading at `begin`. */
  method TakeAddress(payload: seq<byte>, begin: nat) returns (one: One)
    requires begin < |payload|
    ensures one == First(AddressAssign, payload[begin..])
  {
    var id := Varint.Decode(payload[begin..]);
    if !id.Decoded? {
      return Bad(BadVarint);
    }
    var offset := begin + id.len;
    if offset >= |payload| {
      return Bad(MissingVersion);
    }
    var version := payload[offset];
    offset := offset + 1;
    if version != 4 && version != 6 {
      return Bad(InvalidVersion(version));
    }
    var w := if version == 4 then 4 else 16;
    if offset + w > |payload| {
      return Bad(TruncatedAddress);
    }
    var address := payload[offset..offset + w];
    offset := offset + w;
    if offset >= |payload| {
      return Bad(MissingLastByte);
    }
    Shift(payload, begin, 0, id.len);
    Shift(payload, begin, id.len + 1, id.len + 1 + w);
    return Got(Assigned(payload[begin..begin + id.len], address, payload[offset]), offset + 1 - begin);
  }

  /** The body of the loop of `parse_route_advertisement_capsule`. */
  method TakeRoute(payload: seq<byte>, begin: nat) returns (one: One)
    requires begin < |payload|
    ensures one == First(RouteAdvertisement, payload[begin..])
  {
    var offset := begin;
    var version := payload[offset];
    offset := offset + 1;
    if version != 4 && version != 6 {
      return Bad(InvalidVersion(version));
    }
    var w := if version == 4 then 4 else 16;
    if offset + w > |payload| {
      return Bad(TruncatedAddress);
    }
    var start := payload[offset..offset + w];
    offset := offset + w;
    if offset + w > |payload| {
      return Bad(TruncatedAddress);
    }
    var end := payload[offset..offset + w];
    offset := offset + w;
    if offset >= |payload| {
      return Bad(MissingLastByte);
    }
    Shift(payload, begin, 1, 1 + w);
    Shift(payload, begin, 1 + w, 1 + 2 * w);
    return Got(Route(start, end, payload[offset]), offset + 1 - begin);
  }

  /** `parse_address_assign_capsule` and `parse_route_advertisement_capsule`: every index read is in
      range and the offset strictly grows. */
  method ParsePayload(kind: Kind, payload: seq<byte>) returns (r: Parsed)
    ensures r == Parse(kind, payload)
  {
    NothingParsed(kind, payload);
    r := ParseLoop(kind, payload, Parse(kind, payload));
  }

  method ParseLoop(kind: Kind, payload: seq<byte>, ghost whole: Parsed) returns (r: Parsed)
    requires ParsedSoFar(kind, payload, 0, [], whole)
    ensures r == whole
  {
    var offset: nat := 0;
    var entries: seq<Entry> := [];
    while offset < |payload|
      invariant offset <= |payload|
      invariant ParsedSoFar(kind, payload, offset, entries, whole)
      decreases |payload| - offset
    {
      var one := TakeEntry(kind, payload, offset, entries, whole);
      if one.Bad? {
        return Rejected(one.error);
      }
      entries := entries + [one.entry];
      offset := offset + one.len;
    }
    AllParsed(kind, payload, entries, whole);
    r := Accepted(entries);
  }

  lemma NothingParsed(kind: Kind, payload: seq<byte>)
    ensures ParsedSoFar(kind, payload, 0, [], Parse(kind, payload))
  {
    assert payload[0..] == payload;
  }

  lemma AllParsed(kind: Kind, payload: seq<byte>, entries: seq<Entry>, whole: Parsed)
    requires ParsedSoFar(kind, payload, |payload|, entries, whole)
    ensures whole == Accepted(entries)
  {
    assert payload[|payload|..] == [] && entries + [] == entries;
  }

  method TakeEntry(kind: Kind, payload: seq<byte>, offset: nat, ghost entries: seq<Entry>, ghost whole: Parsed)
    returns (one: One)
    requires offset < |payload| && ParsedSoFar(kind, payload, offset, entries, whole)
    ensures one.Bad? ==> whole == Rejected(one.error)
    ensures one.Got? ==>
              && 0 < one.len && offset + one.len <= |payload|
              && ParsedSoFar(kind, payload, offset + one.len, entries + [one.entry], whole)
  {
    if kind == AddressAssign {
      one := TakeAddress(payload, offset);
    } else {
      one := TakeRoute(payload, offset);
    }
    ParseStep(kind, payload, offset, entries, one, whole);
  }

  /** The entries found so far, and what the rest of the payload holds, are the whole. */
  ghost predicate ParsedSoFar(kind: Kind, payload: seq<byte>, offset: nat, entries: seq<Entry>, whole: Parsed)
    requires offset <= |payload|
  {
    whole == Prepend(entries, Parse(kind, payload[offset..]))
  }

  /** One entry further, or the error that ends the payload. */
  lemma ParseStep(kind: Kind, payload: seq<byte>, offset: nat, entries: seq<Entry>, one: One, whole: Parsed)
    requires offset < |payload| && ParsedSoFar(kind, payload, offset, entries, whole)
    requires one == First(kind, payload[offset..])
    ensures one.Bad? ==> whole == Rejected(one.error)
    ensures one.Got? ==>
              && 0 < one.len && offset + one.len <= |payload|
              && ParsedSoFar(kind, payload, offset + one.len, entries + [one.entry], whole)
  {
    if one.Got? {
      assert payload[offset..][one.len..] == payload[offset + one.len..];
      PrependJoin(entries, one.entry, Parse(kind, payload[offset + one.len..]));
    }
  }

  // ---------------------------------------------------------------- the grammar is what is accepted

  lemma AddressOfEncoded(e: Entry, tail: seq<byte>)
    requires WellFormed(AddressAssign, e)
    ensures First(AddressAssign, Encode(e) + tail) == Got(e, |Encode(e)|)
  {
    var rest := [VersionOf(e.address)] + e.address + [e.prefix] + tail;
    Varint.DecodePrefix(e.requestId, rest);
    AddressParts(e.requestId, VersionOf(e.address), e.address, e.prefix, tail);
  }

  lemma AddressParts(id: seq<byte>, version: byte, address: seq<byte>, prefix: byte, tail: seq<byte>)
    ensures var p, n, w := id + [version] + address + [prefix] + tail, |id|, |address|;
            && p == id + ([version] + address + [prefix] + tail)
            && |p| == n + w + 2 + |tail| && p[..n] == id && p[n] == version && p[n + 1 + w] == prefix
            && p[n + 1..n + 1 + w] == address
  {
  }

  lemma RouteOfEncoded(e: Entry, tail: seq<byte>)
    requires WellFormed(RouteAdvertisement, e)
    ensures First(RouteAdvertisement, Encode(e) + tail) == Got(e, |Encode(e)|)
  {
    RouteParts(VersionOf(e.start), e.start, e.end, e.protocol, tail);
  }

  lemma RouteParts(version: byte, start: seq<byte>, end: seq<byte>, protocol: byte, tail: seq<byte>)
    requires |start| == |end|
    ensures var p, w := [version] + start + end + [protocol] + tail, |start|;
            && |p| == 2 * w + 2 + |tail| && p[0] == version && p[1 + 2 * w] == protocol
            && p[1..1 + w] == start && p[1 + w..1 + 2 * w] == end
  {
  }

  lemma FirstOfEncoded(kind: Kind, e: Entry, tail: seq<byte>)
    requires WellFormed(kind, e)
    ensures First(kind, Encode(e) + tail) == Got(e, |Encode(e)|)
  {
    if kind == AddressAssign { AddressOfEncoded(e, tail); } else { RouteOfEncoded(e, tail); }
  }

  lemma EncodedAddress(p: seq<byte>)
    requires First(AddressAssign, p).Got?
    ensures WellFormed(AddressAssign, First(AddressAssign, p).entry)
    ensures p == Encode(First(AddressAssign, p).entry) + p[First(AddressAssign, p).len..]
  {
    var n := Varint.Decode(p).len;
    var w := Width(p[n]);
    assert Varint.Decode(p[..n]) == Varint.Decode(p) by {
      Varint.DecodePrefix(p, []);
    }
    assert p == p[..n] + [p[n]] + p[n + 1..n + 1 + w] + [p[n + 1 + w]] + p[n + 2 + w..];
  }

  lemma EncodedRoute(p: seq<byte>)
    requires First(RouteAdvertisement, p).Got?
    ensures WellFormed(RouteAdvertisement, First(RouteAdvertisement, p).entry)
    ensures p == Encode(First(RouteAdvertisement, p).entry) + p[First(RouteAdvertisement, p).len..]
  {
  }

  lemma EncodedOfFirst(kind: Kind, p: seq<byte>)
    requires First(kind, p).Got?
    ensures WellFormed(kind, First(kind, p).entry)
    ensures p == Encode(First(kind, p).entry) + p[First(kind, p).len..]
  {
    if kind == AddressAssign { EncodedAddress(p); } else { EncodedRoute(p); }
  }

  /** Every sequence of well-formed entries is accepted and comes back in order. */
  lemma {:induction false} ParseOfEncoded(kind: Kind, es: seq<Entry>)
    requires forall e :: e in es ==> WellFormed(kind, e)
    ensures Parse(kind, EncodeAll(es)) == Accepted(es)
  {
    if es != [] {
      FirstOfEncoded(kind, es[0], EncodeAll(es[1..]));
      ParseOfEncoded(kind, es[1..]);
      var p := EncodeAll(es);
      assert p[|Encode(es[0])|..] == EncodeAll(es[1..]);
      assert es == [es[0]] + es[1..];
    }
  }

  /** Only such sequences are accepted: what comes back encodes to the payload. */
  lemma {:induction false} EncodedOfParse(kind: Kind, p: seq<byte>)
    requires Parse(kind, p).Accepted?
    ensures forall e :: e in Parse(kind, p).entries ==> WellFormed(kind, e)
    ensures EncodeAll(Parse(kind, p).entries) == p
    decreases |p|
  {
    if p != [] {
      EncodedOfFirst(kind, p);
      var one := First(kind, p);
      EncodedOfParse(kind, p[one.len..]);
      var es := Parse(kind, p).entries;
      assert es[0] == one.entry && es[1..] == Parse(kind, p[one.len..]).entries;
    }
  }

  /** A payload is accepted exactly when it is a concatenation of well-formed entries, and then in
      one way only. */
  lemma AcceptsExactlyTheGrammar(kind: Kind, p: seq<byte>)
    ensures Parse(kind, p).Accepted? <==>
              exists es: seq<Entry> :: (forall e :: e in es ==> WellFormed(kind, e)) && EncodeAll(es) == p
    ensures forall es: seq<Entry> ::
              (forall e :: e in es ==> WellFormed(kind, e)) && EncodeAll(es) == p ==> Parse(kind, p) == Accepted(es)
  {
    if Parse(kind, p).Accepted? {
      EncodedOfParse(kind, p);
    }
    forall es: seq<Entry> | (forall e :: e in es ==> WellFormed(kind, e)) && EncodeAll(es) == p
      ensures Parse(kind, p) == Accepted(es)
    {
      ParseOfEncoded(kind, es);
    }
  }

  // ---------------------------------------------------------------- what is wrong with a payload

  /** An assigned prefix that is cut short is rejected for the part that is missing. */
  lemma CutAddress(e: Entry, k: nat)
    requires WellFormed(AddressAssign, e) && 0 < k < |Encode(e)|
    ensures var n, w := |e.requestId|, |e.address|;
            First(AddressAssign, Encode(e)[..k])
            == Bad(if k < n then BadVarint else if k == n then MissingVersion
                   else if k < n + 1 + w then TruncatedAddress else MissingLastByte)
  {
    var id, rest := e.requestId, [VersionOf(e.address)] + e.address + [e.prefix];
    assert Encode(e) == id + rest;
    var p := Encode(e)[..k];
    Varint.DecodesExactly(id);
    Varint.DecodesExactly(p);
    assert p[0] == id[0];
    if k >= |id| {
      assert p == id + rest[..k - |id|];
      Varint.DecodePrefix(id, rest[..k - |id|]);
    }
  }

  /** So is a route. */
  lemma CutRoute(e: Entry, k: nat)
    requires WellFormed(RouteAdvertisement, e) && 0 < k < |Encode(e)|
    ensures First(RouteAdvertisement, Encode(e)[..k])
            == Bad(if k < 1 + 2 * |e.start| then TruncatedAddress else MissingLastByte)
  {
    assert Encode(e)[..k][0] == VersionOf(e.start);
  }

  /** A version byte other than 4 and 6 is reported, whatever follows. */
  lemma OtherVersions(id: seq<byte>, version: byte, rest: seq<byte>)
    requires Varint.Decode(id).Decoded? && Varint.Decode(id).len == |id| && version != 4 && version != 6
    ensures First(AddressAssign, id + [version] + rest) == Bad(InvalidVersion(version))
    ensures First(RouteAdvertisement, [version] + rest) == Bad(InvalidVersion(version))
  {
    Varint.DecodePrefix(id, [version] + rest);
    assert id + [version] + rest == id + ([version] + rest);
  }
}
