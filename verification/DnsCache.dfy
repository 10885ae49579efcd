/** The cache of resolved names (src/net/tunnel/manager/dns_cache.rs). The container bounds its size and
    may evict a name at any time; time is in seconds. */
module DnsCache {
  import opened Common

  datatype Ip = V4(octets: seq<byte>) | V6(octets: seq<byte>)

  datatype Record = Record(address: Ip, ttl: nat)

  datatype Entry = Entry(ip: Ip, expires: nat)

  type Names = map<string, seq<Entry>>

  /** Records as they are stored. */
  function Stamped(records: seq<Record>, now: nat): seq<Entry> {
    seq(|records|, i requires 0 <= i < |records| => Entry(records[i].address, now + records[i].ttl))
  }

  function Inserted(names: Names, domain: string, records: seq<Record>, now: nat): Names {
    names[domain := Stamped(records, now)]
  }

  /** The addresses that have not expired, in order. */
  function Alive(entries: seq<Entry>, now: nat): seq<Ip> {
    if entries == [] then []
    else
      var n := |entries| - 1;
      var rest := Alive(entries[..n], now);
      if entries[n].expires > now then rest + [entries[n].ip] else rest
  }

  /** The addresses of one family, in order. */
  function OfFamily(ips: seq<Ip>, v6: bool): seq<Ip> {
    if ips == [] then []
    else
      var n := |ips| - 1;
      var rest := OfFamily(ips[..n], v6);
      if ips[n].V6? == v6 then rest + [ips[n]] else rest
  }

  /** The records of an answer that are still to be returned at time `t`. */
  function Fresh(records: seq<Record>, inserted: nat, t: nat): seq<Ip> {
    if records == [] then []
    else
      var n := |records| - 1;
      var rest := Fresh(records[..n], inserted, t);
      if inserted + records[n].ttl > t then rest + [records[n].address] else rest
  }

  /** An address is still to be returned exactly when a record of it has a TTL that reaches past `t`. */
  lemma {:induction false} FreshMembers(records: seq<Record>, inserted: nat, t: nat)
    ensures forall ip :: ip in Fresh(records, inserted, t) <==>
              exists i :: 0 <= i < |records| && records[i].address == ip && t < inserted + records[i].ttl
    ensures (forall i :: 0 <= i < |records| ==> t < inserted + records[i].ttl) ==>
              |Fresh(records, inserted, t)| == |records|
              && forall i :: 0 <= i < |records| ==> Fresh(records, inserted, t)[i] == records[i].address
  {
    if records != [] {
      var n := |records| - 1;
      FreshMembers(records[..n], inserted, t);
      forall ip
        ensures ip in Fresh(records, inserted, t) <==>
                  exists i :: 0 <= i < |records| && records[i].address == ip && t < inserted + records[i].ttl
      {
        assert ip in Fresh(records[..n], inserted, t) <==>
            exists i :: 0 <= i < n && records[..n][i].address == ip && t < inserted + records[..n][i].ttl;
        if i :| 0 <= i < |records| && records[i].address == ip && t < inserted + records[i].ttl {
          assert i < n ==> records[..n][i] == records[i];
        }
        if i :| 0 <= i < n && records[..n][i].address == ip && t < inserted + records[..n][i].ttl {
          assert records[i] == records[..n][i];
        }
      }
      assert forall i :: 0 <= i < n ==> records[..n][i] == records[i];
    }
  }

  lemma {:induction false} StampedAlive(records: seq<Record>, inserted: nat, t: nat)
    ensures Alive(Stamped(records, inserted), t) == Fresh(records, inserted, t)
  {
    if records != [] {
      var n := |records| - 1;
      assert Stamped(records, inserted)[..n] == Stamped(records[..n], inserted);
      StampedAlive(records[..n], inserted, t);
    }
  }

  lemma {:induction false} FamiliesPartition(ips: seq<Ip>)
    ensures |OfFamily(ips, true)| + |OfFamily(ips, false)| == |ips|
  {
    if ips != [] {
      FamiliesPartition(ips[..|ips| - 1]);
    }
  }

  lemma {:induction false} FamilyMembers(ips: seq<Ip>, v6: bool)
    ensures forall ip :: ip in OfFamily(ips, v6) <==> ip in ips && ip.V6? == v6
  {
    if ips != [] {
      var n := |ips| - 1;
      FamilyMembers(ips[..n], v6);
      assert ips == ips[..n] + [ips[n]];
    }
  }

  lemma {:induction false} FamilyGrows(ips: seq<Ip>, n: nat, v6: bool)
    requires n <= |ips|
    ensures |OfFamily(ips[..n], v6)| <= |OfFamily(ips, v6)|
    ensures OfFamily(ips[..n], v6) == OfFamily(ips, v6)[..|OfFamily(ips[..n], v6)|]
  {
    if n == |ips| {
      assert ips[..n] == ips;
    } else {
      var m := |ips| - 1;
      assert ips[..m][..n] == ips[..n];
      FamilyGrows(ips[..m], n, v6);
    }
  }

  lemma AliveSnoc(entries: seq<Entry>, now: nat, i: nat)
    requires i < |entries|
    ensures Alive(entries[..i + 1], now)
            == if entries[i].expires > now then Alive(entries[..i], now) + [entries[i].ip] else Alive(entries[..i], now)
  {
    assert entries[..i + 1][..i] == entries[..i];
  }

  /** The address is in an entry that has not expired. */
  ghost predicate Entered(entries: seq<Entry>, now: nat, ip: Ip) {
    exists e :: e in entries && e.ip == ip && e.expires > now
  }

  lemma {:induction false} AliveMembers(entries: seq<Entry>, now: nat)
    ensures forall ip :: ip in Alive(entries, now) <==> Entered(entries, now, ip)
    ensures Alive(entries, now) == [] ==> forall e :: e in entries ==> e.expires <= now
  {
    if entries != [] {
      var n := |entries| - 1;
      AliveMembers(entries[..n], now);
      assert entries == entries[..n] + [entries[n]];
      forall ip
        ensures ip in Alive(entries, now) <==> Entered(entries, now, ip)
      {
        assert ip in Alive(entries[..n], now) <==> Entered(entries[..n], now, ip);
      }
    }
  }

  lemma FamilySnoc(ips: seq<Ip>, ip: Ip, v6: bool)
    ensures OfFamily(ips + [ip], v6) == if ip.V6? == v6 then OfFamily(ips, v6) + [ip] else OfFamily(ips, v6)
  {
    assert (ips + [ip])[..|ips|] == ips;
  }

  lemma CountSnoc(ips: seq<Ip>, ip: Ip)
    ensures |OfFamily(ips + [ip], true)| == |OfFamily(ips, true)| + (if ip.V6? then 1 else 0)
    ensures |OfFamily(ips + [ip], false)| == |OfFamily(ips, false)| + (if ip.V6? then 0 else 1)
  {
    FamilySnoc(ips, ip, true);
    FamilySnoc(ips, ip, false);
  }

  lemma {:induction false} AliveGrows(entries: seq<Entry>, now: nat, n: nat)
    requires n <= |entries|
    ensures |Alive(entries[..n], now)| <= |Alive(entries, now)|
    ensures Alive(entries[..n], now) == Alive(entries, now)[..|Alive(entries[..n], now)|]
  {
    if n == |entries| {
      assert entries[..n] == entries;
    } else {
      var m := |entries| - 1;
      assert entries[..m][..n] == entries[..n];
      AliveGrows(entries[..m], now, n);
    }
  }

  /** The family a single lookup answers from. */
  function Target(ips: seq<Ip>, prefer6: bool): bool {
    if OfFamily(ips, prefer6) != [] then prefer6 else !prefer6
  }

  /** The first pass: how many addresses of each family are alive. */
  method CountFamilies(entries: seq<Entry>, now: nat) returns (v6: nat, v4: nat)
    ensures v6 == |OfFamily(Alive(entries, now), true)|
    ensures v4 == |OfFamily(Alive(entries, now), false)|
  {
    v6, v4 := 0, 0;
    ghost var seen: seq<Ip> := [];
    for i := 0 to |entries|
      invariant seen == Alive(entries[..i], now)
      invariant v6 == |OfFamily(seen, true)| && v4 == |OfFamily(seen, false)|
    {
      AliveSnoc(entries, now, i);
      if entries[i].expires > now {
        CountSnoc(seen, entries[i].ip);
        seen := seen + [entries[i].ip];
        if entries[i].ip.V6? {
          v6 := v6 + 1;
        } else {
          v4 := v4 + 1;
        }
      }
    }
    assert entries[..|entries|] == entries;
  }

  /** The second pass finds the record with any index that the first pass allows. */
  method Find(entries: seq<Entry>, now: nat, target6: bool, target: nat) returns (r: Option<Ip>)
    ensures var family := OfFamily(Alive(entries, now), target6);
            r == if target < |family| then Some(family[target]) else None
  {
    var idx := 0;
    for i := 0 to |entries|
      invariant idx == Before(entries, now, target6, i) <= target
    {
      BeforeStep(entries, now, target6, i);
      if entries[i].expires > now {
        if entries[i].ip.V6? == target6 {
          if idx == target {
            return Some(entries[i].ip);
          }
          idx := idx + 1;
        }
      }
    }
    assert entries[..|entries|] == entries;
    return None;
  }

  /** How many live addresses of the family stand before entry `i`. */
  ghost function Before(entries: seq<Entry>, now: nat, v6: bool, i: nat): nat
    requires i <= |entries|
  {
    |OfFamily(Alive(entries[..i], now), v6)|
  }

  lemma BeforeStep(entries: seq<Entry>, now: nat, v6: bool, i: nat)
    requires i < |entries|
    ensures var hit := entries[i].expires > now && entries[i].ip.V6? == v6;
            && Before(entries, now, v6, i + 1) == Before(entries, now, v6, i) + (if hit then 1 else 0)
            && (hit ==> && Before(entries, now, v6, i) < |OfFamily(Alive(entries, now), v6)|
                        && OfFamily(Alive(entries, now), v6)[Before(entries, now, v6, i)] == entries[i].ip)
  {
    AliveSnoc(entries, now, i);
    var seen := Alive(entries[..i], now);
    if entries[i].expires > now {
      AliveGrows(entries, now, i + 1);
      FamilyAt(Alive(entries, now), seen, entries[i].ip, v6);
    }
  }

  lemma FamilyAt(ips: seq<Ip>, seen: seq<Ip>, ip: Ip, v6: bool)
    requires |seen| < |ips| && ips[..|seen| + 1] == seen + [ip]
    ensures |OfFamily(seen + [ip], v6)| == |OfFamily(seen, v6)| + (if ip.V6? == v6 then 1 else 0)
    ensures ip.V6? == v6 ==> |OfFamily(seen, v6)| < |OfFamily(ips, v6)| && OfFamily(ips, v6)[|OfFamily(seen, v6)|] == ip
  {
    FamilySnoc(seen, ip, v6);
    FamilyGrows(ips, |seen| + 1, v6);
  }

  class Cache {
    var names: Names

    constructor ()
      ensures names == map[]
    {
      names := map[];
    }

    ghost function AliveIn(domain: string, now: nat): seq<Ip>
      reads this
    {
      if domain in names then Alive(names[domain], now) else []
    }

    /** `pick(n)` is the random index below `n`. A single lookup is empty exactly when a lookup of all
        is; otherwise it answers with an address that is alive, of the preferred family if one of those
        is, and every index leads to one. */
    method Get(domain: string, prefer6: bool, now: nat, pick: nat -> nat) returns (r: Option<Ip>)
      requires forall n :: n > 0 ==> pick(n) < n
      ensures r.None? <==> AliveIn(domain, now) == []
      ensures r.Some? ==>
                var ips := AliveIn(domain, now);
                var family := OfFamily(ips, Target(ips, prefer6));
                && family != [] && r.value == family[pick(|family|)]
                && r.value in ips
                && (r.value.V6? == prefer6 || forall ip :: ip in ips ==> ip.V6? != prefer6)
    {
      if domain !in names {
        return None;
      }
      var entries := names[domain];
      var v6, v4 := CountFamilies(entries, now);
      ghost var ips := Alive(entries, now);
      FamiliesPartition(ips);
      FamilyMembers(ips, prefer6);
      FamilyMembers(ips, !prefer6);
      if v6 + v4 == 0 {
        return None;
      }
      var target6, count;
      if prefer6 {
        target6, count := if v6 > 0 then true else false, if v6 > 0 then v6 else v4;
      } else {
        target6, count := if v4 > 0 then false else true, if v4 > 0 then v4 else v6;
      }
      assert count == |OfFamily(ips, target6)| && target6 == Target(ips, prefer6);
      r := Find(entries, now, target6, pick(count));
    }

    /** The filter and map over the stored entries: the live addresses in order, each of them and no
        other. */
    method GetAll(domain: string, now: nat) returns (r: Option<seq<Ip>>)
      ensures r == if AliveIn(domain, now) == [] then None else Some(AliveIn(domain, now))
      ensures r.Some? ==> domain in names && forall ip :: ip in r.value <==> Entered(names[domain], now, ip)
      ensures r.None? && domain in names ==> forall e :: e in names[domain] ==> e.expires <= now
    {
      if domain !in names {
        return None;
      }
      var entries := names[domain];
      var valid := [];
      for i := 0 to |entries|
        invariant valid == Alive(entries[..i], now)
      {
        AliveSnoc(entries, now, i);
        if entries[i].expires > now {
          valid := valid + [entries[i].ip];
        }
      }
      assert entries[..|entries|] == entries;
      AliveMembers(entries, now);
      return if valid == [] then None else Some(valid);
    }

    method Insert(domain: string, records: seq<Record>, now: nat)
      modifies this
      ensures names == Inserted(old(names), domain, records, now)
      ensures forall t: nat :: AliveIn(domain, t) == Fresh(records, now, t)
      ensures forall other: string, t: nat :: other != domain ==> AliveIn(other, t) == old(AliveIn(other, t))
    {
      names := names[domain := Stamped(records, now)];
      forall t: nat
        ensures AliveIn(domain, t) == Fresh(records, now, t)
      {
        StampedAlive(records, now, t);
      }
    }
  }

  // ---------------------------------------------------------------- histories

  datatype Change = Insertion(domain: string, records: seq<Record>, at: nat) | Eviction(domain: string)

  function Changed(names: Names, c: Change): Names {
    match c
    case Insertion(d, records, at) => Inserted(names, d, records, at)
    case Eviction(d) => names - {d}
  }

  function ChangedAll(names: Names, changes: seq<Change>): Names {
    if changes == [] then names
    else Changed(ChangedAll(names, changes[..|changes| - 1]), changes[|changes| - 1])
  }

  /** Until a name is evicted or overwritten, its addresses at time `t` are exactly those of the answer
      it was inserted with whose insertion time plus TTL is after `t`, in order. */
  lemma {:induction false} UntilReplaced(names: Names, domain: string, records: seq<Record>, at: nat,
                                         later: seq<Change>, t: nat)
    requires forall i :: 0 <= i < |later| ==> later[i].domain != domain
    ensures var all := ChangedAll(names, [Insertion(domain, records, at)] + later);
            domain in all && Alive(all[domain], t) == Fresh(records, at, t)
  {
    var all := [Insertion(domain, records, at)] + later;
    if later == [] {
      assert all[..0] == [] && all == [Insertion(domain, records, at)];
      StampedAlive(records, at, t);
    } else {
      var n := |later| - 1;
      UntilReplaced(names, domain, records, at, later[..n], t);
      assert all[..|all| - 1] == [Insertion(domain, records, at)] + later[..n];
    }
  }

  /** Nothing a lookup returns comes from elsewhere than the last answer of that name. */
  lemma {:induction false} OnlyInserted(changes: seq<Change>, domain: string, t: nat)
    ensures domain in ChangedAll(map[], changes) ==>
              exists i :: && 0 <= i < |changes| && changes[i].Insertion? && changes[i].domain == domain
                          && (forall j :: i < j < |changes| ==> changes[j].domain != domain)
                          && Alive(ChangedAll(map[], changes)[domain], t) == Fresh(changes[i].records, changes[i].at, t)
  {
    if changes != [] && domain in ChangedAll(map[], changes) {
      var n := |changes| - 1;
      if changes[n].domain == domain {
        StampedAlive(changes[n].records, changes[n].at, t);
      } else {
        OnlyInserted(changes[..n], domain, t);
        var i :| && 0 <= i < n && changes[..n][i].Insertion? && changes[..n][i].domain == domain
                 && (forall j :: i < j < n ==> changes[..n][j].domain != domain)
                 && Alive(ChangedAll(map[], changes[..n])[domain], t) == Fresh(changes[..n][i].records,
                                                                               changes[..n][i].at, t);
        assert changes[i] == changes[..n][i];
        forall j | i < j < |changes|
          ensures changes[j].domain != domain
        {
          if j < n {
            assert changes[j] == changes[..n][j];
          }
        }
      }
    }
  }
}
