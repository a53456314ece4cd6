/**
 The views the embedded DNS server gives of its records: answers to queries and
 zone transfers, compared as multisets of resource records.
 */
module DnsZones {
  import opened Options
  import opened DnsRecords

  datatype RR =
    | SoaRR(name: Name, ttl: nat, ns: Name, mbox: Name, serial: nat, refresh: nat, retry: nat, expire: nat, minttl: nat)
    | NsRR(name: Name, ttl: nat, ns: Name)
    | ARR(name: Name, ttl: nat, ip: string)
    | TxtRR(name: Name, ttl: nat, text: string)
    | CnameRR(name: Name, ttl: nat, target: Name)

  function TypeOf(rr: RR): RRType {
    match rr
    case SoaRR(_, _, _, _, _, _, _, _, _) => SOA
    case NsRR(_, _, _) => NS
    case ARR(_, _, _) => A
    case TxtRR(_, _, _) => TXT
    case CnameRR(_, _, _) => CNAME
  }

  datatype View = View(lib: Library, server: Server, serialAt: Time)

  // ----- The records of one name

  /** Unix seconds as 32 bits, the clock standing in for a zero serial. */
  function Serial(serialAt: Time, now: Time): nat {
    if serialAt % 0x1_0000_0000 == 0 then now % 0x1_0000_0000 else serialAt % 0x1_0000_0000
  }

  function Soa(v: View, zone: Name, now: Time): RR {
    SoaRR(zone, v.server.ttl, "ns1." + zone, "hostmaster." + zone, Serial(v.serialAt, now), 3600, 600, 86400, v.server.ttl)
  }

  function Ns(v: View, zone: Name): RR {
    NsRR(zone, v.server.ttl, "ns1." + zone)
  }

  function HostRRs(v: View, name: Name): seq<RR> {
    if name in v.server.hosts
    then seq(|v.server.hosts[name]|, i requires 0 <= i < |v.server.hosts[name]| => ARR(name, v.server.ttl, v.server.hosts[name][i]))
    else []
  }

  function DynamicRR(lib: Library, name: Name, t: RRType, ttl: nat, value: string): Option<RR> {
    if t == A then (if lib.isIPv4(value) then Some(ARR(name, ttl, value)) else None)
    else if t == TXT then Some(TxtRR(name, ttl, value))
    else if t == CNAME && lib.canonical(value).Some? then Some(CnameRR(name, ttl, lib.canonical(value).value))
    else None
  }

  function DynamicRRs(lib: Library, name: Name, t: RRType, ttl: nat, values: seq<string>): (rrs: seq<RR>)
    ensures forall i :: 0 <= i < |rrs| ==> rrs[i].name == name && TypeOf(rrs[i]) == t
  {
    if values == [] then []
    else
      var before := DynamicRRs(lib, name, t, ttl, values[..|values| - 1]);
      var rr := DynamicRR(lib, name, t, ttl, values[|values| - 1]);
      if rr.None? then before else before + [rr.value]
  }

  // ----- Sums of multisets over a set

  ghost function BagOver<T(!new)>(f: T -> multiset<RR>, s: set<T>): multiset<RR> {
    if s == {} then multiset{}
    else
      var x :| x in s;
      f(x) + BagOver(f, s - {x})
  }

  /** The order of summation does not matter. */
  lemma {:induction false} Peel<T(!new)>(f: T -> multiset<RR>, s: set<T>, x: T)
    requires x in s
    ensures BagOver(f, s) == f(x) + BagOver(f, s - {x})
    decreases |s|
  {
    var y :| y in s && BagOver(f, s) == f(y) + BagOver(f, s - {y});
    if x != y {
      Peel(f, s - {y}, x);
      Peel(f, s - {x}, y);
      assert s - {y} - {x} == s - {x} - {y};
    }
  }

  lemma {:induction false} BagOverSum<T(!new)>(f: T -> multiset<RR>, g: T -> multiset<RR>, h: T -> multiset<RR>, s: set<T>)
    requires forall x :: x in s ==> h(x) == f(x) + g(x)
    ensures BagOver(h, s) == BagOver(f, s) + BagOver(g, s)
    decreases |s|
  {
    if s != {} {
      var x :| x in s;
      Peel(f, s, x);
      Peel(g, s, x);
      Peel(h, s, x);
      BagOverSum(f, g, h, s - {x});
    }
  }

  /** When only `home` can contribute a record, its count is home's. */
  lemma {:induction false} CountAtHome<T(!new)>(f: T -> multiset<RR>, s: set<T>, rr: RR, home: T)
    requires forall x :: x in s && x != home ==> rr !in f(x)
    ensures BagOver(f, s)[rr] == if home in s then f(home)[rr] else 0
    decreases |s|
  {
    if s != {} {
      var x :| x in s;
      Peel(f, s, x);
      CountAtHome(f, s - {x}, rr, home);
    }
  }

  // ----- Queries

  ghost function SetBag(v: View, name: Name, qType: RRType): RRType -> multiset<RR> {
    (t: RRType) => if Has(v.server.dynamic, name, t) && (qType == ANY || qType == t)
         then multiset(DynamicRRs(v.lib, name, t, v.server.dynamic[name][t].ttl, v.server.dynamic[name][t].values))
         else multiset{}
  }

  ghost function DynamicBag(v: View, name: Name, qType: RRType): multiset<RR> {
    BagOver(SetBag(v, name, qType), SetsOf(v.server.dynamic, name).Keys)
  }

  ghost function ApexBag(v: View, name: Name, zone: Option<Name>, qType: RRType, now: Time): multiset<RR> {
    if zone != Some(name) then multiset{}
    else if qType == ANY then multiset{Soa(v, name, now), Ns(v, name)}
    else if qType == SOA then multiset{Soa(v, name, now)}
    else if qType == NS then multiset{Ns(v, name)}
    else multiset{}
  }

  ghost function HostBag(v: View, name: Name, qType: RRType): multiset<RR> {
    if qType == A || qType == ANY then multiset(HostRRs(v, name)) else multiset{}
  }

  /** The answers for a name that resolves to `zone`. */
  ghost function AnswerBag(v: View, name: Name, qType: RRType, zone: Option<Name>, now: Time): multiset<RR> {
    HostBag(v, name, qType) + ApexBag(v, name, zone, qType, now) + DynamicBag(v, name, qType)
  }

  lemma DynamicCount(v: View, name: Name, qType: RRType, rr: RR)
    ensures DynamicBag(v, name, qType)[rr] == SetBag(v, name, qType)(TypeOf(rr))[rr]
  {
    CountAtHome(SetBag(v, name, qType), SetsOf(v.server.dynamic, name).Keys, rr, TypeOf(rr));
  }

  lemma DynamicByType(v: View, name: Name, t: RRType, rr: RR)
    requires t != ANY
    ensures DynamicBag(v, name, t)[rr] == if TypeOf(rr) == t then DynamicBag(v, name, ANY)[rr] else 0
  {
    DynamicCount(v, name, t, rr);
    DynamicCount(v, name, ANY, rr);
  }

  lemma DynamicOwned(v: View, name: Name, qType: RRType, rr: RR)
    requires rr.name != name
    ensures DynamicBag(v, name, qType)[rr] == 0
  {
    DynamicCount(v, name, qType, rr);
  }

  lemma HostOwned(v: View, name: Name, rr: RR)
    requires TypeOf(rr) != A || rr.name != name
    ensures multiset(HostRRs(v, name))[rr] == 0
  {
    assert forall i :: 0 <= i < |HostRRs(v, name)| ==> HostRRs(v, name)[i].name == name && TypeOf(HostRRs(v, name)[i]) == A;
    assert rr !in HostRRs(v, name);
  }

  lemma HostByType(v: View, name: Name, t: RRType, rr: RR)
    requires t != ANY
    ensures HostBag(v, name, t)[rr] == if TypeOf(rr) == t then HostBag(v, name, ANY)[rr] else 0
  {
    if TypeOf(rr) != A { HostOwned(v, name, rr); }
  }

  lemma ApexByType(v: View, name: Name, zone: Option<Name>, t: RRType, now: Time, rr: RR)
    requires t != ANY
    ensures ApexBag(v, name, zone, t, now)[rr] == if TypeOf(rr) == t then ApexBag(v, name, zone, ANY, now)[rr] else 0
  {
    assert TypeOf(Soa(v, name, now)) == SOA && TypeOf(Ns(v, name)) == NS;
  }

  /** Asking for one type gives exactly the records of that type in the ANY answer. */
  lemma QueryByType(v: View, name: Name, t: RRType, zone: Option<Name>, now: Time, rr: RR)
    requires t != ANY
    ensures AnswerBag(v, name, t, zone, now)[rr] == if TypeOf(rr) == t then AnswerBag(v, name, ANY, zone, now)[rr] else 0
  {
    DynamicByType(v, name, t, rr);
    ApexByType(v, name, zone, t, now, rr);
    HostByType(v, name, t, rr);
  }

  /** Answers are about the name asked for. */
  lemma AnswersAreOwned(v: View, name: Name, qType: RRType, zone: Option<Name>, now: Time, rr: RR)
    requires rr.name != name
    ensures AnswerBag(v, name, qType, zone, now)[rr] == 0
  {
    DynamicOwned(v, name, qType, rr);
    HostOwned(v, name, rr);
  }

  // ----- What the answers say

  /** The inventory address or stored value that stands behind a record of its type. */
  predicate Shows(lib: Library, rr: RR, value: string) {
    match rr
    case ARR(_, _, ip) => value == ip && lib.isIPv4(ip)
    case TxtRR(_, _, text) => value == text
    case CnameRR(_, _, target) => lib.canonical(value) == Some(target)
    case _ => false
  }

  /** How many of the values stand behind the record. */
  function Shown(lib: Library, rr: RR, values: seq<string>): nat {
    if values == [] then 0
    else Shown(lib, rr, values[..|values| - 1]) + if Shows(lib, rr, values[|values| - 1]) then 1 else 0
  }

  /** How often an address is listed. */
  function Times(ip: string, ips: seq<string>): nat {
    if ips == [] then 0 else Times(ip, ips[..|ips| - 1]) + if ips[|ips| - 1] == ip then 1 else 0
  }

  lemma {:induction false} HostCount(v: View, name: Name, ips: seq<string>, rr: RR)
    ensures multiset(seq(|ips|, i requires 0 <= i < |ips| => ARR(name, v.server.ttl, ips[i])))[rr] ==
            if rr.ARR? && rr.name == name && rr.ttl == v.server.ttl then Times(rr.ip, ips) else 0
    decreases |ips|
  {
    if ips != [] {
      var n := |ips| - 1;
      HostCount(v, name, ips[..n], rr);
      var all := seq(|ips|, i requires 0 <= i < |ips| => ARR(name, v.server.ttl, ips[i]));
      var before := seq(n, i requires 0 <= i < n => ARR(name, v.server.ttl, ips[..n][i]));
      assert all == before + [ARR(name, v.server.ttl, ips[n])];
    }
  }

  lemma {:induction false} SetCount(lib: Library, name: Name, t: RRType, ttl: nat, values: seq<string>, rr: RR)
    ensures multiset(DynamicRRs(lib, name, t, ttl, values))[rr] ==
            if rr.name == name && TypeOf(rr) == t && rr.ttl == ttl then Shown(lib, rr, values) else 0
    decreases |values|
  {
    if values != [] {
      SetCount(lib, name, t, ttl, values[..|values| - 1], rr);
    }
  }

  /** How often the inventory lists the record under the server's ttl. */
  function InInventory(v: View, name: Name, rr: RR): nat {
    if rr.ARR? && rr.ttl == v.server.ttl && name in v.server.hosts then Times(rr.ip, v.server.hosts[name]) else 0
  }

  /** How often the stored set of its type has it under the set's ttl. */
  function InSet(v: View, name: Name, rr: RR): nat {
    if Has(v.server.dynamic, name, TypeOf(rr)) && rr.ttl == v.server.dynamic[name][TypeOf(rr)].ttl
    then Shown(v.lib, rr, v.server.dynamic[name][TypeOf(rr)].values) else 0
  }

  lemma InventoryCount(v: View, name: Name, rr: RR)
    requires rr.name == name
    ensures multiset(HostRRs(v, name))[rr] == InInventory(v, name, rr)
  {
    if name in v.server.hosts {
      var ips := v.server.hosts[name];
      assert HostRRs(v, name) == seq(|ips|, i requires 0 <= i < |ips| => ARR(name, v.server.ttl, ips[i]));
      HostCount(v, name, ips, rr);
    }
  }

  lemma StoredCount(v: View, name: Name, qType: RRType, rr: RR)
    requires rr.name == name && (qType == ANY || qType == TypeOf(rr))
    ensures DynamicBag(v, name, qType)[rr] == InSet(v, name, rr)
  {
    DynamicCount(v, name, qType, rr);
    if Has(v.server.dynamic, name, TypeOf(rr)) {
      var rs := v.server.dynamic[name][TypeOf(rr)];
      SetCount(v.lib, name, TypeOf(rr), rs.ttl, rs.values, rr);
    }
  }

  /**
   The answer holds an address, text or alias as often as the inventory lists it
   under the server's ttl and the stored set has it under its own.
   */
  lemma AnswersExactly(v: View, name: Name, qType: RRType, zone: Option<Name>, now: Time, rr: RR)
    requires rr.name == name && (qType == ANY || qType == TypeOf(rr)) && !rr.SoaRR? && !rr.NsRR?
    ensures AnswerBag(v, name, qType, zone, now)[rr] == InInventory(v, name, rr) + InSet(v, name, rr)
  {
    StoredCount(v, name, qType, rr);
    InventoryCount(v, name, rr);
    assert ApexBag(v, name, zone, qType, now)[rr] == 0;
    assert HostBag(v, name, qType)[rr] == InInventory(v, name, rr);
  }

  lemma {:induction false} NotStored(lib: Library, rr: RR, values: seq<string>)
    requires rr.SoaRR? || rr.NsRR?
    ensures Shown(lib, rr, values) == 0
    decreases |values|
  {
    if values != [] { NotStored(lib, rr, values[..|values| - 1]); }
  }

  /** Records of another name or type it does not hold. */
  lemma NothingElse(v: View, name: Name, qType: RRType, zone: Option<Name>, now: Time, rr: RR)
    requires rr.name != name || (qType != ANY && qType != TypeOf(rr))
    ensures AnswerBag(v, name, qType, zone, now)[rr] == 0
  {
    if rr.name != name {
      AnswersAreOwned(v, name, qType, zone, now, rr);
    } else {
      QueryByType(v, name, qType, zone, now, rr);
    }
  }

  /** The SOA record of a zone: its serial counts the seconds of the last change in 32 bits. */
  predicate IsSoa(v: View, zone: Name, now: Time, rr: RR) {
    var changed := v.serialAt % 0x1_0000_0000;
    rr == SoaRR(zone, v.server.ttl, "ns1." + zone, "hostmaster." + zone,
                if changed != 0 then changed else now % 0x1_0000_0000, 3600, 600, 86400, v.server.ttl)
  }

  /** SOA and NS records it holds once each, and only at an apex. */
  lemma ApexExactly(v: View, name: Name, qType: RRType, zone: Option<Name>, now: Time, rr: RR)
    requires rr.name == name && (rr.SoaRR? || rr.NsRR?) && (qType == ANY || qType == TypeOf(rr))
    ensures AnswerBag(v, name, qType, zone, now)[rr] ==
            if zone == Some(name) && (IsSoa(v, name, now, rr) || rr == NsRR(name, v.server.ttl, "ns1." + name)) then 1 else 0
  {
    StoredCount(v, name, qType, rr);
    NotStored(v.lib, rr, if Has(v.server.dynamic, name, TypeOf(rr)) then v.server.dynamic[name][TypeOf(rr)].values else []);
    HostOwned(v, name, rr);
    assert HostBag(v, name, qType)[rr] == 0 && DynamicBag(v, name, qType)[rr] == 0;
    assert IsSoa(v, name, now, rr) <==> rr == Soa(v, name, now);
  }

  // ----- Zone transfers

  ghost function ZoneNames(s: Server, zone: Name): set<Name> {
    set n | n in s.hosts.Keys + s.dynamic.Keys && NameInZone(n, zone)
  }

  ghost function NameBag(v: View): Name -> multiset<RR> {
    n => multiset(HostRRs(v, n)) + DynamicBag(v, n, ANY)
  }

  /** What a transfer sends, with the clock read for each SOA. */
  ghost predicate IsTransfer(v: View, zone: Name, now: Time, closing: Time, rrs: seq<RR>) {
    && |rrs| >= 3 && rrs[0] == Soa(v, zone, now) && rrs[|rrs| - 1] == Soa(v, zone, closing)
    && multiset(rrs[..|rrs| - 1]) == multiset{Soa(v, zone, now), Ns(v, zone)} + BagOver(NameBag(v), ZoneNames(v.server, zone))
  }

  /** A transfer holds the records of each name of the zone as often as they are listed and stored, and no others. */
  lemma TransferExactly(v: View, zone: Name, now: Time, closing: Time, rrs: seq<RR>, rr: RR)
    requires IsTransfer(v, zone, now, closing, rrs) && !rr.SoaRR? && !rr.NsRR?
    ensures multiset(rrs[..|rrs| - 1])[rr] ==
            if rr.name in ZoneNames(v.server, zone) then InInventory(v, rr.name, rr) + InSet(v, rr.name, rr) else 0
  {
    var names := ZoneNames(v.server, zone);
    forall n | n in names && n != rr.name ensures rr !in NameBag(v)(n) {
      HostOwned(v, n, rr);
      DynamicOwned(v, n, ANY, rr);
    }
    CountAtHome(NameBag(v), names, rr, rr.name);
    StoredCount(v, rr.name, ANY, rr);
    InventoryCount(v, rr.name, rr);
  }

  /** Some zone holding the name, when there is one: the server takes any of them. */
  ghost predicate IsZoneFor(zones: set<Name>, name: Name, zone: Option<Name>) {
    match zone
    case Some(z) => z in zones && NameInZone(name, z)
    case None => forall z :: z in zones ==> !NameInZone(name, z)
  }

  ghost function Apexes(v: View, resolve: Name -> Option<Name>, now: Time): Name -> multiset<RR> {
    n => ApexBag(v, n, resolve(n), ANY, now)
  }

  ghost function AnyAnswers(v: View, resolve: Name -> Option<Name>, now: Time): Name -> multiset<RR> {
    n => AnswerBag(v, n, ANY, resolve(n), now)
  }

  /** Of the names in the zone, just the zone itself resolves to itself. */
  ghost predicate OneApex(resolve: Name -> Option<Name>, zone: Name, names: set<Name>) {
    resolve(zone) == Some(zone) && forall n :: n in names && n != zone ==> resolve(n) != Some(n)
  }

  lemma ApexCount(v: View, resolve: Name -> Option<Name>, now: Time, names: set<Name>, rr: RR)
    ensures BagOver(Apexes(v, resolve, now), names)[rr] ==
            if rr.name in names then ApexBag(v, rr.name, resolve(rr.name), ANY, now)[rr] else 0
  {
    CountAtHome(Apexes(v, resolve, now), names, rr, rr.name);
  }

  lemma OneApexSum(v: View, resolve: Name -> Option<Name>, now: Time, names: set<Name>, zone: Name)
    requires zone in names && OneApex(resolve, zone, names)
    ensures BagOver(Apexes(v, resolve, now), names) == multiset{Soa(v, zone, now), Ns(v, zone)}
  {
    var sum, want := BagOver(Apexes(v, resolve, now), names), multiset{Soa(v, zone, now), Ns(v, zone)};
    forall rr ensures sum[rr] == want[rr] {
      ApexCount(v, resolve, now, names, rr);
    }
  }

  lemma ApexAmong(v: View, resolve: Name -> Option<Name>, now: Time, names: set<Name>, n: Name)
    requires n in names
    ensures BagOver(Apexes(v, resolve, now), names)[Soa(v, n, now)] == if resolve(n) == Some(n) then 1 else 0
  {
    ApexCount(v, resolve, now, names, Soa(v, n, now));
  }

  lemma ApexSum(v: View, resolve: Name -> Option<Name>, now: Time, names: set<Name>, zone: Name)
    requires zone in names
    ensures BagOver(Apexes(v, resolve, now), names) == multiset{Soa(v, zone, now), Ns(v, zone)} <==> OneApex(resolve, zone, names)
  {
    var want := multiset{Soa(v, zone, now), Ns(v, zone)};
    if OneApex(resolve, zone, names) {
      OneApexSum(v, resolve, now, names, zone);
    } else if resolve(zone) != Some(zone) {
      ApexAmong(v, resolve, now, names, zone);
      assert want[Soa(v, zone, now)] == 1;
    } else {
      var n :| n in names && n != zone && resolve(n) == Some(n);
      ApexAmong(v, resolve, now, names, n);
      assert want[Soa(v, n, now)] == 0;
    }
  }

  lemma NothingAtBareApex(v: View, zone: Name)
    ensures BagOver(NameBag(v), ZoneNames(v.server, zone) + {zone}) == BagOver(NameBag(v), ZoneNames(v.server, zone))
  {
    var names := ZoneNames(v.server, zone);
    if zone in names {
      assert names + {zone} == names;
    } else {
      Peel(NameBag(v), names + {zone}, zone);
      assert names + {zone} - {zone} == names;
      assert SetsOf(v.server.dynamic, zone).Keys == {} && HostRRs(v, zone) == [];
    }
  }

  /** A transfer without its closing SOA is the union of the ANY answers, exactly when the zone is the one apex in it. */
  lemma TransferIsUnionExactly(v: View, zone: Name, now: Time, closing: Time, rrs: seq<RR>, resolve: Name -> Option<Name>)
    requires IsTransfer(v, zone, now, closing, rrs)
    ensures var names := ZoneNames(v.server, zone) + {zone};
            multiset(rrs[..|rrs| - 1]) == BagOver(AnyAnswers(v, resolve, now), names) <==> OneApex(resolve, zone, names)
  {
    var names := ZoneNames(v.server, zone) + {zone};
    BagOverSum(NameBag(v), Apexes(v, resolve, now), AnyAnswers(v, resolve, now), names);
    NothingAtBareApex(v, zone);
    ApexSum(v, resolve, now, names, zone);
    CancelSum(BagOver(NameBag(v), ZoneNames(v.server, zone)), multiset{Soa(v, zone, now), Ns(v, zone)}, BagOver(Apexes(v, resolve, now), names));
  }

  lemma CancelSum(common: multiset<RR>, a: multiset<RR>, b: multiset<RR>)
    ensures a + common == common + b <==> a == b
  {
    if a + common == common + b {
      assert forall rr :: (a + common)[rr] == (common + b)[rr] && (a + common)[rr] == a[rr] + common[rr];
    }
  }

  ghost predicate Resolver(zones: set<Name>, resolve: Name -> Option<Name>) {
    forall n :: IsZoneFor(zones, n, resolve(n))
  }

  /** No other zone holds this one, and no name held in this one is a zone. */
  ghost predicate Alone(s: Server, zone: Name) {
    && (forall z :: z in s.zones && NameInZone(zone, z) ==> z == zone)
    && (forall n :: n in ZoneNames(s, zone) && n in s.zones ==> n == zone)
  }

  /** For a zone alone the union holds however the server resolves names. */
  lemma AloneTransferIsUnion(v: View, zone: Name, now: Time, closing: Time, rrs: seq<RR>, resolve: Name -> Option<Name>)
    requires IsTransfer(v, zone, now, closing, rrs)
    requires zone in v.server.zones && Alone(v.server, zone) && Resolver(v.server.zones, resolve)
    ensures multiset(rrs[..|rrs| - 1]) == BagOver(AnyAnswers(v, resolve, now), ZoneNames(v.server, zone) + {zone})
  {
    var names := ZoneNames(v.server, zone) + {zone};
    assert IsZoneFor(v.server.zones, zone, resolve(zone));
    forall n | n in names && n != zone ensures resolve(n) != Some(n) {
      assert IsZoneFor(v.server.zones, n, resolve(n));
    }
    TransferIsUnionExactly(v, zone, now, closing, rrs, resolve);
  }

  ghost function AnyZone(zones: set<Name>, n: Name): (zone: Option<Name>)
    ensures IsZoneFor(zones, n, zone)
  {
    if exists z :: z in zones && NameInZone(n, z) then
      var z :| z in zones && NameInZone(n, z);
      Some(z)
    else None
  }

  /** For any other zone some way of resolving names breaks the union. */
  lemma OtherwiseNotUnion(v: View, zone: Name, now: Time, closing: Time, rrs: seq<RR>) returns (resolve: Name -> Option<Name>)
    requires IsTransfer(v, zone, now, closing, rrs)
    requires zone in v.server.zones && !Alone(v.server, zone)
    ensures Resolver(v.server.zones, resolve)
    ensures multiset(rrs[..|rrs| - 1]) != BagOver(AnyAnswers(v, resolve, now), ZoneNames(v.server, zone) + {zone})
  {
    var zones := v.server.zones;
    if z :| z in zones && NameInZone(zone, z) && z != zone {
      resolve := n => if n == zone then Some(z) else AnyZone(zones, n);
    } else {
      var m :| m in ZoneNames(v.server, zone) && m in zones && m != zone;
      resolve := n => if n == m then Some(m) else AnyZone(zones, n);
      assert resolve(m) == Some(m);
    }
    TransferIsUnionExactly(v, zone, now, closing, rrs, resolve);
  }

  /** No zone inside another leaves every zone alone. */
  lemma UnnestedAreAlone(s: Server, zone: Name)
    requires zone in s.zones && forall y, z :: y in s.zones && z in s.zones && NameInZone(y, z) ==> y == z
    ensures Alone(s, zone)
  {
  }

  /** Both ends carry the same SOA, unless the serial is zero and the clock ticks in between. */
  lemma SameSoaExactly(v: View, zone: Name, now: Time, closing: Time, rrs: seq<RR>)
    requires IsTransfer(v, zone, now, closing, rrs)
    ensures rrs[0] == rrs[|rrs| - 1] <==>
            v.serialAt % 0x1_0000_0000 != 0 || now % 0x1_0000_0000 == closing % 0x1_0000_0000
  {
  }

  /** The records of a zone without names, transferred at the second when the 32-bit serial is zero and in the one after. */
  function TickingTransfer(v: View, zone: Name, now: Time): seq<RR> {
    [Soa(v, zone, now), Ns(v, zone), Soa(v, zone, now + 1)]
  }

  /** It happens in one second out of 2^32, first in February 2106. */
  lemma SoaCanDiffer(lib: Library, ttl: nat, zone: Name)
    ensures var v := View(lib, Server(ttl, {zone}, map[], map[]), 0x1_0000_0000);
            var rrs := TickingTransfer(v, zone, 0x1_0000_0000);
            IsTransfer(v, zone, 0x1_0000_0000, 0x1_0000_0001, rrs) && rrs[0] != rrs[|rrs| - 1]
  {
    var v := View(lib, Server(ttl, {zone}, map[], map[]), 0x1_0000_0000);
    var rrs := TickingTransfer(v, zone, 0x1_0000_0000);
    assert ZoneNames(v.server, zone) == {};
    assert rrs[..2] == [Soa(v, zone, 0x1_0000_0000), Ns(v, zone)];
    SameSoaExactly(v, zone, 0x1_0000_0000, 0x1_0000_0001, rrs);
  }
}
