/**
 The RFC 2136 client: it collects the wanted address sets, remembers in `last` what
 the server accepted, and sends one update per name that differs. The server at the
 other end is the embedded one.
 */
module DnsReconciler {
  import opened Options
  import opened SortedText
  import opened DnsRecords

  datatype Target = Target(name: Name, zone: Name, ips: seq<string>)

  // ----- Collecting the wanted sets

  /** A host name in its domain, as the inventory lists it, with an address still to be parsed. */
  datatype Sighting = Sighting(name: Name, domain: Name, ip: string)

  predicate Proper(lib: Library, x: Sighting) {
    lib.canonical(x.name) == Some(x.name) && NameInZone(x.name, x.domain)
  }

  predicate Wanted(lib: Library, zone: Name, x: Sighting) {
    lib.isIPv4(lib.trim(x.ip)) && (zone == "" || NameInZone(x.name, zone))
  }

  predicate Distinct(s: seq<string>) {
    forall i, j :: 0 <= i < j < |s| ==> s[i] != s[j]
  }

  predicate WellFormed(lib: Library, key: Name, rec: Target) {
    && rec.name == key && lib.canonical(key) == Some(key) && NameInZone(key, rec.zone)
    && rec.ips != [] && Distinct(rec.ips) && forall i :: 0 <= i < |rec.ips| ==> lib.isIPv4(rec.ips[i])
  }

  predicate AllWellFormed(lib: Library, targets: map<Name, Target>) {
    forall key :: key in targets ==> WellFormed(lib, key, targets[key])
  }

  /** The addresses wanted for a name: each once, in the order first seen. */
  function WantedFor(lib: Library, zone: Name, xs: seq<Sighting>, name: Name): seq<string> {
    if xs == [] then []
    else
      var before := WantedFor(lib, zone, xs[..|xs| - 1], name);
      var x := xs[|xs| - 1];
      if x.name == name && Wanted(lib, zone, x) && lib.trim(x.ip) !in before then before + [lib.trim(x.ip)] else before
  }

  /** An address is wanted for a name exactly when some sighting of that name has it, as an IPv4 address in the zone. */
  lemma {:induction false} WantedExactly(lib: Library, zone: Name, xs: seq<Sighting>, name: Name, ip: string)
    ensures ip in WantedFor(lib, zone, xs, name) <==>
            exists i :: 0 <= i < |xs| && xs[i].name == name && lib.trim(xs[i].ip) == ip && lib.isIPv4(ip) && (zone == "" || NameInZone(name, zone))
    decreases |xs|
  {
    if xs != [] {
      var n := |xs| - 1;
      WantedExactly(lib, zone, xs[..n], name, ip);
      assert forall i :: 0 <= i < n ==> xs[..n][i] == xs[i];
    }
  }

  function AddressesOf(targets: map<Name, Target>, name: Name): seq<string> {
    if name in targets then targets[name].ips else []
  }

  predicate SameAt(a: map<Name, Target>, b: map<Name, Target>, n: Name) {
    if n in a then n in b && a[n] == b[n] else n !in b
  }

  /** The set kept beside the records, to find repeats. */
  ghost predicate Tracks(seen: map<Name, set<string>>, targets: map<Name, Target>) {
    && seen.Keys == targets.Keys
    && forall name :: name in seen ==> seen[name] == set ip | ip in targets[name].ips
  }

  method AddRecord(lib: Library, zone: Name, targets: map<Name, Target>, seen: map<Name, set<string>>, x: Sighting)
    returns (targets': map<Name, Target>, seen': map<Name, set<string>>)
    requires Proper(lib, x) && Tracks(seen, targets) && AllWellFormed(lib, targets)
    ensures Tracks(seen', targets') && AllWellFormed(lib, targets')
    ensures forall name :: name != x.name ==> SameAt(targets', targets, name)
    ensures AddressesOf(targets', x.name) ==
            var had := AddressesOf(targets, x.name);
            if Wanted(lib, zone, x) && lib.trim(x.ip) !in had then had + [lib.trim(x.ip)] else had
    ensures x.name in targets' && x.name !in targets ==> targets'[x.name].zone == if zone == "" then x.domain else zone
    ensures x.name in targets ==> x.name in targets' && targets'[x.name].zone == targets[x.name].zone
  {
    targets', seen' := targets, seen;
    var ip := lib.trim(x.ip);
    if !lib.isIPv4(ip) {
      return;
    }
    if zone != "" && !NameInZone(x.name, zone) {
      return;
    }
    var had := if x.name in seen then seen[x.name] else {};
    if ip in had {
      return;
    }
    seen' := seen[x.name := had + {ip}];
    var rec := if x.name in targets then targets[x.name] else Target(x.name, if zone == "" then x.domain else zone, []);
    assert Distinct(rec.ips + [ip]) && forall i :: 0 <= i < |rec.ips + [ip]| ==> lib.isIPv4((rec.ips + [ip])[i]);
    assert (set v | v in rec.ips + [ip]) == had + {ip};
    targets' := targets[x.name := rec.(ips := rec.ips + [ip])];
  }

  /** The records are what the sightings so far ask for. */
  ghost predicate Collected(lib: Library, zone: Name, xs: seq<Sighting>, targets: map<Name, Target>) {
    && (forall name :: AddressesOf(targets, name) == WantedFor(lib, zone, xs, name))
    && (zone != "" ==> forall name :: name in targets ==> targets[name].zone == zone)
  }

  lemma CollectedStep(lib: Library, zone: Name, xs: seq<Sighting>, x: Sighting, before: map<Name, Target>, after: map<Name, Target>)
    requires Collected(lib, zone, xs, before)
    requires forall name :: name != x.name ==> SameAt(after, before, name)
    requires AddressesOf(after, x.name) ==
             var had := AddressesOf(before, x.name);
             if Wanted(lib, zone, x) && lib.trim(x.ip) !in had then had + [lib.trim(x.ip)] else had
    requires zone != "" && x.name in after ==> after[x.name].zone == zone
    ensures Collected(lib, zone, xs + [x], after)
  {
    forall name ensures AddressesOf(after, name) == WantedFor(lib, zone, xs + [x], name) {
      assert (xs + [x])[..|xs|] == xs;
      assert name != x.name ==> SameAt(after, before, name);
    }
    forall name | zone != "" && name in after ensures after[name].zone == zone {
      assert name != x.name ==> SameAt(after, before, name);
    }
  }

  method CollectRecords(lib: Library, zone: Name, xs: seq<Sighting>) returns (targets: map<Name, Target>)
    requires forall i :: 0 <= i < |xs| ==> Proper(lib, xs[i])
    ensures AllWellFormed(lib, targets) && Collected(lib, zone, xs, targets)
  {
    targets := map[];
    var seen: map<Name, set<string>> := map[];
    for k := 0 to |xs|
      invariant AllWellFormed(lib, targets) && Tracks(seen, targets)
      invariant Collected(lib, zone, xs[..k], targets)
    {
      ghost var before := targets;
      targets, seen := AddRecord(lib, zone, targets, seen, xs[k]);
      CollectedStep(lib, zone, xs[..k], xs[k], before, targets);
      assert xs[..k + 1] == xs[..k] + [xs[k]];
    }
    assert xs[..|xs|] == xs;
  }

  // ----- What one update message does

  /** The server's address values for a name. */
  function AOf(records: Records, name: Name): seq<string> {
    if Has(records, name, A) then records[name][A].values else []
  }

  /** Everything but the address set of `name` is as before. */
  ghost predicate SameBut(r: Records, q: Records, name: Name) {
    forall n, t :: (n, t) != (name, A) ==> (Has(r, n, t) <==> Has(q, n, t)) && (Has(r, n, t) ==> r[n][t] == q[n][t])
  }

  function AddsFor(name: Name, ttl: nat, ips: seq<string>): seq<Update> {
    seq(|ips|, i requires 0 <= i < |ips| => Add(name, A, ttl, ips[i]))
  }

  function ReplaceMessage(rec: Target, ttl: nat): seq<Update> {
    [DeleteRRset(rec.name, A)] + AddsFor(rec.name, ttl, rec.ips)
  }

  function DeleteMessage(rec: Target): seq<Update> {
    [DeleteRRset(rec.name, A)]
  }

  lemma DeleteSetLeavesRest(records: Records, name: Name)
    ensures AOf(DeleteSet(records, name, A), name) == [] && SameBut(DeleteSet(records, name, A), records, name)
  {
    if name in records {
      assert forall t :: t != A ==> (t in records[name] <==> t in records[name] - {A});
    }
  }

  lemma DeleteMeaning(lib: Library, records: Records, serverTtl: nat, rec: Target, now: Time)
    requires WellFormed(lib, rec.name, rec)
    ensures var r := ApplyAll(lib, records, rec.zone, serverTtl, DeleteMessage(rec), now);
            r.refused.None? && AOf(r.records, rec.name) == [] && SameBut(r.records, records, rec.name)
  {
    var u := DeleteMessage(rec);
    assert u[..|u| - 1] == [];
    assert ApplyAll(lib, records, rec.zone, serverTtl, u, now) == Applied(DeleteSet(records, rec.name, A), None);
    DeleteSetLeavesRest(records, rec.name);
  }

  /** Adding a fresh address puts it last and touches nothing else. */
  lemma AddMeaning(records: Records, name: Name, ttl: nat, ip: string, now: Time)
    requires ip !in AOf(records, name)
    ensures var r := AddValue(records, name, A, ttl, ip, now);
            AOf(r, name) == AOf(records, name) + [ip] && SameBut(r, records, name)
  {
  }

  lemma {:induction false} ReplacePrefix(lib: Library, records: Records, serverTtl: nat, rec: Target, ttl: nat, now: Time, k: nat)
    requires WellFormed(lib, rec.name, rec) && k <= |rec.ips|
    ensures var r := ApplyAll(lib, records, rec.zone, serverTtl, ReplaceMessage(rec, ttl)[..k + 1], now);
            r.refused.None? && AOf(r.records, rec.name) == rec.ips[..k] && SameBut(r.records, records, rec.name)
    decreases k
  {
    var us := ReplaceMessage(rec, ttl);
    if k == 0 {
      assert us[..1] == DeleteMessage(rec);
      DeleteMeaning(lib, records, serverTtl, rec, now);
    } else {
      ReplacePrefix(lib, records, serverTtl, rec, ttl, now, k - 1);
      assert us[..k + 1][..k] == us[..k];
      var before := ApplyAll(lib, records, rec.zone, serverTtl, us[..k], now).records;
      assert us[k] == Add(rec.name, A, ttl, rec.ips[k - 1]);
      assert rec.ips[k - 1] !in rec.ips[..k - 1];
      assert rec.ips[..k] == rec.ips[..k - 1] + [rec.ips[k - 1]];
      AddMeaning(before, rec.name, if ttl == 0 then serverTtl else ttl, rec.ips[k - 1], now);
    }
  }

  /** The replace message leaves exactly the wanted addresses and every other set as it was. */
  lemma ReplaceMeaning(lib: Library, records: Records, serverTtl: nat, rec: Target, ttl: nat, now: Time)
    requires WellFormed(lib, rec.name, rec)
    ensures var r := ApplyAll(lib, records, rec.zone, serverTtl, ReplaceMessage(rec, ttl), now);
            r.refused.None? && AOf(r.records, rec.name) == rec.ips && SameBut(r.records, records, rec.name)
  {
    var us := ReplaceMessage(rec, ttl);
    assert us[..|rec.ips| + 1] == us && rec.ips[..|rec.ips|] == rec.ips;
    ReplacePrefix(lib, records, serverTtl, rec, ttl, now, |rec.ips|);
  }

  // ----- One Sync

  /** The server holds what the client remembers. */
  ghost predicate Agrees(last: map<Name, Target>, remote: Records) {
    forall n :: n in last ==> AOf(remote, n) == last[n].ips
  }

  /** A name the client must send an update for. */
  predicate Changed(last: map<Name, Target>, desired: map<Name, Target>, n: Name) {
    if n in desired then n !in last || last[n] != desired[n] else n in last
  }

  datatype Pair = Pair(last: map<Name, Target>, remote: Records)

  ghost predicate Untouched(p: Pair, q: Pair, n: Name) {
    SameAt(q.last, p.last, n) && AOf(q.remote, n) == AOf(p.remote, n)
  }

  ghost predicate Reached(desired: map<Name, Target>, q: Pair, n: Name) {
    SameAt(q.last, desired, n) && AOf(q.remote, n) == AddressesOf(desired, n)
  }

  ghost predicate OthersSame(p: Records, q: Records) {
    forall n, t :: t != A ==> (Has(p, n, t) <==> Has(q, n, t)) && (Has(p, n, t) ==> p[n][t] == q[n][t])
  }

  /** A Sync from p whose accepted updates were for `sent`, each once, got to q. */
  ghost predicate Advanced(p: Pair, desired: map<Name, Target>, sent: seq<Name>, q: Pair) {
    && Distinct(sent) && OthersSame(p.remote, q.remote)
    && (forall n :: n in sent ==> Changed(p.last, desired, n) && Reached(desired, q, n))
    && (forall n :: n !in sent ==> Untouched(p, q, n))
  }

  ghost predicate NothingLeft(p: Pair, desired: map<Name, Target>, sent: seq<Name>) {
    forall n :: Changed(p.last, desired, n) ==> n in sent
  }

  /** Some name is still to be sent to a zone the server does not have. */
  ghost predicate Unserved(p: Pair, desired: map<Name, Target>, sent: seq<Name>, zones: set<Name>) {
    exists n :: n !in sent && ((n in desired && desired[n].zone !in zones) || (n in p.last && p.last[n].zone !in zones))
  }

  lemma OneMoreSent(p: Pair, desired: map<Name, Target>, sent: seq<Name>, q: Pair, key: Name, r: Pair)
    requires Advanced(p, desired, sent, q) && key !in sent && Changed(p.last, desired, key)
    requires SameBut(r.remote, q.remote, key) && (forall n :: n != key ==> SameAt(r.last, q.last, n)) && Reached(desired, r, key)
    ensures Advanced(p, desired, sent + [key], r)
  {
    forall n | n != key ensures Untouched(q, r, n) {
      assert (n, A) != (key, A);
      assert SameAt(r.last, q.last, n);
    }
    assert Distinct(sent + [key]);
    forall n | n in sent ensures Reached(desired, r, n) {
      assert Untouched(q, r, n);
    }
    forall n | n !in sent + [key] ensures Untouched(p, r, n) {
      assert Untouched(q, r, n) && n !in sent;
    }
  }

  /** A refused message changes nothing the client can see. */
  lemma NotSent(p: Pair, desired: map<Name, Target>, sent: seq<Name>, q: Pair, key: Name, r: Pair)
    requires Advanced(p, desired, sent, q)
    requires SameBut(r.remote, q.remote, key) && r.last == q.last && AOf(r.remote, key) == AOf(q.remote, key)
    ensures Advanced(p, desired, sent, r)
  {
    forall n ensures Untouched(q, r, n) {
      assert n != key ==> (n, A) != (key, A);
    }
    forall n | n in sent ensures Reached(desired, r, n) {
      assert Untouched(q, r, n);
    }
    forall n | n !in sent ensures Untouched(p, r, n) {
      assert Untouched(q, r, n);
    }
  }

  lemma AdvancedAgrees(lib: Library, p: Pair, desired: map<Name, Target>, sent: seq<Name>, q: Pair)
    requires Advanced(p, desired, sent, q) && Agrees(p.last, p.remote)
    requires AllWellFormed(lib, p.last) && AllWellFormed(lib, desired)
    ensures Agrees(q.last, q.remote) && AllWellFormed(lib, q.last)
  {
    forall n | n in q.last ensures AOf(q.remote, n) == q.last[n].ips && WellFormed(lib, n, q.last[n]) {
      if n !in sent { assert Untouched(p, q, n); }
    }
  }

  lemma SameEverywhere(a: map<Name, Target>, b: map<Name, Target>)
    requires forall n :: SameAt(a, b, n)
    ensures a == b
  {
    forall n ensures n in a <==> n in b {
      assert SameAt(a, b, n);
    }
    forall n | n in a ensures a[n] == b[n] {
      assert SameAt(a, b, n);
    }
  }

  /** Once every changed name was accepted, memory and server are what was wanted. */
  lemma AllSentReaches(p: Pair, desired: map<Name, Target>, sent: seq<Name>, q: Pair)
    requires Advanced(p, desired, sent, q) && Agrees(p.last, p.remote) && NothingLeft(p, desired, sent)
    ensures q.last == desired
    ensures forall n :: n in p.last || n in desired ==> AOf(q.remote, n) == AddressesOf(desired, n)
    ensures forall n :: n !in p.last && n !in desired ==> AOf(q.remote, n) == AOf(p.remote, n)
  {
    forall n ensures SameAt(q.last, desired, n) {
      if n !in sent { assert Untouched(p, q, n) && !Changed(p.last, desired, n); }
    }
    SameEverywhere(q.last, desired);
    forall n | n in p.last || n in desired ensures AOf(q.remote, n) == AddressesOf(desired, n) {
      if n !in sent { assert Untouched(p, q, n) && !Changed(p.last, desired, n); }
    }
    forall n | n !in p.last && n !in desired ensures AOf(q.remote, n) == AOf(p.remote, n) {
      assert n !in sent;
      assert Untouched(p, q, n);
    }
  }

  class Reconciler {
    const lib: Library
    const ttl: nat
    var last: map<Name, Target>

    /** The server. */
    const zones: set<Name>
    const serverTtl: nat
    var remote: Records

    constructor (lib: Library, ttl: nat, zones: set<Name>, serverTtl: nat, remote: Records)
      ensures last == map[] && this.remote == remote && this.lib == lib
    {
      this.lib, this.ttl, this.zones, this.serverTtl, this.remote := lib, ttl, zones, serverTtl, remote;
      last := map[];
    }

    ghost function State(): Pair
      reads this
    {
      Pair(last, remote)
    }

    /** One update message and its reply; without a link nothing arrives. */
    method Exchange(zone: Name, us: seq<Update>, link: bool, now: Time) returns (ok: bool)
      modifies `remote
      ensures ok <==> link && zone in zones && ApplyAll(lib, old(remote), zone, serverTtl, us, now).refused.None?
      ensures remote == if link && zone in zones then ApplyAll(lib, old(remote), zone, serverTtl, us, now).records else old(remote)
    {
      if !link || zone !in zones {
        return false;
      }
      var r := ApplyAll(lib, remote, zone, serverTtl, us, now);
      remote := r.records;
      ok := r.refused.None?;
    }

    method ReplaceA(rec: Target, link: bool, now: Time) returns (ok: bool)
      requires WellFormed(lib, rec.name, rec)
      modifies `remote
      ensures SameBut(remote, old(remote), rec.name)
      ensures AOf(remote, rec.name) == if ok then rec.ips else AOf(old(remote), rec.name)
      ensures ok <==> link && rec.zone in zones
    {
      ReplaceMeaning(lib, remote, serverTtl, rec, ttl, now);
      ok := Exchange(rec.zone, ReplaceMessage(rec, ttl), link, now);
    }

    method DeleteA(rec: Target, link: bool, now: Time) returns (ok: bool)
      requires WellFormed(lib, rec.name, rec)
      modifies `remote
      ensures SameBut(remote, old(remote), rec.name)
      ensures AOf(remote, rec.name) == if ok then [] else AOf(old(remote), rec.name)
      ensures ok <==> link && rec.zone in zones
    {
      DeleteMeaning(lib, remote, serverTtl, rec, now);
      ok := Exchange(rec.zone, DeleteMessage(rec), link, now);
    }

    method ReplaceOne(ghost p: Pair, desired: map<Name, Target>, ghost sent: seq<Name>, key: Name, link: bool, now: Time)
      returns (accepted: bool)
      requires AllWellFormed(lib, desired) && Advanced(p, desired, sent, State())
      requires key in desired && key !in sent && Changed(last, desired, key)
      modifies `last, `remote
      ensures accepted <==> link && desired[key].zone in zones
      ensures Changed(p.last, desired, key)
      ensures Advanced(p, desired, if accepted then sent + [key] else sent, State())
    {
      ghost var q := State();
      assert Untouched(p, q, key);
      accepted := ReplaceA(desired[key], link, now);
      if accepted {
        last := last[key := desired[key]];
        OneMoreSent(p, desired, sent, q, key, State());
      } else {
        NotSent(p, desired, sent, q, key, State());
      }
    }

    method DeleteOne(ghost p: Pair, desired: map<Name, Target>, ghost sent: seq<Name>, key: Name, link: bool, now: Time)
      returns (accepted: bool)
      requires AllWellFormed(lib, last) && Advanced(p, desired, sent, State()) && key in last && key !in desired
      modifies `last, `remote
      ensures last == if accepted then old(last) - {key} else old(last)
      ensures accepted <==> link && old(last)[key].zone in zones
      ensures key in p.last && p.last[key] == old(last)[key]
      ensures key !in sent && Changed(p.last, desired, key)
      ensures Advanced(p, desired, if accepted then sent + [key] else sent, State())
    {
      ghost var q := State();
      assert key !in sent;
      assert Untouched(p, q, key);
      accepted := DeleteA(last[key], link, now);
      if accepted {
        last := last - {key};
        OneMoreSent(p, desired, sent, q, key, State());
      } else {
        NotSent(p, desired, sent, q, key, State());
      }
    }

    /** Every name ends as it was or as wanted; `budget` exchanges get through before the link is lost. */
    method Sync(desired: map<Name, Target>, budget: nat, now: Time) returns (ok: bool, sent: seq<Name>)
      requires AllWellFormed(lib, desired) && AllWellFormed(lib, last) && Agrees(last, remote)
      modifies `last, `remote
      ensures AllWellFormed(lib, last) && Agrees(last, remote)
      ensures Advanced(old(State()), desired, sent, State())
      ensures ok <==> NothingLeft(old(State()), desired, sent)
      ensures ok || |sent| == budget || Unserved(old(State()), desired, sent, zones)
    {
      ghost var p := State();
      ok, sent := SendReplacements(desired, budget, now);
      AdvancedAgrees(lib, p, desired, sent, State());
      if ok {
        ok, sent := SendDeletions(p, desired, sent, budget, now);
        AdvancedAgrees(lib, p, desired, sent, State());
      }
    }

    method SendReplacements(desired: map<Name, Target>, budget: nat, now: Time) returns (ok: bool, sent: seq<Name>)
      requires AllWellFormed(lib, desired) && AllWellFormed(lib, last)
      modifies `last, `remote
      ensures Advanced(old(State()), desired, sent, State())
      ensures forall n :: n in sent ==> n in desired
      ensures ok <==> forall n :: n in desired && Changed(old(last), desired, n) ==> n in sent
      ensures |sent| <= budget && (ok || |sent| == budget || Unserved(old(State()), desired, sent, zones))
    {
      ghost var p := State();
      sent := [];
      var left: nat := budget;
      var todo := desired.Keys;
      while todo != {}
        invariant left + |sent| == budget && Advanced(p, desired, sent, State())
        invariant todo <= desired.Keys
        invariant forall n :: n in sent ==> n in desired && n !in todo
        invariant forall n :: n in desired && n !in todo && Changed(p.last, desired, n) ==> n in sent
        decreases |todo|
      {
        var key :| key in todo;
        todo := todo - {key};
        assert Untouched(p, State(), key);
        if !(key in last && last[key] == desired[key]) {
          var accepted := ReplaceOne(p, desired, sent, key, left > 0, now);
          if !accepted {
            return false, sent;
          }
          left := left - 1;
          sent := sent + [key];
        }
      }
      ok := true;
    }

    method SendDeletions(ghost p: Pair, desired: map<Name, Target>, before: seq<Name>, budget: nat, now: Time)
      returns (ok: bool, sent: seq<Name>)
      requires AllWellFormed(lib, last) && Advanced(p, desired, before, State())
      requires forall n :: n in desired && Changed(p.last, desired, n) ==> n in before
      requires |before| <= budget && forall n :: n in before ==> n in desired
      modifies `last, `remote
      ensures Advanced(p, desired, sent, State())
      ensures ok <==> NothingLeft(p, desired, sent)
      ensures ok || |sent| == budget || Unserved(p, desired, sent, zones)
    {
      sent := before;
      var left: nat := budget - |before|;
      var todo := last.Keys;
      while todo != {}
        invariant left + |sent| == budget && AllWellFormed(lib, last) && Advanced(p, desired, sent, State())
        invariant todo <= last.Keys
        invariant forall n :: n in last && n !in todo ==> n in desired
        invariant forall n :: n in before ==> n in sent
        decreases |todo|
      {
        var key :| key in todo;
        todo := todo - {key};
        if key !in desired {
          var accepted := DeleteOne(p, desired, sent, key, left > 0, now);
          if !accepted {
            return false, sent;
          }
          left := left - 1;
          sent := sent + [key];
        }
      }
      forall n | n !in sent ensures !Changed(p.last, desired, n) {
        assert Untouched(p, State(), n);
      }
      ok := true;
    }
  }

  // ----- Whole runs of Syncs

  /** Consecutive states of a client, each Sync complete or stopped midway. */
  ghost predicate SyncRun(lib: Library, ps: seq<Pair>, desired: seq<map<Name, Target>>, sent: seq<seq<Name>>) {
    && |ps| == |desired| + 1 && |sent| == |desired|
    && (forall i :: 0 <= i < |desired| ==> AllWellFormed(lib, desired[i]) && Advanced(ps[i], desired[i], sent[i], ps[i + 1]))
  }

  /** Names the client does not manage are as it found them, or it emptied them. */
  ghost predicate LeftAlone(p: Pair, q: Pair) {
    forall n :: n !in q.last ==> AOf(q.remote, n) == AOf(p.remote, n) || AOf(q.remote, n) == []
  }

  lemma AdvancedLeavesAlone(p: Pair, q: Pair, desired: map<Name, Target>, sent: seq<Name>, r: Pair)
    requires LeftAlone(p, q) && Advanced(q, desired, sent, r)
    ensures LeftAlone(p, r)
  {
    forall n | n !in r.last ensures AOf(r.remote, n) == AOf(p.remote, n) || AOf(r.remote, n) == [] {
      if n in sent { assert Reached(desired, r, n); } else { assert Untouched(q, r, n); }
    }
  }

  /** From an empty memory, over every run: memory and server agree, and nothing but the managed address sets moved. */
  lemma {:induction false} RunAgrees(lib: Library, ps: seq<Pair>, desired: seq<map<Name, Target>>, sent: seq<seq<Name>>, k: nat)
    requires SyncRun(lib, ps, desired, sent) && k < |ps| && ps[0].last == map[]
    ensures AllWellFormed(lib, ps[k].last) && Agrees(ps[k].last, ps[k].remote)
    ensures OthersSame(ps[0].remote, ps[k].remote) && LeftAlone(ps[0], ps[k])
    decreases k
  {
    if k > 0 {
      RunAgrees(lib, ps, desired, sent, k - 1);
      assert Advanced(ps[k - 1], desired[k - 1], sent[k - 1], ps[k - 1 + 1]);
      AdvancedAgrees(lib, ps[k - 1], desired[k - 1], sent[k - 1], ps[k]);
      AdvancedLeavesAlone(ps[0], ps[k - 1], desired[k - 1], sent[k - 1], ps[k]);
    }
  }

  /** On a server that began without address sets, `last` is the server's address view after every Sync. */
  lemma LastIsTheServersView(lib: Library, ps: seq<Pair>, desired: seq<map<Name, Target>>, sent: seq<seq<Name>>, k: nat, n: Name)
    requires SyncRun(lib, ps, desired, sent) && k < |ps| && ps[0].last == map[]
    requires forall m :: AOf(ps[0].remote, m) == []
    ensures AOf(ps[k].remote, n) == AddressesOf(ps[k].last, n)
  {
    RunAgrees(lib, ps, desired, sent, k);
  }

  /** A second Sync for the same records sends nothing and changes nothing. */
  lemma UnchangedSendsNothing(p: Pair, desired: map<Name, Target>, sent: seq<Name>, q: Pair, again: seq<Name>, r: Pair)
    requires Agrees(p.last, p.remote) && Advanced(p, desired, sent, q) && NothingLeft(p, desired, sent)
    requires Advanced(q, desired, again, r)
    ensures again == [] && NothingLeft(q, desired, again) && r.last == q.last
    ensures forall n :: AOf(r.remote, n) == AOf(q.remote, n)
  {
    AllSentReaches(p, desired, sent, q);
    HasSome(again);
    forall n ensures SameAt(r.last, q.last, n) && AOf(r.remote, n) == AOf(q.remote, n) {
      assert n !in again;
      assert Untouched(q, r, n);
    }
    SameEverywhere(r.last, q.last);
  }
}
