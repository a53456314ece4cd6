/** The embedded DNS server as an object whose maps are changed in place. */
module DnsServer {
  import opened Options
  import opened SortedText
  import opened DnsRecords
  import opened DnsZones

  /** Trimmed, canonical where possible, each once, sorted. */
  method NormalizeValues(lib: Library, t: RRType, raw: seq<string>) returns (values: seq<string>)
    ensures values == Normalized(lib, t, raw)
  {
    values := [];
    var seen: set<string> := {};
    for i := 0 to |raw|
      invariant forall v :: v in values <==> v in CleanedAll(lib, t, raw[..i])
      invariant seen == set v | v in values
    {
      assert raw[..i + 1][..i] == raw[..i];
      var value := lib.trim(raw[i]);
      if value == "" {
        continue;
      }
      if t == CNAME && lib.canonical(value).Some? {
        value := lib.canonical(value).value;
      }
      if value in seen {
        continue;
      }
      seen := seen + {value};
      values := values + [value];
    }
    assert raw[..|raw|] == raw;
    SortedIsUnique(SortedSet(values), Normalized(lib, t, raw));
    values := SortedSet(values);
  }

  method FilterValues(values: seq<string>, value: string) returns (left: seq<string>)
    ensures left == Filtered(values, value)
  {
    left := [];
    for i := 0 to |values|
      invariant left == Filtered(values[..i], value)
    {
      assert values[..i + 1][..i] == values[..i];
      if values[i] != value {
        left := left + [values[i]];
      }
    }
    assert values[..|values|] == values;
  }

  /** Ascending by name, then by type. */
  predicate Ordered(entries: seq<Entry>) {
    forall i, j :: 0 <= i < j < |entries| ==>
      Before(entries[i].name, entries[j].name) || (entries[i].name == entries[j].name && entries[i].t < entries[j].t)
  }

  lemma {:induction false} LeastOf(s: set<RRType>) returns (t: RRType)
    requires s != {}
    ensures t in s && forall u :: u in s ==> t <= u
    decreases |s|
  {
    var x :| x in s;
    t := x;
    if s - {x} != {} {
      var u := LeastOf(s - {x});
      t := if u < x then u else x;
    }
    forall u | u in s ensures t <= u {
      assert u == x || u in s - {x};
    }
  }

  /** The entries of one name, by ascending type. */
  method EntriesOfName(records: Records, name: Name) returns (entries: seq<Entry>)
    requires name in records
    ensures forall e :: e in entries ==> e.name == name && EntryIn(e, records)
    ensures forall t :: t in records[name] ==> EntryOf(name, t, records[name][t]) in entries
    ensures Ordered(entries)
  {
    entries := [];
    var todo := records[name].Keys;
    while todo != {}
      invariant todo <= records[name].Keys
      invariant forall e :: e in entries ==> e.name == name && EntryIn(e, records) && forall t :: t in todo ==> e.t < t
      invariant forall t :: t in records[name] && t !in todo ==> EntryOf(name, t, records[name][t]) in entries
      invariant Ordered(entries)
      decreases |todo|
    {
      ghost var least := LeastOf(todo);
      var t :| t in todo && forall u :: u in todo ==> t <= u;
      todo := todo - {t};
      entries := entries + [EntryOf(name, t, records[name][t])];
    }
  }

  method SortedNames(names: set<Name>) returns (sorted: seq<Name>)
    ensures StrictlySorted(sorted) && forall n :: n in sorted <==> n in names
  {
    var list: seq<Name> := [];
    var todo := names;
    while todo != {}
      invariant forall n :: n in names <==> n in todo || n in list
      decreases |todo|
    {
      var n :| n in todo;
      todo := todo - {n};
      list := list + [n];
    }
    sorted := SortedSet(list);
  }

  /** The list holds the entries of the names in `part` and nothing else. */
  ghost predicate ListsPart(entries: seq<Entry>, records: Records, part: seq<Name>) {
    && (forall e :: e in entries ==> EntryIn(e, records) && e.name in part)
    && (forall n, t :: n in part && Has(records, n, t) ==> EntryOf(n, t, records[n][t]) in entries)
  }

  lemma OneMoreName(entries: seq<Entry>, more: seq<Entry>, records: Records, part: seq<Name>, name: Name)
    requires ListsPart(entries, records, part) && name in records
    requires forall e :: e in more ==> e.name == name && EntryIn(e, records)
    requires forall t :: t in records[name] ==> EntryOf(name, t, records[name][t]) in more
    ensures ListsPart(entries + more, records, part + [name])
  {
  }

  lemma OrderedAppend(entries: seq<Entry>, more: seq<Entry>, name: Name)
    requires Ordered(entries) && Ordered(more)
    requires forall e :: e in entries ==> Before(e.name, name)
    requires forall e :: e in more ==> e.name == name
    ensures Ordered(entries + more)
  {
    var all := entries + more;
    forall i, j | 0 <= i < j < |all|
      ensures Before(all[i].name, all[j].name) || (all[i].name == all[j].name && all[i].t < all[j].t)
    {
      if i < |entries| <= j {
        assert all[i] in entries && all[j] in more;
      }
    }
  }

  method DynamicRecordEntries(records: Records) returns (entries: seq<Entry>)
    ensures Lists(entries, records) && Ordered(entries)
  {
    var names := SortedNames(records.Keys);
    entries := [];
    for k := 0 to |names|
      invariant ListsPart(entries, records, names[..k]) && Ordered(entries)
    {
      var more := EntriesOfName(records, names[k]);
      OneMoreName(entries, more, records, names[..k], names[k]);
      OrderedAppend(entries, more, names[k]);
      assert names[..k + 1] == names[..k] + [names[k]];
      entries := entries + more;
    }
    assert names[..|names|] == names;
  }

  /** A message goes no further than its first refused record. */
  lemma {:induction false} StopsThere(lib: Library, records: Records, zone: Name, serverTtl: nat, us: seq<Update>, now: Time, k: nat)
    requires k <= |us| && ApplyAll(lib, records, zone, serverTtl, us[..k], now).refused.Some?
    ensures ApplyAll(lib, records, zone, serverTtl, us, now) == ApplyAll(lib, records, zone, serverTtl, us[..k], now)
    decreases |us| - k
  {
    if k < |us| {
      assert us[..k + 1][..k] == us[..k];
      StopsThere(lib, records, zone, serverTtl, us, now, k + 1);
    } else {
      assert us[..k] == us;
    }
  }

  lemma NextType(f: RRType -> multiset<RR>, done: set<RRType>, todo: set<RRType>, keys: set<RRType>, t: RRType)
    requires done !! todo && done + todo == keys && t in todo
    ensures done + {t} !! todo - {t} && done + {t} + (todo - {t}) == keys
    ensures BagOver(f, done + {t}) == BagOver(f, done) + f(t)
  {
    Peel(f, done + {t}, t);
    assert done + {t} - {t} == done;
  }

  ghost function Elements(names: seq<Name>): set<Name> {
    set n | n in names
  }

  /** Sorted names do not repeat, so each adds its records once. */
  lemma NextName(f: Name -> multiset<RR>, names: seq<Name>, k: nat)
    requires StrictlySorted(names) && k < |names|
    ensures BagOver(f, Elements(names[..k + 1])) == BagOver(f, Elements(names[..k])) + f(names[k])
  {
    var before, after := Elements(names[..k]), Elements(names[..k + 1]);
    forall i | 0 <= i < k ensures names[i] != names[k] {
      Irreflexive(names[k]);
    }
    assert names[..k + 1] == names[..k] + [names[k]];
    assert after - {names[k]} == before;
    Peel(f, after, names[k]);
  }

  class EmbeddedServer {
    const lib: Library
    const ttl: nat
    var zones: set<Name>
    var hosts: map<Name, seq<string>>
    var dynamicRecords: Records
    var serialAt: Time

    constructor (lib: Library, ttl: nat)
      ensures this.lib == lib && Snapshot() == Server(ttl, {}, map[], map[])
    {
      this.lib, this.ttl := lib, ttl;
      zones, hosts, dynamicRecords := {}, map[], map[];
    }

    ghost function Snapshot(): Server
      reads this
    {
      Server(ttl, zones, hosts, dynamicRecords)
    }

    ghost function Current(): View
      reads this
    {
      View(lib, Snapshot(), serialAt)
    }

    // ----- Dynamic updates

    method AddDynamicRecordValue(name: Name, t: RRType, ttl: nat, value: string, now: Time)
      modifies `dynamicRecords
      ensures dynamicRecords == AddValue(old(dynamicRecords), name, t, ttl, value, now)
    {
      var sets: map<RRType, RecordSet> := if name in dynamicRecords then dynamicRecords[name] else map[];
      var rs := if t in sets then sets[t] else EmptySet();
      if rs.ttl == 0 {
        rs := rs.(ttl := ttl);
      }
      if rs.createdAt.None? {
        rs := rs.(createdAt := Some(now));
      }
      rs := rs.(updatedAt := Some(now));
      if t == CNAME {
        rs := rs.(values := [value]);
      } else if value !in rs.values {
        rs := rs.(values := rs.values + [value]);
      }
      dynamicRecords := dynamicRecords[name := sets[t := rs]];
    }

    method DeleteDynamicRecordSet(name: Name, t: RRType)
      modifies `dynamicRecords
      ensures dynamicRecords == DeleteSet(old(dynamicRecords), name, t)
    {
      if name !in dynamicRecords {
        return;
      }
      dynamicRecords := dynamicRecords[name := dynamicRecords[name] - {t}];
      if |dynamicRecords[name]| == 0 {
        dynamicRecords := dynamicRecords - {name};
      }
    }

    method DeleteDynamicRecordValue(name: Name, t: RRType, value: string, now: Time)
      modifies `dynamicRecords
      ensures dynamicRecords == DeleteValue(old(dynamicRecords), name, t, value, now)
    {
      if name !in dynamicRecords || t !in dynamicRecords[name] {
        return;
      }
      var sets: map<RRType, RecordSet> := dynamicRecords[name];
      var rs := sets[t];
      var left := FilterValues(rs.values, value);
      if |left| == 0 {
        DeleteDynamicRecordSet(name, t);
        return;
      }
      rs := rs.(values := left, updatedAt := Some(now));
      dynamicRecords := dynamicRecords[name := sets[t := rs]];
    }

    method ApplyDynamicUpdate(zone: Name, u: Update, now: Time) returns (refused: Option<Refusal>)
      modifies `dynamicRecords
      ensures Applied(dynamicRecords, refused) == ApplyUpdate(lib, old(dynamicRecords), zone, ttl, u, now)
    {
      var owner := lib.canonical(u.name);
      if owner.None? {
        return Some(Format);
      }
      var name := owner.value;
      if !NameInZone(name, zone) {
        return Some(NotInZone);
      }
      refused := None;
      match u {
        case DeleteRRset(_, t) =>
          if t == ANY {
            dynamicRecords := dynamicRecords - {name};
          } else {
            DeleteDynamicRecordSet(name, t);
          }
        case DeleteRR(_, t, data) =>
          var value := ValueOf(lib, t, data);
          if value.None? {
            return Some(Unsupported);
          }
          DeleteDynamicRecordValue(name, t, value.value, now);
        case Add(_, t, rrTtl, data) =>
          var value := ValueOf(lib, t, data);
          if value.None? {
            return Some(Unsupported);
          }
          AddDynamicRecordValue(name, t, if rrTtl == 0 then ttl else rrTtl, value.value, now);
        case OtherClass(_) =>
          return Some(Format);
      }
    }

    /** One update message: what came before a refused record stays applied. */
    method ServeDynamicUpdate(zone: Name, us: seq<Update>, now: Time) returns (refused: Option<Refusal>)
      modifies `dynamicRecords, `serialAt
      ensures zone !in zones ==> refused == Some(NotInZone) && dynamicRecords == old(dynamicRecords)
      ensures zone in zones ==> Applied(dynamicRecords, refused) == ApplyAll(lib, old(dynamicRecords), zone, ttl, us, now)
      ensures serialAt == if refused.None? then now else old(serialAt)
    {
      if zone !in zones {
        return Some(NotInZone);
      }
      refused := None;
      for i := 0 to |us|
        invariant refused.None? && serialAt == old(serialAt)
        invariant Applied(dynamicRecords, None) == ApplyAll(lib, old(dynamicRecords), zone, ttl, us[..i], now)
      {
        assert us[..i + 1][..i] == us[..i];
        refused := ApplyDynamicUpdate(zone, us[i], now);
        if refused.Some? {
          StopsThere(lib, old(dynamicRecords), zone, ttl, us, now, i + 1);
          return;
        }
      }
      assert us[..|us|] == us;
      serialAt := now;
    }

    // ----- The record API

    method ValidateShape(r: Record) returns (shape: Option<(Name, RRType, nat, seq<string>)>)
      ensures shape == Shaped(lib, ttl, r)
    {
      if lib.isUnsafe(r.name) {
        return None;
      }
      var name := lib.canonical(r.name);
      if name.None? || !Supported(r.t) {
        return None;
      }
      var setTtl := if r.ttl == 0 then ttl else r.ttl;
      if setTtl == 0 {
        return None;
      }
      var values := NormalizeValues(lib, r.t, r.values);
      if |values| == 0 || (r.t == CNAME && |values| != 1) {
        return None;
      }
      for i := 0 to |values|
        invariant forall j :: 0 <= j < i ==> ValidValue(lib, r.t, values[j])
      {
        if !ValidValue(lib, r.t, values[i]) {
          return None;
        }
      }
      shape := Some((name.value, r.t, setTtl, values));
    }

    method UpsertDynamicRecord(r: Record, now: Time) returns (ok: bool)
      modifies `dynamicRecords, `serialAt
      ensures ok <==> Shaped(lib, ttl, r).Some? && Placeable(old(Snapshot()), Shaped(lib, ttl, r).value.0, r.t)
      ensures Snapshot() == Upserted(lib, old(Snapshot()), r, now)
      ensures serialAt == if ok then now else old(serialAt)
    {
      var shape := ValidateShape(r);
      if shape.None? {
        return false;
      }
      var (name, t, setTtl, values) := shape.value;
      ok := ValidatePlacement(name, t);
      if !ok {
        return;
      }
      var sets: map<RRType, RecordSet> := if name in dynamicRecords then dynamicRecords[name] else map[];
      var createdAt := Some(now);
      if t in sets && sets[t].createdAt.Some? {
        createdAt := sets[t].createdAt;
      }
      dynamicRecords := dynamicRecords[name := sets[t := RecordSet(setTtl, values, createdAt, Some(now))]];
      serialAt := now;
    }

    method ValidatePlacement(name: Name, t: RRType) returns (ok: bool)
      ensures ok <==> Placeable(Snapshot(), name, t)
    {
      var zone := ZoneForName(name);
      if zone.None? {
        return false;
      }
      assert exists z :: z in zones && NameInZone(name, z) by { assert zone.value in zones; }
      var sets: map<RRType, RecordSet> := if name in dynamicRecords then dynamicRecords[name] else map[];
      assert sets == SetsOf(Snapshot().dynamic, name);
      if t == CNAME {
        if name in hosts && |hosts[name]| > 0 {
          return false;
        }
        return forall u: RRType :: u in sets ==> u == CNAME;
      }
      ok := CNAME !in sets;
    }

    method DeleteDynamicRecord(rawName: string, t: RRType, now: Time) returns (ok: bool)
      modifies `dynamicRecords, `serialAt
      ensures ok <==> lib.canonical(rawName).Some? && Supported(t)
      ensures Snapshot() == Deleted(lib, old(Snapshot()), rawName, t)
      ensures serialAt == if ok then now else old(serialAt)
    {
      var name := lib.canonical(rawName);
      if name.None? || !Supported(t) {
        return false;
      }
      DeleteDynamicRecordSet(name.value, t);
      serialAt := now;
      ok := true;
    }

    /** The records come from the inventory; dynamic records stay. */
    method Resync(zones: set<Name>, hosts: map<Name, seq<string>>, now: Time)
      modifies `zones, `hosts, `serialAt
      ensures Snapshot() == old(Snapshot()).(zones := zones, hosts := hosts) && serialAt == now
    {
      this.zones, this.hosts, serialAt := zones, hosts, now;
    }

    // ----- Persistence

    method LoadOne(records: Records, e: Entry, loadedAt: Time) returns (after: Records)
      ensures after == LoadEntry(lib, ttl, records, e, loadedAt)
    {
      var name := lib.canonical(e.name);
      if name.None? || !Supported(e.t) {
        return records;
      }
      var setTtl := if e.ttl == 0 then ttl else e.ttl;
      var values := NormalizeValues(lib, e.t, e.values);
      if |values| == 0 {
        return records;
      }
      var createdAt := if e.createdAt.None? then Some(loadedAt) else e.createdAt;
      var updatedAt := if e.updatedAt.None? then Some(loadedAt) else e.updatedAt;
      var sets := if name.value in records then records[name.value] else map[];
      after := records[name.value := sets[e.t := RecordSet(setTtl, values, createdAt, updatedAt)]];
    }

    method LoadDynamicRecords(entries: seq<Entry>, loadedAt: Time)
      modifies `dynamicRecords
      ensures dynamicRecords == Loaded(lib, ttl, entries, loadedAt)
    {
      var records: Records := map[];
      for i := 0 to |entries|
        invariant records == Loaded(lib, ttl, entries[..i], loadedAt)
      {
        assert entries[..i + 1][..i] == entries[..i];
        records := LoadOne(records, entries[i], loadedAt);
      }
      assert entries[..|entries|] == entries;
      dynamicRecords := records;
    }

    // ----- Queries and transfers

    method ZoneForName(name: Name) returns (zone: Option<Name>)
      ensures IsZoneFor(zones, name, zone)
    {
      var todo := zones;
      while todo != {}
        invariant todo <= zones && forall z :: z in zones && z !in todo ==> !NameInZone(name, z)
        decreases |todo|
      {
        var z :| z in todo;
        if NameInZone(name, z) {
          return Some(z);
        }
        todo := todo - {z};
      }
      zone := None;
    }

    method HostAnswers(name: Name) returns (rrs: seq<RR>)
      ensures rrs == HostRRs(Current(), name)
    {
      rrs := [];
      if name in hosts {
        for i := 0 to |hosts[name]|
          invariant rrs == HostRRs(Current(), name)[..i]
        {
          rrs := rrs + [ARR(name, ttl, hosts[name][i])];
        }
      }
    }

    method DynamicSetAnswers(name: Name, t: RRType, rs: RecordSet) returns (rrs: seq<RR>)
      ensures rrs == DynamicRRs(lib, name, t, rs.ttl, rs.values)
    {
      rrs := [];
      for i := 0 to |rs.values|
        invariant rrs == DynamicRRs(lib, name, t, rs.ttl, rs.values[..i])
      {
        assert rs.values[..i + 1][..i] == rs.values[..i];
        var rr := DynamicRR(lib, name, t, rs.ttl, rs.values[i]);
        if rr.Some? {
          rrs := rrs + [rr.value];
        }
      }
      assert rs.values[..|rs.values|] == rs.values;
    }

    method AnswersOfType(name: Name, qType: RRType, t: RRType) returns (rrs: seq<RR>)
      requires Has(dynamicRecords, name, t)
      ensures multiset(rrs) == SetBag(Current(), name, qType)(t)
    {
      if qType != ANY && qType != t {
        return [];
      }
      rrs := DynamicSetAnswers(name, t, dynamicRecords[name][t]);
    }

    /** The dynamic records of a name, its types in any order. */
    method DynamicAnswers(name: Name, qType: RRType) returns (rrs: seq<RR>)
      ensures multiset(rrs) == DynamicBag(Current(), name, qType)
    {
      rrs := [];
      var sets: map<RRType, RecordSet> := if name in dynamicRecords then dynamicRecords[name] else map[];
      assert sets == SetsOf(Current().server.dynamic, name);
      var todo := sets.Keys;
      ghost var f, done := SetBag(Current(), name, qType), {};
      while todo != {}
        invariant done !! todo && done + todo == sets.Keys
        invariant multiset(rrs) == BagOver(f, done)
        decreases |todo|
      {
        var t :| t in todo;
        NextType(f, done, todo, sets.Keys, t);
        var more := AnswersOfType(name, qType, t);
        rrs := rrs + more;
        todo, done := todo - {t}, done + {t};
      }
    }

    method QueryRecords(name: Name, qType: RRType, now: Time) returns (answers: seq<RR>, known: bool, ghost zone: Option<Name>)
      ensures IsZoneFor(zones, name, zone)
      ensures known <==> name in hosts || zone == Some(name) || name in dynamicRecords
      ensures multiset(answers) == AnswerBag(Current(), name, qType, zone, now)
    {
      answers, known := [], name in hosts;
      if qType == A || qType == ANY {
        answers := HostAnswers(name);
      }
      var resolved := ZoneForName(name);
      zone := resolved;
      var apex := [];
      if resolved == Some(name) {
        known := true;
        if qType == SOA {
          apex := [SoaAt(name, now)];
        } else if qType == NS {
          apex := [NsAt(name)];
        } else if qType == ANY {
          apex := [SoaAt(name, now), NsAt(name)];
        }
      }
      assert multiset(apex) == ApexBag(Current(), name, zone, qType, now);
      var dynamics := DynamicAnswers(name, qType);
      known := known || name in dynamicRecords;
      answers := answers + apex + dynamics;
    }

    function SoaAt(zone: Name, now: Time): (rr: RR)
      reads this
      ensures rr == Soa(Current(), zone, now)
    {
      SoaRR(zone, ttl, "ns1." + zone, "hostmaster." + zone, Serial(serialAt, now), 3600, 600, 86400, ttl)
    }

    function NsAt(zone: Name): (rr: RR)
      reads this
      ensures rr == Ns(Current(), zone)
    {
      NsRR(zone, ttl, "ns1." + zone)
    }

    method NamesInZone(zone: Name) returns (names: seq<Name>)
      ensures StrictlySorted(names) && Elements(names) == ZoneNames(Snapshot(), zone)
    {
      var seen := set n | n in hosts && NameInZone(n, zone);
      var rest := set n | n in dynamicRecords && n !in seen && NameInZone(n, zone);
      names := SortedNames(seen + rest);
    }

    method ZoneRecords(zone: Name, now: Time, closing: Time) returns (rrs: seq<RR>)
      ensures IsTransfer(Current(), zone, now, closing, rrs)
    {
      var first := [SoaAt(zone, now), NsAt(zone)];
      var names := NamesInZone(zone);
      var body: seq<RR> := [];
      ghost var f := NameBag(Current());
      for k := 0 to |names|
        invariant multiset(body) == BagOver(f, Elements(names[..k]))
      {
        var statics := HostAnswers(names[k]);
        var dynamics := DynamicAnswers(names[k], ANY);
        NextName(f, names, k);
        body := body + (statics + dynamics);
      }
      assert names[..|names|] == names;
      rrs := first + body + [SoaAt(zone, closing)];
      assert rrs[..|rrs| - 1] == first + body;
    }
  }
}
