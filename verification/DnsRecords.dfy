/**
 The dynamic record map of the embedded DNS server: dynamic updates, the record
 API, and what is written to and read back from disk. Name and value syntax comes
 from a DNS library and is a parameter with a few laws.
 */
module DnsRecords {
  import opened Options
  import opened SortedText

  type Time = int
  type Name = string

  /** Record types by number. */
  type RRType = nat
  const A: RRType := 1
  const NS: RRType := 2
  const CNAME: RRType := 5
  const SOA: RRType := 6
  const TXT: RRType := 16
  const ANY: RRType := 255

  /** A zero timestamp is None. */
  datatype RecordSet = RecordSet(ttl: nat, values: seq<string>, createdAt: Option<Time>, updatedAt: Option<Time>)

  type Records = map<Name, map<RRType, RecordSet>>

  /** Whitespace trimming, canonical names, IPv4 syntax and characters unsafe in names. */
  datatype Library = Library(trim: string -> string, canonical: string -> Option<Name>, isIPv4: string -> bool, isUnsafe: string -> bool)

  ghost predicate Lawful(lib: Library) {
    && (forall x :: lib.trim(lib.trim(x)) == lib.trim(x))
    && (forall x :: lib.canonical(x).Some? ==>
          var y := lib.canonical(x).value;
          lib.canonical(y) == Some(y) && lib.trim(y) == y && y != "")
  }

  predicate Supported(t: RRType) {
    t == A || t == TXT || t == CNAME
  }

  // ----- Edits of the record map

  function SetsOf(records: Records, name: Name): map<RRType, RecordSet> {
    if name in records then records[name] else map[]
  }

  predicate Has(records: Records, name: Name, t: RRType) {
    name in records && t in records[name]
  }

  function Put(records: Records, name: Name, t: RRType, rs: RecordSet): Records {
    records[name := SetsOf(records, name)[t := rs]]
  }

  /** Removing the last set of a name removes the name. */
  function DeleteSet(records: Records, name: Name, t: RRType): Records {
    if name !in records then records
    else if records[name] - {t} == map[] then records - {name}
    else records[name := records[name] - {t}]
  }

  function EmptySet(): RecordSet {
    RecordSet(0, [], None, None)
  }

  function AddValue(records: Records, name: Name, t: RRType, ttl: nat, value: string, now: Time): Records {
    var had := if t in SetsOf(records, name) then records[name][t] else EmptySet();
    Put(records, name, t,
        RecordSet(if had.ttl == 0 then ttl else had.ttl,
                  if t == CNAME then [value] else if value in had.values then had.values else had.values + [value],
                  if had.createdAt.None? then Some(now) else had.createdAt,
                  Some(now)))
  }

  function Filtered(values: seq<string>, value: string): seq<string> {
    if values == [] then []
    else
      var before := Filtered(values[..|values| - 1], value);
      if values[|values| - 1] == value then before else before + [values[|values| - 1]]
  }

  function DeleteValue(records: Records, name: Name, t: RRType, value: string, now: Time): Records {
    if t !in SetsOf(records, name) then records
    else
      var left := Filtered(records[name][t].values, value);
      if left == [] then DeleteSet(records, name, t)
      else Put(records, name, t, records[name][t].(values := left, updatedAt := Some(now)))
  }

  // ----- Dynamic updates (RFC 2136)

  /** One update record: its class decides between adding and the deletions. */
  datatype Update =
    | Add(name: string, t: RRType, ttl: nat, data: string)
    | DeleteRRset(name: string, t: RRType)
    | DeleteRR(name: string, t: RRType, data: string)
    | OtherClass(name: string)

  datatype Refusal = Format | NotInZone | Unsupported

  /** The map after an update or a message; a refused message stops where it is. */
  datatype Applied = Applied(records: Records, refused: Option<Refusal>)

  predicate EndsWith(s: string, tail: string) {
    |tail| <= |s| && s[|s| - |tail|..] == tail
  }

  predicate NameInZone(name: Name, zone: Name) {
    name == zone || EndsWith(name, "." + zone)
  }

  /** The stored form of a record's data, for the three types that have one. */
  function ValueOf(lib: Library, t: RRType, data: string): Option<string> {
    if t == A then (if lib.isIPv4(data) then Some(data) else None)
    else if t == TXT then Some(data)
    else if t == CNAME then lib.canonical(data)
    else None
  }

  function ApplyUpdate(lib: Library, records: Records, zone: Name, serverTtl: nat, u: Update, now: Time): Applied {
    var owner := lib.canonical(u.name);
    if owner.None? then Applied(records, Some(Format))
    else if !NameInZone(owner.value, zone) then Applied(records, Some(NotInZone))
    else
      var name := owner.value;
      match u
      case DeleteRRset(_, t) => Applied(if t == ANY then records - {name} else DeleteSet(records, name, t), None)
      case DeleteRR(_, t, data) =>
        (match ValueOf(lib, t, data)
         case None => Applied(records, Some(Unsupported))
         case Some(v) => Applied(DeleteValue(records, name, t, v, now), None))
      case Add(_, t, ttl, data) =>
        (match ValueOf(lib, t, data)
         case None => Applied(records, Some(Unsupported))
         case Some(v) => Applied(AddValue(records, name, t, if ttl == 0 then serverTtl else ttl, v, now), None))
      case OtherClass(_) => Applied(records, Some(Format))
  }

  function ApplyAll(lib: Library, records: Records, zone: Name, serverTtl: nat, us: seq<Update>, now: Time): Applied {
    if us == [] then Applied(records, None)
    else
      var before := ApplyAll(lib, records, zone, serverTtl, us[..|us| - 1], now);
      if before.refused.Some? then before
      else ApplyUpdate(lib, before.records, zone, serverTtl, us[|us| - 1], now)
  }

  ghost function Values(records: Records, name: Name, t: RRType): set<string> {
    if Has(records, name, t) then set v | v in records[name][t].values else {}
  }

  lemma {:induction false} FilteredValues(values: seq<string>, value: string)
    ensures forall v :: v in Filtered(values, value) <==> v in values && v != value
  {
    if values != [] {
      FilteredValues(values[..|values| - 1], value);
      assert forall v :: v in values <==> v in values[..|values| - 1] || v == values[|values| - 1];
    }
  }

  lemma DeleteSetMeaning(records: Records, name: Name, d: RRType, n: Name, t: RRType)
    ensures Values(DeleteSet(records, name, d), n, t) == if (n, t) == (name, d) then {} else Values(records, n, t)
  {
    if name in records {
      assert t in records[name] && t != d ==> t in records[name] - {d};
    }
  }

  lemma DeleteValueMeaning(records: Records, name: Name, d: RRType, value: string, now: Time, n: Name, t: RRType)
    ensures Values(DeleteValue(records, name, d, value, now), n, t)
         == Values(records, n, t) - if (n, t) == (name, d) then {value} else {}
  {
    if Has(records, name, d) {
      FilteredValues(records[name][d].values, value);
      DeleteSetMeaning(records, name, d, n, t);
      assert Filtered(records[name][d].values, value) == [] ==> Values(records, name, d) - {value} == {};
    }
  }

  lemma AddValueMeaning(records: Records, name: Name, d: RRType, ttl: nat, value: string, now: Time, n: Name, t: RRType)
    ensures Values(AddValue(records, name, d, ttl, value, now), n, t)
         == if (n, t) != (name, d) then Values(records, n, t) else if d == CNAME then {value} else Values(records, n, t) + {value}
  {
  }

  /** What an update does to the set of values of every name and type, or nothing when it is refused. */
  lemma UpdateMeaning(lib: Library, records: Records, zone: Name, serverTtl: nat, u: Update, now: Time, name: Name, t: RRType)
    ensures var r := ApplyUpdate(lib, records, zone, serverTtl, u, now);
            var had := Values(records, name, t);
            && (r.refused.Some? ==> r.records == records)
            && (r.refused.None? ==>
                  !u.OtherClass? && lib.canonical(u.name).Some? && NameInZone(lib.canonical(u.name).value, zone)
                  && Values(r.records, name, t) ==
                     if lib.canonical(u.name) != Some(name) then had
                     else match u
                          case DeleteRRset(_, d) => if d == ANY || d == t then {} else had
                          case DeleteRR(_, d, data) => if d == t then had - {ValueOf(lib, d, data).value} else had
                          case Add(_, d, _, data) => if d != t then had
                                                     else if t == CNAME then {ValueOf(lib, d, data).value}
                                                     else had + {ValueOf(lib, d, data).value})
  {
    var r := ApplyUpdate(lib, records, zone, serverTtl, u, now);
    if r.refused.None? {
      var owner := lib.canonical(u.name).value;
      match u {
        case DeleteRRset(_, d) => DeleteSetMeaning(records, owner, d, name, t);
        case DeleteRR(_, d, data) => DeleteValueMeaning(records, owner, d, ValueOf(lib, d, data).value, now, name, t);
        case Add(_, d, ttl, data) =>
          AddValueMeaning(records, owner, d, if ttl == 0 then serverTtl else ttl, ValueOf(lib, d, data).value, now, name, t);
        case OtherClass(_) =>
      }
    }
  }

  /** A name is in a zone exactly when it is the zone or has something and a dot before it. */
  lemma NamesInZoneExactly(name: Name, zone: Name)
    ensures NameInZone(name, zone) <==> name == zone || exists host :: name == host + "." + zone
  {
    if EndsWith(name, "." + zone) {
      var host := name[..|name| - |"." + zone|];
      assert name == host + ("." + zone) == host + "." + zone;
    }
    if exists host :: name == host + "." + zone {
      var host :| name == host + "." + zone;
      assert name == host + ("." + zone);
    }
  }

  /** Why an update is refused: a bad name or class, a name outside the zone, or data that is not stored. */
  lemma RefusedExactly(lib: Library, records: Records, zone: Name, serverTtl: nat, u: Update, now: Time)
    ensures var r := ApplyUpdate(lib, records, zone, serverTtl, u, now).refused;
            var owner := lib.canonical(u.name);
            && (r == Some(Format) <==> owner.None? || (NameInZone(owner.value, zone) && u.OtherClass?))
            && (r == Some(NotInZone) <==> owner.Some? && !NameInZone(owner.value, zone))
            && (r == Some(Unsupported) <==>
                && owner.Some? && NameInZone(owner.value, zone) && (u.Add? || u.DeleteRR?)
                && (u.t == A ==> !lib.isIPv4(u.data)) && u.t != TXT && (u.t == CNAME ==> lib.canonical(u.data).None?))
  {
  }

  /** An addition starts a set with the ttl it carries, or the server's, and leaves the ttl and creation time of one there is. */
  lemma AddedSetExactly(lib: Library, records: Records, zone: Name, serverTtl: nat, u: Update, now: Time)
    requires u.Add? && ApplyUpdate(lib, records, zone, serverTtl, u, now).refused.None?
    ensures var after := ApplyUpdate(lib, records, zone, serverTtl, u, now).records;
            && lib.canonical(u.name).Some? && Has(after, lib.canonical(u.name).value, u.t)
            && var rs := after[lib.canonical(u.name).value][u.t];
               && rs.updatedAt == Some(now)
               && if Has(records, lib.canonical(u.name).value, u.t)
                  then var had := records[lib.canonical(u.name).value][u.t];
                       && (had.ttl > 0 ==> rs.ttl == had.ttl) && (had.createdAt.Some? ==> rs.createdAt == had.createdAt)
                  else rs.ttl == (if u.ttl > 0 then u.ttl else serverTtl) && rs.createdAt == Some(now)
  {
  }

  predicate NoRepeats(values: seq<string>) {
    forall i, j :: 0 <= i < j < |values| ==> values[i] != values[j]
  }

  /** No set is empty, holds a value twice or lies under a name without sets. */
  ghost predicate Tidy(records: Records) {
    && (forall name, t :: Has(records, name, t) ==> records[name][t].values != [] && NoRepeats(records[name][t].values))
    && (forall name :: name in records ==> records[name] != map[])
  }

  lemma {:induction false} FilteredHasNoRepeats(values: seq<string>, value: string)
    requires NoRepeats(values)
    ensures NoRepeats(Filtered(values, value))
    decreases |values|
  {
    if values != [] {
      var n := |values| - 1;
      FilteredHasNoRepeats(values[..n], value);
      FilteredValues(values[..n], value);
      assert values[n] !in values[..n];
      assert values[n] !in Filtered(values[..n], value);
    }
  }

  lemma PutKeepsTidy(records: Records, name: Name, t: RRType, rs: RecordSet)
    requires Tidy(records) && rs.values != [] && NoRepeats(rs.values)
    ensures Tidy(Put(records, name, t, rs))
  {
    var after := Put(records, name, t, rs);
    assert t in after[name];
    forall n, u | Has(after, n, u) ensures after[n][u].values != [] && NoRepeats(after[n][u].values) {
      if (n, u) != (name, t) { assert Has(records, n, u); }
    }
  }

  lemma DeleteSetKeepsTidy(records: Records, name: Name, t: RRType)
    requires Tidy(records)
    ensures Tidy(DeleteSet(records, name, t))
  {
    var after := DeleteSet(records, name, t);
    forall n, u | Has(after, n, u) ensures after[n][u].values != [] && NoRepeats(after[n][u].values) {
      assert Has(records, n, u);
    }
  }

  lemma DeleteValueKeepsTidy(records: Records, name: Name, t: RRType, value: string, now: Time)
    requires Tidy(records)
    ensures Tidy(DeleteValue(records, name, t, value, now))
  {
    if Has(records, name, t) {
      var rs := records[name][t];
      FilteredHasNoRepeats(rs.values, value);
      var left := Filtered(rs.values, value);
      if left == [] {
        DeleteSetKeepsTidy(records, name, t);
      } else {
        PutKeepsTidy(records, name, t, rs.(values := left, updatedAt := Some(now)));
      }
    }
  }

  lemma AddValueKeepsTidy(records: Records, name: Name, t: RRType, ttl: nat, value: string, now: Time)
    requires Tidy(records)
    ensures Tidy(AddValue(records, name, t, ttl, value, now))
  {
    if Has(records, name, t) { assert NoRepeats(records[name][t].values); }
    PutKeepsTidy(records, name, t, AddValue(records, name, t, ttl, value, now)[name][t]);
  }

  lemma UpdateKeepsTidy(lib: Library, records: Records, zone: Name, serverTtl: nat, u: Update, now: Time)
    requires Tidy(records)
    ensures Tidy(ApplyUpdate(lib, records, zone, serverTtl, u, now).records)
  {
    var r := ApplyUpdate(lib, records, zone, serverTtl, u, now);
    if r.refused.None? {
      var owner := lib.canonical(u.name).value;
      match u {
        case DeleteRRset(_, d) =>
          if d == ANY {
            forall n, t | Has(r.records, n, t) ensures r.records[n][t].values != [] && NoRepeats(r.records[n][t].values) {
              assert Has(records, n, t);
            }
          } else {
            DeleteSetKeepsTidy(records, owner, d);
          }
        case DeleteRR(_, d, data) => DeleteValueKeepsTidy(records, owner, d, ValueOf(lib, d, data).value, now);
        case Add(_, d, ttl, data) => AddValueKeepsTidy(records, owner, d, if ttl == 0 then serverTtl else ttl, ValueOf(lib, d, data).value, now);
        case OtherClass(_) =>
      }
    }
  }

  /** Whatever messages arrive, no set ever is empty or holds a value twice. */
  lemma {:induction false} MessagesKeepTidy(lib: Library, records: Records, zone: Name, serverTtl: nat, us: seq<Update>, now: Time)
    requires Tidy(records)
    ensures Tidy(ApplyAll(lib, records, zone, serverTtl, us, now).records)
    decreases |us|
  {
    if us != [] {
      MessagesKeepTidy(lib, records, zone, serverTtl, us[..|us| - 1], now);
      UpdateKeepsTidy(lib, ApplyAll(lib, records, zone, serverTtl, us[..|us| - 1], now).records, zone, serverTtl, us[|us| - 1], now);
    }
  }

  /** A set that lost a value keeps its ttl and creation time and is marked as changed. */
  lemma ReducedSetExactly(records: Records, name: Name, t: RRType, value: string, now: Time)
    requires Has(records, name, t)
    ensures var after := DeleteValue(records, name, t, value, now);
            var left := Filtered(records[name][t].values, value);
            && (Has(after, name, t) <==> left != [])
            && (left != [] ==> after[name][t] == RecordSet(records[name][t].ttl, left, records[name][t].createdAt, Some(now)))
  {
  }

  // ----- What RFC 2136 asks for

  /** The zone has something at the name outside the dynamic records: inventory addresses, or its SOA and NS. */
  predicate FixedAt(hosts: map<Name, seq<string>>, zone: Name, name: Name) {
    name == zone || (name in hosts && hosts[name] != [])
  }

  /** A CNAME beside anything else, either way round. */
  ghost predicate Conflicts(records: Records, hosts: map<Name, seq<string>>, zone: Name, name: Name, t: RRType) {
    if t == CNAME
    then FixedAt(hosts, zone, name) || exists u :: u != CNAME && Values(records, name, u) != {}
    else Values(records, name, CNAME) != {}
  }

  /**
   The values section 3.4.2 of RFC 2136 leaves at a name and type: an addition
   that meets a CNAME conflict is ignored, and the SOA and NS of the apex stay.
   */
  ghost function RfcValues(lib: Library, records: Records, hosts: map<Name, seq<string>>, zone: Name, u: Update, name: Name, t: RRType): set<string> {
    var had := Values(records, name, t);
    if lib.canonical(u.name) != Some(name) then had
    else
      match u
      case DeleteRRset(_, d) => if (d == ANY || d == t) && !(name == zone && (t == SOA || t == NS)) then {} else had
      case DeleteRR(_, d, data) => if d == t && ValueOf(lib, d, data).Some? then had - {ValueOf(lib, d, data).value} else had
      case Add(_, d, _, data) =>
        if d != t || ValueOf(lib, d, data).None? || Conflicts(records, hosts, zone, name, d) then had
        else if t == CNAME then {ValueOf(lib, d, data).value}
        else had + {ValueOf(lib, d, data).value}
      case OtherClass(_) => had
  }

  ghost predicate FollowsRfc(lib: Library, records: Records, hosts: map<Name, seq<string>>, zone: Name, u: Update, after: Records) {
    forall name, t :: Values(after, name, t) == RfcValues(lib, records, hosts, zone, u, name, t)
  }

  /**
   What takes the server off that path: an addition in a CNAME conflict that is
   not there already, or a deletion of SOA or NS values stored at the apex.
   */
  ghost predicate Departs(lib: Library, records: Records, hosts: map<Name, seq<string>>, zone: Name, u: Update) {
    lib.canonical(u.name).Some? &&
    var name := lib.canonical(u.name).value;
    match u
    case Add(_, t, _, data) =>
      ValueOf(lib, t, data).Some? && Conflicts(records, hosts, zone, name, t) &&
      var v := ValueOf(lib, t, data).value;
      if t == CNAME then Values(records, name, t) != {v} else v !in Values(records, name, t)
    case DeleteRRset(_, t) =>
      name == zone && (((t == ANY || t == SOA) && Values(records, zone, SOA) != {})
                       || ((t == ANY || t == NS) && Values(records, zone, NS) != {}))
    case _ => false
  }

  lemma DepartureShows(lib: Library, records: Records, hosts: map<Name, seq<string>>, zone: Name, serverTtl: nat, u: Update, now: Time)
    requires ApplyUpdate(lib, records, zone, serverTtl, u, now).refused.None? && Departs(lib, records, hosts, zone, u)
    ensures !FollowsRfc(lib, records, hosts, zone, u, ApplyUpdate(lib, records, zone, serverTtl, u, now).records)
  {
    var after := ApplyUpdate(lib, records, zone, serverTtl, u, now).records;
    var name := lib.canonical(u.name).value;
    var t := if u.Add? then u.t else if Values(records, zone, SOA) != {} && u.t != NS then SOA else NS;
    UpdateMeaning(lib, records, zone, serverTtl, u, now, name, t);
    assert Values(after, name, t) != RfcValues(lib, records, hosts, zone, u, name, t);
  }

  /** An accepted update leaves what the RFC asks for at every name and type exactly when it does not depart. */
  lemma FollowsRfcExactly(lib: Library, records: Records, hosts: map<Name, seq<string>>, zone: Name, serverTtl: nat, u: Update, now: Time)
    requires ApplyUpdate(lib, records, zone, serverTtl, u, now).refused.None?
    ensures FollowsRfc(lib, records, hosts, zone, u, ApplyUpdate(lib, records, zone, serverTtl, u, now).records)
       <==> !Departs(lib, records, hosts, zone, u)
  {
    var after := ApplyUpdate(lib, records, zone, serverTtl, u, now).records;
    if Departs(lib, records, hosts, zone, u) {
      DepartureShows(lib, records, hosts, zone, serverTtl, u, now);
    } else {
      forall name, t ensures Values(after, name, t) == RfcValues(lib, records, hosts, zone, u, name, t) {
        UpdateMeaning(lib, records, zone, serverTtl, u, now, name, t);
      }
    }
  }

  /** Names and values as they are, for the example below. */
  function PlainLibrary(): Library {
    Library(x => x, x => if x == "" then None else Some(x), x => true, x => false)
  }

  /** A CNAME is accepted beside an address, where the RFC asks to ignore it. */
  lemma CnameIsAddedBesideAddress(now: Time)
    ensures var records: Records := map["a.z." := map[A := RecordSet(60, ["1.2.3.4"], Some(0), Some(0))]];
            var u := Add("a.z.", CNAME, 60, "b.z.");
            var r := ApplyUpdate(PlainLibrary(), records, "z.", 60, u, now);
            && r.refused.None? && Has(r.records, "a.z.", A) && Has(r.records, "a.z.", CNAME)
            && !FollowsRfc(PlainLibrary(), records, map[], "z.", u, r.records)
  {
    var records: Records := map["a.z." := map[A := RecordSet(60, ["1.2.3.4"], Some(0), Some(0))]];
    assert "1.2.3.4" in Values(records, "a.z.", A);
    assert "a.z."[1..] == ".z.";
    FollowsRfcExactly(PlainLibrary(), records, map[], "z.", 60, Add("a.z.", CNAME, 60, "b.z."), now);
  }

  // ----- The record API

  datatype Record = Record(name: string, t: RRType, ttl: nat, values: seq<string>)

  datatype Server = Server(ttl: nat, zones: set<Name>, hosts: map<Name, seq<string>>, dynamic: Records)

  /** One value as it is stored, or None when it is blank. */
  function Cleaned(lib: Library, t: RRType, raw: string): Option<string> {
    var v := lib.trim(raw);
    if v == "" then None
    else if t == CNAME && lib.canonical(v).Some? then lib.canonical(v)
    else Some(v)
  }

  function CleanedAll(lib: Library, t: RRType, raw: seq<string>): (r: seq<string>)
    ensures forall v :: v in r <==> exists i :: 0 <= i < |raw| && Cleaned(lib, t, raw[i]) == Some(v)
  {
    if raw == [] then []
    else
      var c := Cleaned(lib, t, raw[|raw| - 1]);
      var before := CleanedAll(lib, t, raw[..|raw| - 1]);
      if c.None? then before else before + [c.value]
  }

  function Normalized(lib: Library, t: RRType, raw: seq<string>): seq<string> {
    SortedSet(CleanedAll(lib, t, raw))
  }

  predicate ValidValue(lib: Library, t: RRType, value: string) {
    if t == A then lib.isIPv4(value)
    else if t == TXT then lib.trim(value) != ""
    else t == CNAME && !lib.isUnsafe(value) && lib.canonical(value).Some?
  }

  /** The normalized record, or None when its shape is refused. */
  function Shaped(lib: Library, serverTtl: nat, r: Record): Option<(Name, RRType, nat, seq<string>)> {
    var ttl := if r.ttl == 0 then serverTtl else r.ttl;
    var values := Normalized(lib, r.t, r.values);
    if || lib.isUnsafe(r.name) || lib.canonical(r.name).None? || !Supported(r.t) || ttl == 0 || values == []
       || (r.t == CNAME && |values| != 1) || (exists i :: 0 <= i < |values| && !ValidValue(lib, r.t, values[i]))
    then None
    else Some((lib.canonical(r.name).value, r.t, ttl, values))
  }

  /** In some zone, and never a CNAME beside anything else. */
  predicate Placeable(s: Server, name: Name, t: RRType) {
    && (exists z :: z in s.zones && NameInZone(name, z))
    && if t == CNAME
       then !(name in s.hosts && s.hosts[name] != []) && (forall u :: u in SetsOf(s.dynamic, name) ==> u == CNAME)
       else CNAME !in SetsOf(s.dynamic, name)
  }

  function Upserted(lib: Library, s: Server, r: Record, now: Time): Server {
    var shape := Shaped(lib, s.ttl, r);
    if shape.None? || !Placeable(s, shape.value.0, shape.value.1) then s
    else
      var (name, t, ttl, values) := shape.value;
      var created := if t in SetsOf(s.dynamic, name) && s.dynamic[name][t].createdAt.Some? then s.dynamic[name][t].createdAt else Some(now);
      s.(dynamic := Put(s.dynamic, name, t, RecordSet(ttl, values, created, Some(now))))
  }

  function Deleted(lib: Library, s: Server, rawName: string, t: RRType): Server {
    if lib.canonical(rawName).None? || !Supported(t) then s
    else s.(dynamic := DeleteSet(s.dynamic, lib.canonical(rawName).value, t))
  }

  // ----- What is written to disk

  datatype Entry = Entry(name: string, t: RRType, ttl: nat, values: seq<string>, createdAt: Option<Time>, updatedAt: Option<Time>)

  /** Stored values carry no repeats, so sorting them is sorting their set. */
  function EntryOf(name: Name, t: RRType, rs: RecordSet): Entry {
    Entry(name, t, rs.ttl, SortedSet(rs.values), rs.createdAt, rs.updatedAt)
  }

  function LoadEntry(lib: Library, serverTtl: nat, records: Records, e: Entry, loadedAt: Time): Records {
    var name := lib.canonical(e.name);
    var values := Normalized(lib, e.t, e.values);
    if name.None? || !Supported(e.t) || values == [] then records
    else Put(records, name.value, e.t,
             RecordSet(if e.ttl == 0 then serverTtl else e.ttl, values,
                       if e.createdAt.None? then Some(loadedAt) else e.createdAt,
                       if e.updatedAt.None? then Some(loadedAt) else e.updatedAt))
  }

  function Loaded(lib: Library, serverTtl: nat, entries: seq<Entry>, loadedAt: Time): Records {
    if entries == [] then map[]
    else LoadEntry(lib, serverTtl, Loaded(lib, serverTtl, entries[..|entries| - 1], loadedAt), entries[|entries| - 1], loadedAt)
  }

  // ----- Over every run of API calls

  /** A set the API stores: normalized values, a ttl and both timestamps. */
  predicate Stored(lib: Library, t: RRType, rs: RecordSet) {
    && Supported(t) && rs.ttl > 0 && rs.createdAt.Some? && rs.updatedAt.Some? && rs.values != []
    && StrictlySorted(rs.values) && (t == CNAME ==> |rs.values| == 1)
    && forall i :: 0 <= i < |rs.values| ==> Cleaned(lib, t, rs.values[i]) == Some(rs.values[i])
  }

  predicate NameStored(lib: Library, name: Name, sets: map<RRType, RecordSet>) {
    && lib.canonical(name) == Some(name) && sets != map[]
    && (forall t :: t in sets ==> Stored(lib, t, sets[t]))
    && (CNAME in sets ==> sets.Keys == {CNAME})
  }

  predicate AllStored(lib: Library, records: Records) {
    forall name :: name in records ==> NameStored(lib, name, records[name])
  }

  datatype Call =
    | Upsert(record: Record, now: Time)
    | Delete(name: string, t: RRType)
    | Resync(zones: set<Name>, hosts: map<Name, seq<string>>)

  function Next(lib: Library, s: Server, c: Call): Server {
    match c
    case Upsert(r, now) => Upserted(lib, s, r, now)
    case Delete(name, t) => Deleted(lib, s, name, t)
    case Resync(zones, hosts) => s.(zones := zones, hosts := hosts)
  }

  function Run(lib: Library, s: Server, calls: seq<Call>): Server
    decreases |calls|
  {
    if calls == [] then s else Run(lib, Next(lib, s, calls[0]), calls[1..])
  }

  lemma CleaningIsStable(lib: Library, t: RRType, raw: string)
    requires Lawful(lib) && Cleaned(lib, t, raw).Some?
    ensures Cleaned(lib, t, Cleaned(lib, t, raw).value) == Cleaned(lib, t, raw)
  {
  }

  lemma NormalizedIsStored(lib: Library, t: RRType, raw: seq<string>, i: nat)
    requires Lawful(lib) && i < |Normalized(lib, t, raw)|
    ensures Cleaned(lib, t, Normalized(lib, t, raw)[i]) == Some(Normalized(lib, t, raw)[i])
  {
    var v := Normalized(lib, t, raw)[i];
    assert v in CleanedAll(lib, t, raw);
    var k :| 0 <= k < |raw| && Cleaned(lib, t, raw[k]) == Some(v);
    CleaningIsStable(lib, t, raw[k]);
  }

  /** The values stored for raw ones: trimmed, not blank, and for an alias canonical where it can be; sorted without repeats. */
  lemma NormalizedExactly(lib: Library, t: RRType, raw: seq<string>, v: string)
    ensures StrictlySorted(Normalized(lib, t, raw))
    ensures v in Normalized(lib, t, raw) <==>
            exists i :: 0 <= i < |raw| && lib.trim(raw[i]) != "" &&
              v == if t == CNAME && lib.canonical(lib.trim(raw[i])).Some? then lib.canonical(lib.trim(raw[i])).value else lib.trim(raw[i])
  {
    assert v in Normalized(lib, t, raw) <==> v in CleanedAll(lib, t, raw);
    if v in CleanedAll(lib, t, raw) {
      var i :| 0 <= i < |raw| && Cleaned(lib, t, raw[i]) == Some(v);
    }
    if i :| 0 <= i < |raw| && lib.trim(raw[i]) != "" &&
            v == if t == CNAME && lib.canonical(lib.trim(raw[i])).Some? then lib.canonical(lib.trim(raw[i])).value else lib.trim(raw[i]) {
      assert Cleaned(lib, t, raw[i]) == Some(v);
    }
  }

  /** A value the API takes: an IPv4 address, a text that is not blank, or the name of another host. */
  predicate Sound(lib: Library, t: RRType, v: string) {
    || (t == A && lib.isIPv4(v))
    || (t == TXT && lib.trim(v) != "")
    || (t == CNAME && !lib.isUnsafe(v) && lib.canonical(v).Some?)
  }

  /** The record is fit to be stored under this name. */
  predicate Fit(lib: Library, s: Server, r: Record, name: Name) {
    var values := Normalized(lib, r.t, r.values);
    && !lib.isUnsafe(r.name) && lib.canonical(r.name) == Some(name) && (r.ttl > 0 || s.ttl > 0)
    && values != [] && (r.t == CNAME ==> |values| == 1) && forall i :: 0 <= i < |values| ==> Sound(lib, r.t, values[i])
  }

  /** The name lies in a zone, and no CNAME would stand beside anything else. */
  ghost predicate HasRoom(s: Server, name: Name, t: RRType) {
    && (exists z :: z in s.zones && NameInZone(name, z))
    && (t == CNAME ==> (name in s.hosts ==> s.hosts[name] == []) && forall u :: Has(s.dynamic, name, u) ==> u == CNAME)
    && (t != CNAME ==> !Has(s.dynamic, name, CNAME))
  }

  /** An upsert replaces exactly the one set, keeping when it was created, if the record is fit and there is room; else nothing changes. */
  lemma UpsertExactly(lib: Library, s: Server, r: Record, now: Time, name: Name)
    requires lib.canonical(r.name) == Some(name)
    ensures var after := Upserted(lib, s, r, now);
            if !Fit(lib, s, r, name) || !HasRoom(s, name, r.t) then after == s
            else
              && after == s.(dynamic := after.dynamic) && Has(after.dynamic, name, r.t)
              && (forall n, t :: (n, t) != (name, r.t) ==>
                    (Has(after.dynamic, n, t) <==> Has(s.dynamic, n, t)) && (Has(s.dynamic, n, t) ==> after.dynamic[n][t] == s.dynamic[n][t]))
              && after.dynamic[name][r.t] ==
                 RecordSet(if r.ttl > 0 then r.ttl else s.ttl, Normalized(lib, r.t, r.values),
                           if Has(s.dynamic, name, r.t) && s.dynamic[name][r.t].createdAt.Some? then s.dynamic[name][r.t].createdAt else Some(now),
                           Some(now))
  {
    ShapeIsFit(lib, s, r, name);
    RoomIsPlace(s, name, r.t);
  }

  lemma ShapeIsFit(lib: Library, s: Server, r: Record, name: Name)
    requires lib.canonical(r.name) == Some(name)
    ensures Shaped(lib, s.ttl, r) ==
            if Fit(lib, s, r, name) then Some((name, r.t, if r.ttl > 0 then r.ttl else s.ttl, Normalized(lib, r.t, r.values))) else None
  {
    var values := Normalized(lib, r.t, r.values);
    assert forall i :: 0 <= i < |values| ==> (Sound(lib, r.t, values[i]) <==> ValidValue(lib, r.t, values[i]));
    if !Supported(r.t) && values != [] {
      assert !Sound(lib, r.t, values[0]);
    }
  }

  lemma RoomIsPlace(s: Server, name: Name, t: RRType)
    ensures HasRoom(s, name, t) <==> Placeable(s, name, t)
  {
    forall u: RRType ensures u in SetsOf(s.dynamic, name) <==> Has(s.dynamic, name, u) {
    }
  }

  /** A delete removes exactly the one set, under the canonical form of the name given. */
  lemma DeleteExactly(lib: Library, s: Server, rawName: string, t: RRType, n: Name, u: RRType)
    ensures var after := Deleted(lib, s, rawName, t);
            && after == s.(dynamic := after.dynamic)
            && (Has(after.dynamic, n, u) <==> Has(s.dynamic, n, u) && !(Supported(t) && lib.canonical(rawName) == Some(n) && u == t))
            && (Has(after.dynamic, n, u) ==> after.dynamic[n][u] == s.dynamic[n][u])
  {
    if n in s.dynamic {
      assert u in s.dynamic[n] && u != t ==> u in s.dynamic[n] - {t};
    }
  }

  lemma ShapedIsStored(lib: Library, serverTtl: nat, r: Record, created: Time, now: Time)
    requires Lawful(lib) && Shaped(lib, serverTtl, r).Some?
    ensures var (name, t, ttl, values) := Shaped(lib, serverTtl, r).value;
            lib.canonical(name) == Some(name) && Stored(lib, t, RecordSet(ttl, values, Some(created), Some(now)))
  {
    var (name, t, ttl, values) := Shaped(lib, serverTtl, r).value;
    forall i | 0 <= i < |values| ensures Cleaned(lib, t, values[i]) == Some(values[i]) {
      NormalizedIsStored(lib, t, r.values, i);
    }
  }

  lemma MoreStored(lib: Library, name: Name, sets: map<RRType, RecordSet>, t: RRType, rs: RecordSet)
    requires lib.canonical(name) == Some(name) && Stored(lib, t, rs) && (sets == map[] || NameStored(lib, name, sets))
    requires if t == CNAME then forall u :: u in sets ==> u == CNAME else CNAME !in sets
    ensures NameStored(lib, name, sets[t := rs])
  {
    assert t in sets[t := rs];
  }

  lemma UpsertKeeps(lib: Library, s: Server, r: Record, now: Time)
    requires Lawful(lib) && AllStored(lib, s.dynamic)
    ensures AllStored(lib, Upserted(lib, s, r, now).dynamic)
  {
    var shape := Shaped(lib, s.ttl, r);
    if shape.Some? && Placeable(s, shape.value.0, shape.value.1) {
      var (name, t, _, _) := shape.value;
      var rs := Upserted(lib, s, r, now).dynamic[name][t];
      ShapedIsStored(lib, s.ttl, r, rs.createdAt.value, now);
      MoreStored(lib, name, SetsOf(s.dynamic, name), t, rs);
    }
  }

  lemma FewerStored(lib: Library, name: Name, sets: map<RRType, RecordSet>, t: RRType)
    requires NameStored(lib, name, sets) && sets - {t} != map[]
    ensures NameStored(lib, name, sets - {t})
  {
    assert (sets - {t}).Keys <= sets.Keys;
  }

  lemma DeleteKeeps(lib: Library, s: Server, name: string, t: RRType)
    requires AllStored(lib, s.dynamic)
    ensures AllStored(lib, Deleted(lib, s, name, t).dynamic)
  {
    var owner := lib.canonical(name);
    if owner.Some? && owner.value in s.dynamic && s.dynamic[owner.value] - {t} != map[] {
      FewerStored(lib, owner.value, s.dynamic[owner.value], t);
    }
  }

  lemma {:induction false} RunKeepsStored(lib: Library, s: Server, calls: seq<Call>)
    requires Lawful(lib) && AllStored(lib, s.dynamic)
    ensures AllStored(lib, Run(lib, s, calls).dynamic)
    decreases |calls|
  {
    if calls != [] {
      match calls[0] {
        case Upsert(r, now) => UpsertKeeps(lib, s, r, now);
        case Delete(name, t) => DeleteKeeps(lib, s, name, t);
        case Resync(_, _) =>
      }
      RunKeepsStored(lib, Next(lib, s, calls[0]), calls[1..]);
    }
  }

  /** A dynamic name with a CNAME has that one value and no other dynamic type. */
  lemma CnameStandsAlone(lib: Library, s: Server, calls: seq<Call>, name: Name)
    requires Lawful(lib) && s.dynamic == map[] && CNAME in SetsOf(Run(lib, s, calls).dynamic, name)
    ensures var sets := Run(lib, s, calls).dynamic[name];
            sets.Keys == {CNAME} && |sets[CNAME].values| == 1
  {
    RunKeepsStored(lib, s, calls);
    assert NameStored(lib, name, Run(lib, s, calls).dynamic[name]);
  }

  // ----- Loading what was persisted

  predicate EntryIn(e: Entry, records: Records) {
    Has(records, e.name, e.t) && e == EntryOf(e.name, e.t, records[e.name][e.t])
  }

  /** The list holds an entry for every record set and nothing else. */
  ghost predicate Lists(entries: seq<Entry>, records: Records) {
    && (forall e :: e in entries ==> EntryIn(e, records))
    && (forall name, t :: Has(records, name, t) ==> EntryOf(name, t, records[name][t]) in entries)
  }

  /** What loading makes of a persisted set, or None when its entry is skipped. */
  function Reloaded(lib: Library, serverTtl: nat, t: RRType, rs: RecordSet, loadedAt: Time): Option<RecordSet> {
    var values := Normalized(lib, t, SortedSet(rs.values));
    if !Supported(t) || values == [] then None
    else Some(RecordSet(if rs.ttl == 0 then serverTtl else rs.ttl, values,
                        if rs.createdAt.None? then Some(loadedAt) else rs.createdAt,
                        if rs.updatedAt.None? then Some(loadedAt) else rs.updatedAt))
  }

  /** A set that comes back: sorted values that need no cleaning, a ttl and both timestamps. */
  predicate LoadsBack(lib: Library, serverTtl: nat, t: RRType, rs: RecordSet) {
    && Supported(t) && rs.values != [] && StrictlySorted(rs.values)
    && (forall i :: 0 <= i < |rs.values| ==> Cleaned(lib, t, rs.values[i]) == Some(rs.values[i]))
    && (rs.ttl > 0 || serverTtl == 0) && rs.createdAt.Some? && rs.updatedAt.Some?
  }

  lemma CleanValuesComeBack(lib: Library, t: RRType, values: seq<string>)
    requires StrictlySorted(values) && forall i :: 0 <= i < |values| ==> Cleaned(lib, t, values[i]) == Some(values[i])
    ensures Normalized(lib, t, SortedSet(values)) == values
  {
    SortedIsUnique(SortedSet(values), values);
    forall v ensures v in CleanedAll(lib, t, values) <==> v in values {
      if v in values {
        var i :| 0 <= i < |values| && values[i] == v;
        assert Cleaned(lib, t, values[i]) == Some(v);
      }
    }
    SortedIsUnique(Normalized(lib, t, values), values);
  }

  lemma ReloadedExactly(lib: Library, serverTtl: nat, t: RRType, rs: RecordSet, loadedAt: Time)
    requires Lawful(lib)
    ensures Reloaded(lib, serverTtl, t, rs, loadedAt) == Some(rs) <==> LoadsBack(lib, serverTtl, t, rs)
  {
    if LoadsBack(lib, serverTtl, t, rs) {
      CleanValuesComeBack(lib, t, rs.values);
    }
    if Reloaded(lib, serverTtl, t, rs, loadedAt) == Some(rs) {
      forall i | 0 <= i < |rs.values| ensures Cleaned(lib, t, rs.values[i]) == Some(rs.values[i]) {
        NormalizedIsStored(lib, t, SortedSet(rs.values), i);
      }
    }
  }

  /** A map that holds the reloaded sets of `records` wherever it has something. */
  ghost predicate Within(lib: Library, serverTtl: nat, part: Records, records: Records, loadedAt: Time) {
    && (forall name, t :: Has(part, name, t) ==>
          Has(records, name, t) && Reloaded(lib, serverTtl, t, records[name][t], loadedAt) == Some(part[name][t]))
    && (forall name :: name in part ==> part[name] != map[])
  }

  lemma PutWithin(lib: Library, serverTtl: nat, part: Records, records: Records, loadedAt: Time, name: Name, t: RRType, rs: RecordSet)
    requires Within(lib, serverTtl, part, records, loadedAt) && Has(records, name, t)
    requires Reloaded(lib, serverTtl, t, records[name][t], loadedAt) == Some(rs)
    ensures Within(lib, serverTtl, Put(part, name, t, rs), records, loadedAt)
    ensures Has(Put(part, name, t, rs), name, t)
    ensures forall n, u :: Has(part, n, u) ==> Has(Put(part, name, t, rs), n, u)
  {
    var next := Put(part, name, t, rs);
    assert next[name][t] == rs;
    forall n, u | Has(next, n, u)
      ensures Has(records, n, u) && Reloaded(lib, serverTtl, u, records[n][u], loadedAt) == Some(next[n][u])
    {
      if (n, u) != (name, t) {
        assert Has(part, n, u);
      }
    }
  }

  predicate AllCanonical(lib: Library, records: Records) {
    forall name :: name in records ==> lib.canonical(name) == Some(name)
  }

  /** Loading the entry of a set puts in what the set is reloaded as, if anything. */
  lemma EntryReloads(lib: Library, serverTtl: nat, records: Records, name: Name, t: RRType, rs: RecordSet, loadedAt: Time)
    requires lib.canonical(name) == Some(name)
    ensures LoadEntry(lib, serverTtl, records, EntryOf(name, t, rs), loadedAt) ==
            match Reloaded(lib, serverTtl, t, rs, loadedAt)
            case None => records
            case Some(r) => Put(records, name, t, r)
  {
  }

  /** The entry's set, if it is reloaded at all, is in the map. */
  predicate Brought(lib: Library, serverTtl: nat, part: Records, e: Entry, records: Records, loadedAt: Time) {
    EntryIn(e, records) && (Reloaded(lib, serverTtl, e.t, records[e.name][e.t], loadedAt).Some? ==> Has(part, e.name, e.t))
  }

  lemma OneMoreEntry(lib: Library, serverTtl: nat, part: Records, e: Entry, records: Records, loadedAt: Time)
    requires AllCanonical(lib, records) && Within(lib, serverTtl, part, records, loadedAt) && EntryIn(e, records)
    ensures var next := LoadEntry(lib, serverTtl, part, e, loadedAt);
            && Within(lib, serverTtl, next, records, loadedAt) && Brought(lib, serverTtl, next, e, records, loadedAt)
            && forall n, u :: Has(part, n, u) ==> Has(next, n, u)
  {
    var rs := records[e.name][e.t];
    EntryReloads(lib, serverTtl, part, e.name, e.t, rs, loadedAt);
    var reloaded := Reloaded(lib, serverTtl, e.t, rs, loadedAt);
    if reloaded.Some? {
      PutWithin(lib, serverTtl, part, records, loadedAt, e.name, e.t, reloaded.value);
    }
  }

  /** Under canonical names, loading yields exactly the reloaded sets. */
  lemma {:induction false} LoadedEntries(lib: Library, serverTtl: nat, entries: seq<Entry>, records: Records, loadedAt: Time)
    requires AllCanonical(lib, records)
    requires forall e :: e in entries ==> EntryIn(e, records)
    ensures Within(lib, serverTtl, Loaded(lib, serverTtl, entries, loadedAt), records, loadedAt)
    ensures forall e :: e in entries ==> Brought(lib, serverTtl, Loaded(lib, serverTtl, entries, loadedAt), e, records, loadedAt)
    decreases |entries|
  {
    if entries != [] {
      var rest, e := entries[..|entries| - 1], entries[|entries| - 1];
      LoadedEntries(lib, serverTtl, rest, records, loadedAt);
      var part := Loaded(lib, serverTtl, rest, loadedAt);
      OneMoreEntry(lib, serverTtl, part, e, records, loadedAt);
      forall d | d in entries ensures Brought(lib, serverTtl, Loaded(lib, serverTtl, entries, loadedAt), d, records, loadedAt) {
        assert d == e || d in rest;
        if d in rest { assert Brought(lib, serverTtl, part, d, records, loadedAt); }
      }
    }
  }

  /** Every name is canonical and has sets, and each of them comes back. */
  predicate Loadable(lib: Library, serverTtl: nat, records: Records) {
    forall name :: name in records ==>
      && lib.canonical(name) == Some(name) && records[name] != map[]
      && forall t :: t in records[name] ==> LoadsBack(lib, serverTtl, t, records[name][t])
  }

  lemma {:induction false} LoadedNames(lib: Library, serverTtl: nat, entries: seq<Entry>, loadedAt: Time, name: Name)
    requires Lawful(lib) && name in Loaded(lib, serverTtl, entries, loadedAt)
    ensures lib.canonical(name) == Some(name) && Loaded(lib, serverTtl, entries, loadedAt)[name] != map[]
    decreases |entries|
  {
    if entries != [] {
      var rest := entries[..|entries| - 1];
      if name in Loaded(lib, serverTtl, rest, loadedAt) {
        LoadedNames(lib, serverTtl, rest, loadedAt, name);
      }
      var now := Loaded(lib, serverTtl, entries, loadedAt);
      if now != Loaded(lib, serverTtl, rest, loadedAt) && lib.canonical(entries[|entries| - 1].name) == Some(name) {
        assert entries[|entries| - 1].t in now[name];
      }
    }
  }

  lemma SameSets(part: Records, records: Records, name: Name)
    requires name in part && name in records
    requires forall t :: Has(records, name, t) <==> Has(part, name, t)
    requires forall t :: Has(part, name, t) ==> Has(records, name, t) && part[name][t] == records[name][t]
    ensures part[name] == records[name]
  {
    assert forall t :: t in part[name] <==> Has(part, name, t);
    assert forall t :: t in records[name] <==> Has(records, name, t);
  }

  lemma SameMap(part: Records, records: Records)
    requires forall name, t :: Has(records, name, t) <==> Has(part, name, t)
    requires forall name, t :: Has(part, name, t) ==> Has(records, name, t) && part[name][t] == records[name][t]
    requires forall name :: name in records ==> records[name] != map[]
    requires forall name :: name in part ==> part[name] != map[]
    ensures part == records
  {
    forall name | name in part ensures name in records {
      var t :| t in part[name];
      assert Has(part, name, t);
    }
    forall name | name in records ensures name in part && part[name] == records[name] {
      var t :| t in records[name];
      assert Has(records, name, t);
      SameSets(part, records, name);
    }
  }

  lemma LoadedSet(lib: Library, serverTtl: nat, loaded: Records, records: Records, loadedAt: Time, name: Name, t: RRType)
    requires Lawful(lib) && Has(records, name, t) && LoadsBack(lib, serverTtl, t, records[name][t])
    requires Has(loaded, name, t) ==> Reloaded(lib, serverTtl, t, records[name][t], loadedAt) == Some(loaded[name][t])
    requires Brought(lib, serverTtl, loaded, EntryOf(name, t, records[name][t]), records, loadedAt)
    ensures Has(loaded, name, t) && loaded[name][t] == records[name][t]
  {
    ReloadedExactly(lib, serverTtl, t, records[name][t], loadedAt);
  }

  lemma LoadableLoadsBack(lib: Library, serverTtl: nat, records: Records, entries: seq<Entry>, loadedAt: Time)
    requires Lawful(lib) && Lists(entries, records) && Loadable(lib, serverTtl, records)
    ensures Loaded(lib, serverTtl, entries, loadedAt) == records
  {
    var loaded := Loaded(lib, serverTtl, entries, loadedAt);
    LoadedEntries(lib, serverTtl, entries, records, loadedAt);
    forall name, t | Has(records, name, t) ensures Has(loaded, name, t) && loaded[name][t] == records[name][t] {
      assert EntryOf(name, t, records[name][t]) in entries;
      LoadedSet(lib, serverTtl, loaded, records, loadedAt, name, t);
    }
    SameMap(loaded, records);
  }

  lemma LoadedBackIsLoadable(lib: Library, serverTtl: nat, records: Records, entries: seq<Entry>, loadedAt: Time)
    requires Lawful(lib) && Lists(entries, records) && Loaded(lib, serverTtl, entries, loadedAt) == records
    ensures Loadable(lib, serverTtl, records)
  {
    forall name | name in records ensures lib.canonical(name) == Some(name) && records[name] != map[] {
      LoadedNames(lib, serverTtl, entries, loadedAt, name);
    }
    LoadedEntries(lib, serverTtl, entries, records, loadedAt);
    forall name, t | Has(records, name, t) ensures LoadsBack(lib, serverTtl, t, records[name][t]) {
      ReloadedExactly(lib, serverTtl, t, records[name][t], loadedAt);
    }
    forall name, t | name in records && t in records[name] ensures LoadsBack(lib, serverTtl, t, records[name][t]) {
      assert Has(records, name, t);
    }
  }

  /** Any map, however it was built, comes back from disk exactly when it is loadable. */
  lemma LoadsBackExactly(lib: Library, serverTtl: nat, records: Records, entries: seq<Entry>, loadedAt: Time)
    requires Lawful(lib) && Lists(entries, records)
    ensures Loaded(lib, serverTtl, entries, loadedAt) == records <==> Loadable(lib, serverTtl, records)
  {
    if Loadable(lib, serverTtl, records) {
      LoadableLoadsBack(lib, serverTtl, records, entries, loadedAt);
    }
    if Loaded(lib, serverTtl, entries, loadedAt) == records {
      LoadedBackIsLoadable(lib, serverTtl, records, entries, loadedAt);
    }
  }

  /** Whatever the API built up, loading the persisted list gives back the same map. */
  lemma PersistedMapLoadsBack(lib: Library, s: Server, calls: seq<Call>, entries: seq<Entry>, loadedAt: Time)
    requires Lawful(lib) && s.dynamic == map[] && Lists(entries, Run(lib, s, calls).dynamic)
    ensures Loaded(lib, s.ttl, entries, loadedAt) == Run(lib, s, calls).dynamic
  {
    var records := Run(lib, s, calls).dynamic;
    RunKeepsStored(lib, s, calls);
    forall name | name in records ensures NameStored(lib, name, records[name]) {
    }
    LoadsBackExactly(lib, s.ttl, records, entries, loadedAt);
  }

  /** A dynamic update can store a blank text value, which is not there after loading. */
  lemma BlankTextIsLost(now: Time, entries: seq<Entry>, loadedAt: Time)
    requires Lists(entries, ApplyUpdate(PlainLibrary(), map[], "z.", 60, Add("a.z.", TXT, 60, ""), now).records)
    ensures Lawful(PlainLibrary())
    ensures var r := ApplyUpdate(PlainLibrary(), map[], "z.", 60, Add("a.z.", TXT, 60, ""), now);
            r.refused.None? && Has(r.records, "a.z.", TXT) && Loaded(PlainLibrary(), 60, entries, loadedAt) != r.records
  {
    var r := ApplyUpdate(PlainLibrary(), map[], "z.", 60, Add("a.z.", TXT, 60, ""), now);
    assert "a.z."[1..] == ".z.";
    var rs := r.records["a.z."][TXT];
    assert rs.values == [""] && Cleaned(PlainLibrary(), TXT, rs.values[0]).None?;
    assert !LoadsBack(PlainLibrary(), 60, TXT, rs);
    LoadsBackExactly(PlainLibrary(), 60, r.records, entries, loadedAt);
  }
}
