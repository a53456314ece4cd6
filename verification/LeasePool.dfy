/**
 The DHCP lease pool: first-fit allocation over an IPv4 range, with renewal,
 expiry and static reservations. Addresses are their unsigned 32-bit values. One
 clock reading is taken per call.
 */
module LeasePool {
  import opened Options

  type Time = int
  type Mac = string

  const ADDRESSES: int := 0x1_0000_0000
  const MAX_IP: int := 0xFFFF_FFFF

  type Ip = n: int | 0 <= n < 0x1_0000_0000

  /** `leasedAt` is None for the zero timestamp, which never expires. */
  datatype Lease = Lease(ip: Ip, leasedAt: Option<Time>)

  datatype Pool = Pool(first: Ip, last: Ip, leases: map<Mac, Lease>, reservations: map<Mac, Ip>, ttl: int)

  predicate Expired(ttl: int, leasedAt: Option<Time>, now: Time) {
    ttl > 0 && leasedAt.Some? && now - leasedAt.value > ttl
  }

  predicate InRange(p: Pool, ip: Ip) {
    p.first <= ip <= p.last
  }

  /** The leases still honored at `now`. */
  function Live(leases: map<Mac, Lease>, ttl: int, now: Time): map<Mac, Lease> {
    map m | m in leases && !Expired(ttl, leases[m].leasedAt, now) :: leases[m]
  }

  function Used(leases: map<Mac, Lease>, reservations: map<Mac, Ip>): set<Ip> {
    (set m | m in leases :: leases[m].ip) + (set m | m in reservations :: reservations[m])
  }

  function LowestFree(from: nat, last: Ip, used: set<Ip>): (r: Option<Ip>)
    ensures r.Some? ==> from <= r.value <= last && r.value !in used && forall n: Ip :: from <= n < r.value ==> n in used
    ensures r.None? ==> forall n: Ip :: from <= n <= last ==> n in used
    decreases last - from
  {
    if from > last then None
    else if from !in used then Some(from)
    else LowestFree(from + 1, last, used)
  }

  /**
   What the unsigned scan finds: the lowest unused address of the range. Past
   255.255.255.255 it wraps around and goes on from 0.0.0.0.
   */
  function Scanned(first: Ip, last: Ip, used: set<Ip>): Option<Ip> {
    var free := LowestFree(first, last, used);
    if free.None? && last == MAX_IP then LowestFree(0, last, used) else free
  }

  predicate Renewable(p: Pool, mac: Mac, now: Time) {
    mac in p.leases && InRange(p, p.leases[mac].ip) && !Expired(p.ttl, p.leases[mac].leasedAt, now)
  }

  function Granted(p: Pool, mac: Mac, ip: Ip, now: Time): (Pool, Option<Ip>) {
    (p.(leases := p.leases[mac := Lease(ip, Some(now))]), Some(ip))
  }

  /** What one Allocate call does: the pool afterwards and the address given out. */
  function Allocated(p: Pool, mac: Mac, now: Time): (Pool, Option<Ip>) {
    if mac in p.reservations then Granted(p, mac, p.reservations[mac], now)
    else if Renewable(p, mac, now) then Granted(p, mac, p.leases[mac].ip, now)
    else
      var kept := p.(leases := Live(p.leases - {mac}, p.ttl, now));
      match Scanned(p.first, p.last, Used(kept.leases, p.reservations))
      case None => (kept, None)
      case Some(ip) => Granted(kept, mac, ip, now)
  }

  /** The call comes to an end. */
  predicate Answers(p: Pool, mac: Mac, now: Time) {
    || mac in p.reservations || Renewable(p, mac, now)
    || CanStop(p.last, Used(Live(p.leases - {mac}, p.ttl, now), p.reservations))
  }

  // ----- The unsigned 32-bit scan

  /** The address the k-th iteration of the scan looks at. */
  function Visited(first: Ip, k: nat): Ip {
    (first + k) % ADDRESSES
  }

  /** The scan reaches iteration k: it neither returned nor fell out of the loop before. */
  predicate Reaches(first: Ip, last: Ip, used: set<Ip>, k: nat) {
    forall j: nat :: j < k ==> Visited(first, j) <= last && Visited(first, j) in used
  }

  predicate StopsAt(first: Ip, last: Ip, used: set<Ip>, k: nat) {
    Reaches(first, last, used, k) && !(Visited(first, k) <= last && Visited(first, k) in used)
  }

  predicate CanStop(last: Ip, used: set<Ip>) {
    last < MAX_IP || exists ip: Ip :: ip !in used
  }

  /** The answer of a scan that stops at iteration k. */
  function AnswerAt(first: Ip, last: Ip, k: nat): Option<Ip> {
    if Visited(first, k) <= last then Some(Visited(first, k)) else None
  }

  lemma StopsInRange(first: Ip, last: Ip, used: set<Ip>) returns (k: nat)
    requires LowestFree(first, last, used).Some? || last < MAX_IP
    ensures StopsAt(first, last, used, k) && AnswerAt(first, last, k) == Scanned(first, last, used)
  {
    var free := LowestFree(first, last, used);
    k := if free.Some? then free.value - first else if first > last then 0 else last + 1 - first;
  }

  lemma StopsAfterWrapping(first: Ip, used: set<Ip>) returns (k: nat)
    requires LowestFree(first, MAX_IP, used).None? && exists ip: Ip :: ip !in used
    ensures StopsAt(first, MAX_IP, used, k) && AnswerAt(first, MAX_IP, k) == Scanned(first, MAX_IP, used)
  {
    var out := LowestFree(0, MAX_IP, used).value;
    k := ADDRESSES - first + out;
    forall j: nat | j < k ensures Visited(first, j) in used {
      assert first + j < 2 * ADDRESSES;
    }
  }

  lemma FindStop(first: Ip, last: Ip, used: set<Ip>) returns (k: nat)
    requires CanStop(last, used)
    ensures StopsAt(first, last, used, k) && AnswerAt(first, last, k) == Scanned(first, last, used)
  {
    if LowestFree(first, last, used).Some? || last < MAX_IP {
      k := StopsInRange(first, last, used);
    } else {
      k := StopsAfterWrapping(first, used);
    }
  }

  /** Short of the stop the scan finds a used address of the range and moves on to the next. */
  lemma GoesOn(first: Ip, last: Ip, used: set<Ip>, stop: nat, k: nat)
    requires StopsAt(first, last, used, stop) && k <= stop
    ensures k < stop <==> Visited(first, k) <= last && Visited(first, k) in used
    ensures Visited(first, k + 1) == (Visited(first, k) + 1) % ADDRESSES
  {
  }

  /** The scan stops exactly when the range ends below 255.255.255.255 or some address at all is unused. */
  lemma ScanStopsExactly(first: Ip, last: Ip, used: set<Ip>)
    ensures (exists k: nat :: StopsAt(first, last, used, k)) <==> CanStop(last, used)
  {
    if CanStop(last, used) {
      var k := FindStop(first, last, used);
    }
  }

  /**
   Where it stops, it has the lowest unused address of the range if there is one,
   else nothing below 255.255.255.255, else the lowest unused address of all.
   */
  lemma ScanAnswer(first: Ip, last: Ip, used: set<Ip>, k: nat)
    requires StopsAt(first, last, used, k)
    ensures AnswerAt(first, last, k) == Scanned(first, last, used)
  {
    ScanStopsExactly(first, last, used);
    var found := FindStop(first, last, used);
    assert found == k;
  }

  // ----- The pool as the server runs it

  datatype StoredLease = StoredLease(mac: Mac, ip: Option<Ip>, leasedAt: Option<Time>)

  predicate Restorable(p: Pool, stored: StoredLease, now: Time) {
    stored.mac != "" && stored.ip.Some? && InRange(p, stored.ip.value) && !Expired(p.ttl, stored.leasedAt, now)
  }

  function Restored(p: Pool, stored: seq<StoredLease>, now: Time): map<Mac, Lease> {
    if stored == [] then p.leases
    else
      var s := stored[|stored| - 1];
      var before := Restored(p, stored[..|stored| - 1], now);
      if Restorable(p, s, now) then before[s.mac := Lease(s.ip.value, s.leasedAt)] else before
  }

  class LeaseServer {
    const first: Ip
    const last: Ip
    var leases: map<Mac, Lease>
    var reservations: map<Mac, Ip>
    var ttl: int

    function State(): Pool
      reads this
    {
      Pool(first, last, leases, reservations, ttl)
    }

    /** Starts empty and then restores the persisted leases worth keeping. */
    constructor (start: Ip, end: Ip, ttl: int, stored: seq<StoredLease>, now: Time)
      ensures State() == Pool(start, end, Restored(Pool(start, end, map[], map[], ttl), stored, now), map[], ttl)
    {
      first := start;
      last := end;
      leases := map[];
      reservations := map[];
      this.ttl := ttl;
      new;
      for i := 0 to |stored|
        invariant reservations == map[] && this.ttl == ttl
        invariant leases == Restored(Pool(start, end, map[], map[], ttl), stored[..i], now)
      {
        var l := stored[i];
        assert stored[..i + 1][..i] == stored[..i];
        if !(l.mac == "" || l.ip.None? || !(first <= l.ip.value <= last) || Expired(this.ttl, l.leasedAt, now)) {
          leases := leases[l.mac := Lease(l.ip.value, l.leasedAt)];
        }
      }
      assert stored[..|stored|] == stored;
    }

    method SetTtl(ttl: int)
      modifies this`ttl
      ensures State() == old(State()).(ttl := ttl)
    {
      this.ttl := ttl;
    }

    method UpdateReservations(table: map<Mac, Ip>)
      modifies this`reservations
      ensures State() == old(State()).(reservations := table)
    {
      reservations := table;
    }

    method Release(mac: Mac)
      modifies this`leases
      ensures State() == old(State()).(leases := old(leases) - {mac})
    {
      leases := leases - {mac};
    }

    /** Collects the expired leases first and deletes them afterwards. */
    method Reclaim(now: Time)
      modifies this`leases
      ensures leases == Live(old(leases), ttl, now)
    {
      var reclaimed: set<Mac> := {};
      var rest := leases.Keys;
      while rest != {}
        invariant rest <= leases.Keys
        invariant reclaimed == (set m | m in leases && Expired(ttl, leases[m].leasedAt, now)) - rest
        decreases |rest|
      {
        var m :| m in rest;
        if Expired(ttl, leases[m].leasedAt, now) {
          reclaimed := reclaimed + {m};
        }
        rest := rest - {m};
      }
      leases := leases - reclaimed;
    }

    method CollectUsed() returns (used: set<Ip>)
      ensures used == Used(leases, reservations)
    {
      used := {};
      var rest := leases.Keys;
      while rest != {}
        invariant rest <= leases.Keys
        invariant used == set m | m in leases && m !in rest :: leases[m].ip
        decreases |rest|
      {
        var m :| m in rest;
        used := used + {leases[m].ip};
        rest := rest - {m};
      }
      rest := reservations.Keys;
      while rest != {}
        invariant rest <= reservations.Keys
        invariant used == (set m | m in leases :: leases[m].ip) + (set m | m in reservations && m !in rest :: reservations[m])
        decreases |rest|
      {
        var m :| m in rest;
        used := used + {reservations[m]};
        rest := rest - {m};
      }
    }

    /** Without an unused address anywhere the loop would never end. */
    method Scan(used: set<Ip>) returns (free: Option<Ip>)
      requires CanStop(last, used)
      ensures free == Scanned(first, last, used)
    {
      var n: Ip := first;
      ghost var k: nat := 0;
      ghost var stop := FindStop(first, last, used);
      while n <= last
        invariant k <= stop && n == Visited(first, k)
        decreases stop - k
      {
        GoesOn(first, last, used, stop, k);
        if n !in used {
          return Some(n);
        }
        n := (n + 1) % ADDRESSES;
        k := k + 1;
      }
      GoesOn(first, last, used, stop, k);
      return None;
    }

    method Allocate(mac: Mac, now: Time) returns (ip: Option<Ip>)
      requires Answers(State(), mac, now)
      modifies this`leases
      ensures (State(), ip) == Allocated(old(State()), mac, now)
    {
      if mac in reservations {
        var reserved := reservations[mac];
        leases := leases[mac := Lease(reserved, Some(now))];
        return Some(reserved);
      }
      if mac in leases {
        var e := leases[mac];
        if first <= e.ip <= last && !Expired(ttl, e.leasedAt, now) {
          leases := leases[mac := Lease(e.ip, Some(now))];
          return Some(e.ip);
        }
        leases := leases - {mac};
      }
      assert leases == old(leases) - {mac};
      Reclaim(now);
      var used := CollectUsed();
      ip := Scan(used);
      if ip.Some? {
        leases := leases[mac := Lease(ip.value, Some(now))];
      }
    }
  }

  // ----- What a call gives out

  predicate Reserved(table: map<Mac, Ip>, ip: Ip) {
    exists m :: m in table && table[m] == ip
  }

  /** A lease without a timestamp, under no ttl, or at most ttl old. */
  predicate Honored(ttl: int, lease: Lease, now: Time) {
    ttl <= 0 || lease.leasedAt.None? || now <= lease.leasedAt.value + ttl
  }

  /** Another client holds the address with a lease that is still honored. */
  predicate HeldByOther(p: Pool, mac: Mac, ip: Ip, now: Time) {
    exists m :: m in p.leases && m != mac && p.leases[m].ip == ip && Honored(p.ttl, p.leases[m], now)
  }

  /** The client has a lease of its own in the range that is still honored. */
  predicate CanRenew(p: Pool, mac: Mac, now: Time) {
    mac in p.leases && p.first <= p.leases[mac].ip <= p.last && Honored(p.ttl, p.leases[mac], now)
  }

  predicate Taken(p: Pool, mac: Mac, ip: Ip, now: Time) {
    Reserved(p.reservations, ip) || HeldByOther(p, mac, ip, now)
  }

  lemma UsedIsTaken(p: Pool, mac: Mac, ip: Ip, now: Time)
    ensures ip in Used(Live(p.leases - {mac}, p.ttl, now), p.reservations)
       <==> Taken(p, mac, ip, now)
  {
    var live := Live(p.leases - {mac}, p.ttl, now);
    if HeldByOther(p, mac, ip, now) {
      var m :| m in p.leases && m != mac && p.leases[m].ip == ip && Honored(p.ttl, p.leases[m], now);
      assert m in live && live[m].ip == ip;
    }
  }

  lemma ScannedCases(first: Ip, last: Ip, used: set<Ip>)
    ensures var r := Scanned(first, last, used);
            if exists n: Ip :: first <= n <= last && n !in used
            then r.Some? && first <= r.value <= last && r.value !in used && forall n: Ip :: first <= n < r.value ==> n in used
            else if last == MAX_IP && exists n: Ip :: n !in used
            then r.Some? && r.value < first && r.value !in used && forall n: Ip :: n < r.value ==> n in used
            else r.None?
  {
  }

  /** The lowest address that is not taken, from `from` on. */
  predicate IsLowest(p: Pool, mac: Mac, now: Time, from: Ip, ip: Ip) {
    from <= ip && !Taken(p, mac, ip, now) && forall n: Ip :: from <= n < ip ==> Taken(p, mac, n, now)
  }

  /**
   Without a reservation or a lease to renew, the client gets the lowest address
   of the range that is not taken. From a range that is full it gets none, except
   that a full range ending at 255.255.255.255 gives the lowest address of all.
   */
  lemma FirstFit(p: Pool, mac: Mac, now: Time)
    requires mac !in p.reservations && !CanRenew(p, mac, now)
    ensures var ip := Allocated(p, mac, now).1;
            if exists n: Ip :: InRange(p, n) && !Taken(p, mac, n, now)
            then ip.Some? && InRange(p, ip.value) && IsLowest(p, mac, now, p.first, ip.value)
            else if p.last == MAX_IP && exists n: Ip :: !Taken(p, mac, n, now)
            then ip.Some? && ip.value < p.first && IsLowest(p, mac, now, 0, ip.value)
            else ip.None?
  {
    var used := Used(Live(p.leases - {mac}, p.ttl, now), p.reservations);
    forall n: Ip ensures n in used <==> Taken(p, mac, n, now) {
      UsedIsTaken(p, mac, n, now);
    }
    ScannedCases(p.first, p.last, used);
    assert Allocated(p, mac, now).1 == Scanned(p.first, p.last, used);
  }

  /** A call that ends gives nothing exactly when nothing is reserved, renewable or left in a range below the end. */
  lemma ExhaustedExactly(p: Pool, mac: Mac, now: Time)
    requires Answers(p, mac, now)
    ensures Allocated(p, mac, now).1.None? <==>
              && mac !in p.reservations && !CanRenew(p, mac, now) && p.last < MAX_IP
              && forall n: Ip :: InRange(p, n) ==> Taken(p, mac, n, now)
  {
    if mac !in p.reservations && !Renewable(p, mac, now) {
      FirstFit(p, mac, now);
      if p.last == MAX_IP {
        var n: Ip :| n !in Used(Live(p.leases - {mac}, p.ttl, now), p.reservations);
        UsedIsTaken(p, mac, n, now);
      }
    }
  }

  /** A call goes on for ever exactly when the range ends at 255.255.255.255 and every address there is, is taken. */
  lemma NeverAnswersExactly(p: Pool, mac: Mac, now: Time)
    ensures !Answers(p, mac, now) <==>
              && mac !in p.reservations && !CanRenew(p, mac, now) && p.last == MAX_IP
              && forall n: Ip :: Taken(p, mac, n, now)
  {
    var used := Used(Live(p.leases - {mac}, p.ttl, now), p.reservations);
    forall n: Ip ensures n in used <==> Taken(p, mac, n, now) {
      UsedIsTaken(p, mac, n, now);
    }
  }

  /** Every answer is the lease then recorded for the client, and without an answer it has none. */
  lemma AnswerIsRecorded(p: Pool, mac: Mac, now: Time)
    ensures var (q, ip) := Allocated(p, mac, now);
            if ip.Some? then mac in q.leases && q.leases[mac] == Lease(ip.value, Some(now)) else mac !in q.leases
  {
  }

  /** A call touches nobody else's lease, except that a scan drops the ones no longer honored. */
  lemma OthersLeasesStay(p: Pool, mac: Mac, now: Time, m: Mac)
    requires m != mac
    ensures var q := Allocated(p, mac, now).0;
            && q.first == p.first && q.last == p.last && q.ttl == p.ttl && q.reservations == p.reservations
            && (m in q.leases <==> m in p.leases && (mac in p.reservations || CanRenew(p, mac, now) || Honored(p.ttl, p.leases[m], now)))
            && (m in q.leases ==> q.leases[m] == p.leases[m])
  {
  }

  /** A client with a lease to renew is given that address again. */
  lemma RenewerGetsItsAddress(p: Pool, mac: Mac, now: Time)
    requires mac !in p.reservations && CanRenew(p, mac, now)
    ensures Allocated(p, mac, now).1 == Some(p.leases[mac].ip)
  {
  }

  // ----- No two clients share an address

  predicate Distinct(leases: map<Mac, Lease>) {
    forall a, b :: a in leases && b in leases && a != b ==> leases[a].ip != leases[b].ip
  }

  /** Some other client holds the address reserved for `mac`. */
  predicate Clashes(p: Pool, mac: Mac) {
    mac in p.reservations && exists m :: m in p.leases && m != mac && p.leases[m].ip == p.reservations[mac]
  }

  /** One call keeps addresses distinct exactly when the caller's reservation does not clash. */
  lemma DistinctUnlessClash(p: Pool, mac: Mac, now: Time)
    requires Distinct(p.leases)
    ensures Distinct(Allocated(p, mac, now).0.leases) <==> !Clashes(p, mac)
  {
    var q := Allocated(p, mac, now).0;
    if mac in p.reservations {
      if Clashes(p, mac) {
        var m :| m in p.leases && m != mac && p.leases[m].ip == p.reservations[mac];
        assert q.leases[m].ip == q.leases[mac].ip;
      }
    } else if !Renewable(p, mac, now) {
      var live := Live(p.leases - {mac}, p.ttl, now);
      forall m | m in live ensures live[m].ip in Used(live, p.reservations) {
      }
    }
  }

  /** A clash does happen: the table may name an address another client already holds. */
  lemma ReservationCanClash()
    ensures var p := Pool(1, 9, map["a" := Lease(5, Some(0))], map["b" := 5], 0);
            Distinct(p.leases) && Clashes(p, "b") && !Distinct(Allocated(p, "b", 1).0.leases)
  {
    var p := Pool(1, 9, map["a" := Lease(5, Some(0))], map["b" := 5], 0);
    assert p.leases["a"].ip == p.reservations["b"];
    DistinctUnlessClash(p, "b", 1);
  }

  datatype Step = AllocateFor(mac: Mac, now: Time) | ReleaseFor(mac: Mac) | ChangeTtl(ttl: int) | Reserve(table: map<Mac, Ip>)

  /** No table row names an address that another client holds. */
  predicate Apart(leases: map<Mac, Lease>, table: map<Mac, Ip>) {
    forall m, r :: m in leases && r in table && m != r ==> leases[m].ip != table[r]
  }

  predicate Injective(table: map<Mac, Ip>) {
    forall a, b :: a in table && b in table && a != b ==> table[a] != table[b]
  }

  predicate Allowed(p: Pool, step: Step) {
    step.Reserve? ==> Injective(step.table) && Apart(p.leases, step.table)
  }

  function Next(p: Pool, step: Step): Pool {
    match step
    case AllocateFor(mac, now) => Allocated(p, mac, now).0
    case ReleaseFor(mac) => p.(leases := p.leases - {mac})
    case ChangeTtl(ttl) => p.(ttl := ttl)
    case Reserve(table) => p.(reservations := table)
  }

  predicate AllowedRun(p: Pool, steps: seq<Step>)
    decreases |steps|
  {
    steps == [] || (Allowed(p, steps[0]) && AllowedRun(Next(p, steps[0]), steps[1..]))
  }

  function Run(p: Pool, steps: seq<Step>): Pool
    decreases |steps|
  {
    if steps == [] then p else Run(Next(p, steps[0]), steps[1..])
  }

  predicate Consistent(p: Pool) {
    Distinct(p.leases) && Apart(p.leases, p.reservations) && Injective(p.reservations)
  }

  lemma AllocateKeepsApart(p: Pool, mac: Mac, now: Time)
    requires Consistent(p)
    ensures Apart(Allocated(p, mac, now).0.leases, p.reservations)
  {
  }

  lemma {:induction false} AddressesStayDistinct(p: Pool, steps: seq<Step>)
    requires Consistent(p) && AllowedRun(p, steps)
    ensures Consistent(Run(p, steps))
    decreases |steps|
  {
    if steps != [] {
      if steps[0].AllocateFor? {
        DistinctUnlessClash(p, steps[0].mac, steps[0].now);
        AllocateKeepsApart(p, steps[0].mac, steps[0].now);
      }
      AddressesStayDistinct(Next(p, steps[0]), steps[1..]);
    }
  }

  lemma {:induction false} RunKeepsTable(p: Pool, steps: seq<Step>)
    requires forall i :: 0 <= i < |steps| ==> !steps[i].Reserve?
    ensures Run(p, steps).reservations == p.reservations
    decreases |steps|
  {
    if steps != [] { RunKeepsTable(Next(p, steps[0]), steps[1..]); }
  }

  /** Whatever happens, until the table changes a client with a reservation is given exactly that address. */
  lemma ReservedClientGetsItsAddress(p: Pool, steps: seq<Step>, mac: Mac, now: Time)
    requires mac in p.reservations && forall i :: 0 <= i < |steps| ==> !steps[i].Reserve?
    ensures var (q, ip) := Allocated(Run(p, steps), mac, now);
            ip == Some(p.reservations[mac]) && q.leases == Run(p, steps).leases[mac := Lease(p.reservations[mac], Some(now))]
  {
    RunKeepsTable(p, steps);
  }

  predicate DistinctStore(stored: seq<StoredLease>) {
    forall i, j :: 0 <= i < j < |stored| && stored[i].mac != stored[j].mac ==> stored[i].ip.None? || stored[i].ip != stored[j].ip
  }

  /** Every restored lease is one of the stored ones. */
  lemma {:induction false} RestoredFromStore(p: Pool, stored: seq<StoredLease>, now: Time, m: Mac)
    requires p.leases == map[] && m in Restored(p, stored, now)
    ensures exists i :: 0 <= i < |stored| && Restorable(p, stored[i], now) && stored[i].mac == m
                        && Restored(p, stored, now)[m] == Lease(stored[i].ip.value, stored[i].leasedAt)
    decreases |stored|
  {
    if stored != [] {
      var k := |stored| - 1;
      if !(Restorable(p, stored[k], now) && stored[k].mac == m) {
        RestoredFromStore(p, stored[..k], now, m);
        var i :| 0 <= i < k && Restorable(p, stored[..k][i], now) && stored[..k][i].mac == m
                 && Restored(p, stored[..k], now)[m] == Lease(stored[..k][i].ip.value, stored[..k][i].leasedAt);
        assert stored[i] == stored[..k][i];
      }
    }
  }

  /** A stored row worth restoring. */
  predicate Usable(p: Pool, row: StoredLease, now: Time) {
    row.mac != "" && row.ip.Some? && p.first <= row.ip.value <= p.last && Honored(p.ttl, Lease(row.ip.value, row.leasedAt), now)
  }

  /** The client's last usable row, and nothing but usable rows, is restored. */
  lemma {:induction false} RestoredExactly(p: Pool, stored: seq<StoredLease>, now: Time, m: Mac)
    requires p.leases == map[]
    ensures m in Restored(p, stored, now) <==> exists i :: 0 <= i < |stored| && stored[i].mac == m && Usable(p, stored[i], now)
    ensures forall i :: 0 <= i < |stored| && stored[i].mac == m && Usable(p, stored[i], now)
                        && (forall j :: i < j < |stored| ==> !(stored[j].mac == m && Usable(p, stored[j], now)))
                        ==> m in Restored(p, stored, now) && Restored(p, stored, now)[m] == Lease(stored[i].ip.value, stored[i].leasedAt)
    decreases |stored|
  {
    if stored != [] {
      var k := |stored| - 1;
      RestoredExactly(p, stored[..k], now, m);
      assert forall i :: 0 <= i < k ==> stored[..k][i] == stored[i];
      assert Restorable(p, stored[k], now) <==> Usable(p, stored[k], now);
    }
  }

  /** From a restart on: a store with distinct addresses and clash-free tables never leads to sharing. */
  lemma NoSharingAfterRestart(first: Ip, last: Ip, ttl: int, stored: seq<StoredLease>, now: Time, steps: seq<Step>)
    requires DistinctStore(stored)
    requires AllowedRun(Pool(first, last, Restored(Pool(first, last, map[], map[], ttl), stored, now), map[], ttl), steps)
    ensures Distinct(Run(Pool(first, last, Restored(Pool(first, last, map[], map[], ttl), stored, now), map[], ttl), steps).leases)
  {
    var empty := Pool(first, last, map[], map[], ttl);
    var leases := Restored(empty, stored, now);
    forall a, b | a in leases && b in leases && a != b ensures leases[a].ip != leases[b].ip {
      RestoredFromStore(empty, stored, now, a);
      RestoredFromStore(empty, stored, now, b);
    }
    AddressesStayDistinct(Pool(first, last, leases, map[], ttl), steps);
  }

  // ----- A client keeps its address for the advertised lease time

  const SECOND: int := 1_000_000_000

  function LeaseTtl(leaseTime: int): int {
    if leaseTime > 0 then leaseTime * SECOND else 0
  }

  function Advertised(leaseTime: int): int {
    if leaseTime > 0 then leaseTime * SECOND else 3600 * SECOND
  }

  /** A lease given at `now` is honored up to the configured seconds, which are the ones advertised; unconfigured, for ever. */
  lemma LeaseLastsAsConfigured(p: Pool, mac: Mac, now: Time, later: Time, leaseTime: int)
    requires p.ttl == LeaseTtl(leaseTime) && Allocated(p, mac, now).1.Some?
    ensures Honored(p.ttl, Allocated(p, mac, now).0.leases[mac], later) <==> leaseTime <= 0 || later <= now + leaseTime * 1_000_000_000
    ensures Advertised(leaseTime) == (if leaseTime > 0 then leaseTime else 3600) * 1_000_000_000
  {
    AnswerIsRecorded(p, mac, now);
  }

  /** Another client without a reservation could renew the address at `now`. */
  predicate Shared(p: Pool, mac: Mac, ip: Ip, now: Time) {
    exists m :: m in p.leases && m != mac && m !in p.reservations && p.leases[m].ip == ip && !Expired(p.ttl, p.leases[m].leasedAt, now)
  }

  /** Everything a scan meets before it wraps around to this address is reserved. */
  predicate Walled(first: Ip, last: Ip, table: map<Mac, Ip>, ip: Ip) {
    forall n: Ip :: first <= n <= last || n < ip ==> Reserved(table, n)
  }

  /** The lease of another client on the holder's address that does no harm. */
  predicate Harmless(p: Pool, ip: Ip, since: Time, mac: Mac, lease: Lease) {
    lease.ip == ip ==> Expired(p.ttl, lease.leasedAt, since) || (InRange(p, ip) && mac in p.reservations)
  }

  /** The client holds the address since `since` or later, and no other client can renew it. */
  predicate Holds(p: Pool, mac: Mac, ip: Ip, since: Time) {
    && mac !in p.reservations && mac in p.leases && p.leases[mac].ip == ip
    && p.leases[mac].leasedAt.Some? && p.leases[mac].leasedAt.value >= since
    && (InRange(p, ip) || (p.last == MAX_IP && Walled(p.first, p.last, p.reservations, ip) && !Reserved(p.reservations, ip)))
    && forall m :: m in p.leases && m != mac ==> Harmless(p, ip, since, m, p.leases[m])
  }

  /** A holder outside the range is led back to its address by the reserved ones before it. */
  lemma WalledScan(p: Pool, ip: Ip, used: set<Ip>)
    requires p.last == MAX_IP && !InRange(p, ip) && Walled(p.first, p.last, p.reservations, ip) && ip !in used
    requires forall n: Ip :: Reserved(p.reservations, n) ==> n in used
    ensures Scanned(p.first, p.last, used) == Some(ip)
  {
  }

  lemma HolderGetsItAgain(p: Pool, holder: Mac, ip: Ip, since: Time, now: Time, leaseTime: int)
    requires Holds(p, holder, ip, since) && p.ttl == LeaseTtl(leaseTime)
    requires since <= now <= since + Advertised(leaseTime)
    ensures Allocated(p, holder, now).1 == Some(ip) && Holds(Allocated(p, holder, now).0, holder, ip, since)
  {
    if !InRange(p, ip) {
      var used := Used(Live(p.leases - {holder}, p.ttl, now), p.reservations);
      forall n: Ip ensures n in used <==> Taken(p, holder, n, now) {
        UsedIsTaken(p, holder, n, now);
      }
      assert !HeldByOther(p, holder, ip, now);
      WalledScan(p, ip, used);
    }
  }

  lemma OtherDoesNotGetIt(p: Pool, holder: Mac, ip: Ip, since: Time, mac: Mac, now: Time, leaseTime: int)
    requires Holds(p, holder, ip, since) && p.ttl == LeaseTtl(leaseTime) && mac != holder
    requires since <= now <= since + Advertised(leaseTime)
    ensures mac !in p.reservations ==> Allocated(p, mac, now).1 != Some(ip)
    ensures Holds(Allocated(p, mac, now).0, holder, ip, since)
  {
    if mac in p.leases { assert Harmless(p, ip, since, mac, p.leases[mac]); }
    if mac !in p.reservations && !Renewable(p, mac, now) {
      var live := Live(p.leases - {mac}, p.ttl, now);
      assert holder in live;
      assert live[holder].ip in Used(live, p.reservations);
    }
  }

  lemma AllocateKeepsHold(p: Pool, holder: Mac, ip: Ip, since: Time, mac: Mac, now: Time, leaseTime: int)
    requires Holds(p, holder, ip, since) && p.ttl == LeaseTtl(leaseTime)
    requires since <= now <= since + Advertised(leaseTime)
    ensures Holds(Allocated(p, mac, now).0, holder, ip, since)
    ensures mac != holder && mac !in p.reservations ==> Allocated(p, mac, now).1 != Some(ip)
    ensures mac == holder ==> Allocated(p, mac, now).1 == Some(ip)
  {
    if mac == holder {
      HolderGetsItAgain(p, holder, ip, since, now, leaseTime);
    } else {
      OtherDoesNotGetIt(p, holder, ip, since, mac, now, leaseTime);
    }
  }

  predicate TimelyRun(steps: seq<Step>, holder: Mac, from: Time, until: Time) {
    && (forall i :: 0 <= i < |steps| ==> steps[i].AllocateFor? || (steps[i].ReleaseFor? && steps[i].mac != holder))
    && (forall i :: 0 <= i < |steps| && steps[i].AllocateFor? ==> from <= steps[i].now <= until)
  }

  lemma {:induction false} HoldSurvives(p: Pool, holder: Mac, ip: Ip, since: Time, steps: seq<Step>, leaseTime: int)
    requires Holds(p, holder, ip, since) && p.ttl == LeaseTtl(leaseTime)
    requires TimelyRun(steps, holder, since, since + Advertised(leaseTime))
    ensures Holds(Run(p, steps), holder, ip, since) && Run(p, steps).ttl == p.ttl && Run(p, steps).reservations == p.reservations
    decreases |steps|
  {
    if steps != [] {
      if steps[0].AllocateFor? {
        AllocateKeepsHold(p, holder, ip, since, steps[0].mac, steps[0].now, leaseTime);
      }
      HoldSurvives(Next(p, steps[0]), holder, ip, since, steps[1..], leaseTime);
    }
  }

  /** One answer inside the advertised time: the holder gets its address, another dynamic client does not. */
  predicate Respects(q: Pool, holder: Mac, ip: Ip, steps: seq<Step>, mac: Mac, later: Time) {
    var answer := Allocated(Run(q, steps), mac, later).1;
    && (mac != holder && mac !in q.reservations ==> answer != Some(ip))
    && (mac == holder ==> answer == Some(ip))
  }

  /**
   Once given the address at `now`, the client keeps it: over every run inside the
   lease time that was advertised with it, all answers respect it.
   */
  ghost predicate Kept(q: Pool, holder: Mac, ip: Ip, now: Time, leaseTime: int) {
    forall steps, mac, later ::
      TimelyRun(steps, holder, now, now + Advertised(leaseTime)) && now <= later <= now + Advertised(leaseTime)
      ==> Respects(q, holder, ip, steps, mac, later)
  }

  /** What the caller can see before the call: nobody else could renew the address, or, outside the range, it is walled in. */
  predicate Keepable(p: Pool, holder: Mac, ip: Ip, now: Time) {
    if InRange(p, ip) then !Shared(p, holder, ip, now) else Walled(p.first, p.last, p.reservations, ip)
  }

  /** The address of a scan is neither reserved nor held by anybody else. */
  lemma ScannedIsNotTaken(p: Pool, holder: Mac, now: Time)
    requires holder !in p.reservations && !Renewable(p, holder, now) && Allocated(p, holder, now).1.Some?
    ensures !Taken(p, holder, Allocated(p, holder, now).1.value, now)
    ensures InRange(p, Allocated(p, holder, now).1.value) || p.last == MAX_IP
  {
    UsedIsTaken(p, holder, Allocated(p, holder, now).1.value, now);
  }

  lemma KeepableHolds(p: Pool, holder: Mac, now: Time)
    requires holder !in p.reservations && Allocated(p, holder, now).1.Some?
    requires Keepable(p, holder, Allocated(p, holder, now).1.value, now)
    ensures Holds(Allocated(p, holder, now).0, holder, Allocated(p, holder, now).1.value, now)
  {
    var (q, ip) := (Allocated(p, holder, now).0, Allocated(p, holder, now).1.value);
    if !Renewable(p, holder, now) {
      ScannedIsNotTaken(p, holder, now);
    }
    forall m | m in q.leases && m != holder ensures Harmless(q, ip, now, m, q.leases[m]) {
      assert m in p.leases && p.leases[m] == q.leases[m];
    }
  }

  /** Releases by every client but the holder. */
  lemma {:induction false} EverybodyElseReleases(p: Pool, holder: Mac, macs: set<Mac>, from: Time, until: Time) returns (steps: seq<Step>)
    requires holder !in macs
    ensures TimelyRun(steps, holder, from, until) && Run(p, steps) == p.(leases := p.leases - macs)
    decreases |macs|
  {
    if macs == {} {
      steps := [];
    } else {
      var m :| m in macs;
      var rest := EverybodyElseReleases(p.(leases := p.leases - {m}), holder, macs - {m}, from, until);
      steps := [ReleaseFor(m)] + rest;
      assert steps[1..] == rest && p.leases - {m} - (macs - {m}) == p.leases - macs;
    }
  }

  /** With only reservations in the way, a holder outside the range that is not walled in moves away. */
  lemma AloneHolderMoves(p: Pool, holder: Mac, ip: Ip, now: Time)
    requires holder !in p.reservations && p.leases.Keys == {holder} && p.leases[holder].ip == ip && !InRange(p, ip)
    requires p.last == MAX_IP && !Walled(p.first, p.last, p.reservations, ip)
    ensures Allocated(p, holder, now).1 != Some(ip)
  {
    var n: Ip :| (InRange(p, n) || n < ip) && !Reserved(p.reservations, n);
    assert !Taken(p, holder, n, now);
    FirstFit(p, holder, now);
  }

  lemma NotKeepableIsLost(p: Pool, holder: Mac, now: Time, leaseTime: int)
    requires holder !in p.reservations && Allocated(p, holder, now).1.Some?
    requires !Keepable(p, holder, Allocated(p, holder, now).1.value, now)
    ensures !Kept(Allocated(p, holder, now).0, holder, Allocated(p, holder, now).1.value, now, leaseTime)
  {
    var (q, ip) := (Allocated(p, holder, now).0, Allocated(p, holder, now).1.value);
    if !Renewable(p, holder, now) {
      ScannedIsNotTaken(p, holder, now);
    }
    if InRange(p, ip) {
      var m :| m in p.leases && m != holder && m !in p.reservations && p.leases[m].ip == ip && !Expired(p.ttl, p.leases[m].leasedAt, now);
      assert Run(q, []) == q && !Respects(q, holder, ip, [], m, now);
    } else {
      var steps := EverybodyElseReleases(q, holder, q.leases.Keys - {holder}, now, now + Advertised(leaseTime));
      AloneHolderMoves(Run(q, steps), holder, ip, now);
      assert !Respects(q, holder, ip, steps, holder, now);
    }
  }

  /**
   Once a client is given an address dynamically, no other client is given it
   dynamically, and the client itself gets it again, until the lease time that was
   advertised with it has passed: exactly when the address was keepable.
   */
  lemma AddressIsKeptExactly(p: Pool, holder: Mac, now: Time, leaseTime: int)
    requires p.ttl == LeaseTtl(leaseTime) && holder !in p.reservations && Allocated(p, holder, now).1.Some?
    ensures var ip := Allocated(p, holder, now).1.value;
            Kept(Allocated(p, holder, now).0, holder, ip, now, leaseTime) <==> Keepable(p, holder, ip, now)
  {
    var (q, ip) := (Allocated(p, holder, now).0, Allocated(p, holder, now).1.value);
    if Keepable(p, holder, ip, now) {
      KeepableHolds(p, holder, now);
      forall steps, mac, later
        | TimelyRun(steps, holder, now, now + Advertised(leaseTime)) && now <= later <= now + Advertised(leaseTime)
        ensures Respects(q, holder, ip, steps, mac, later)
      {
        HoldSurvives(q, holder, ip, now, steps, leaseTime);
        AllocateKeepsHold(Run(q, steps), holder, ip, now, mac, later, leaseTime);
      }
    } else {
      NotKeepableIsLost(p, holder, now, leaseTime);
    }
  }

  /** Every address of a range that ends at 255.255.255.255 is taken. */
  predicate FullAtTheEnd(p: Pool, mac: Mac, now: Time) {
    p.last == MAX_IP && forall n: Ip :: InRange(p, n) ==> Taken(p, mac, n, now)
  }

  /**
   The same by what the client had before: one that renews keeps its address exactly
   when no other unreserved client could renew it; one that is given a new address
   keeps it, except that outside a full range it must be walled in.
   */
  lemma KeptByGuard(p: Pool, holder: Mac, now: Time, leaseTime: int)
    requires p.ttl == LeaseTtl(leaseTime) && holder !in p.reservations && Allocated(p, holder, now).1.Some?
    ensures var (q, ip) := (Allocated(p, holder, now).0, Allocated(p, holder, now).1.value);
            if Renewable(p, holder, now)
            then Kept(q, holder, ip, now, leaseTime) <==> !Shared(p, holder, p.leases[holder].ip, now)
            else if !FullAtTheEnd(p, holder, now)
            then Kept(q, holder, ip, now, leaseTime)
            else Kept(q, holder, ip, now, leaseTime) <==> Walled(p.first, p.last, p.reservations, ip)
  {
    AddressIsKeptExactly(p, holder, now, leaseTime);
    if !Renewable(p, holder, now) {
      ScannedIsNotTaken(p, holder, now);
      FirstFit(p, holder, now);
    }
  }

  /** Addresses that are distinct, in a range below the end, are always keepable. */
  lemma DistinctIsKeepable(p: Pool, holder: Mac, now: Time)
    requires Distinct(p.leases) && p.last < MAX_IP && holder !in p.reservations && Allocated(p, holder, now).1.Some?
    ensures Keepable(p, holder, Allocated(p, holder, now).1.value, now)
  {
    if !Renewable(p, holder, now) {
      ScannedIsNotTaken(p, holder, now);
    }
  }

  /** A reservation that came and went. */
  const RESERVED_IN_BETWEEN: seq<Step> := [AllocateFor("a", 0), Reserve(map["b" := 1]), AllocateFor("b", 1), Reserve(map[])]

  /** Both clients hold address 1 without a reservation, and both renew it. */
  lemma TwoClientsRenewOneAddress()
    ensures var p := Run(Pool(1, 9, map[], map[], 0), RESERVED_IN_BETWEEN);
            && p.reservations == map[] && Shared(p, "a", 1, 2)
            && Allocated(p, "a", 2).1 == Some(1) && Allocated(Allocated(p, "a", 2).0, "b", 3).1 == Some(1)
  {
    var s := RESERVED_IN_BETWEEN;
    var a, b := Lease(1, Some(0)), Lease(1, Some(1));
    var p0 := Pool(1, 9, map[], map[], 0);
    var p1 := Pool(1, 9, map["a" := a], map[], 0);
    assert Allocated(p0, "a", 0) == (p1, Some(1));
    var p2 := Pool(1, 9, map["a" := a], map["b" := 1], 0);
    var p3 := Pool(1, 9, map["a" := a, "b" := b], map["b" := 1], 0);
    assert Allocated(p2, "b", 1) == (p3, Some(1));
    var p4 := Pool(1, 9, map["a" := a, "b" := b], map[], 0);
    assert Run(p4, s[4..]) == p4;
    assert Run(p3, s[3..]) == p4 by { assert s[3..][1..] == s[4..]; }
    assert Run(p2, s[2..]) == p4 by { assert s[2..][1..] == s[3..]; }
    assert Run(p1, s[1..]) == p4 by { assert s[1..][1..] == s[2..]; }
    assert Run(p0, s) == p4;
    assert p4.leases["b"].ip == 1;
  }
}
