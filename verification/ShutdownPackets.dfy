/**
 The Wake-on-LAN shutdown request: a signed binary packet, its parser, and the
 daemon loop that must shut a machine down at most once per packet.
 */
module ShutdownPackets {
  import opened Options

  type Byte = n: int | 0 <= n < 256
  type Bytes = seq<Byte>
  type Time = int

  const SIGNATURE_LENGTH := 32
  const NONCE_LENGTH := 12
  const HEADER_LENGTH := 24
  const SECOND: int := 1_000_000_000
  const TWO_64: int := 0x1_0000_0000_0000_0000
  const MAGIC: Bytes := [71, 79, 77, 73]

  /** A keyed MAC (HMAC-SHA256 in the program), known only by the length of its result. */
  type Mac = f: (Bytes, Bytes) -> Bytes | forall k, m :: |f(k, m)| == 32
    witness (k, m) => seq(32, _ => 0)

  datatype Request = Request(timestamp: int, nonce: Bytes, name: Bytes, token: Bytes)

  predicate Encodable(r: Request) {
    && -TWO_64 / 2 <= r.timestamp < TWO_64 / 2
    && |r.nonce| == NONCE_LENGTH && |r.name| <= 255 && |r.token| <= 255
  }

  // ----- Big-endian numbers

  function Power256(n: nat): nat {
    if n == 0 then 1 else 256 * Power256(n - 1)
  }

  function BigEndian(u: nat, n: nat): (b: Bytes)
    ensures |b| == n
  {
    if n == 0 then [] else BigEndian(u / 256, n - 1) + [u % 256]
  }

  function FromBigEndian(b: Bytes): nat {
    if b == [] then 0 else 256 * FromBigEndian(b[..|b| - 1]) + b[|b| - 1]
  }

  lemma {:induction false} EncodeThenDecode(u: nat, n: nat)
    requires u < Power256(n)
    ensures FromBigEndian(BigEndian(u, n)) == u
  {
    if n > 0 {
      EncodeThenDecode(u / 256, n - 1);
      assert BigEndian(u, n)[..n - 1] == BigEndian(u / 256, n - 1);
    }
  }

  lemma {:induction false} DecodeThenEncode(b: Bytes)
    ensures BigEndian(FromBigEndian(b), |b|) == b && FromBigEndian(b) < Power256(|b|)
  {
    if b != [] {
      DecodeThenEncode(b[..|b| - 1]);
      assert b == b[..|b| - 1] + [b[|b| - 1]];
    }
  }

  /** The most significant byte comes first. */
  lemma NetworkOrder()
    ensures BigEndian(0x0102_0304, 4) == [1, 2, 3, 4]
  {
    assert BigEndian(0x01, 1) == [1] && BigEndian(0x0102, 2) == [1, 2] && BigEndian(0x01_0203, 3) == [1, 2, 3];
  }

  /** Two's complement, both ways. */
  function Unsigned64(x: int): nat
    requires -TWO_64 / 2 <= x < TWO_64 / 2
  {
    if x < 0 then x + TWO_64 else x
  }

  function Signed64(u: nat): int {
    if u < TWO_64 / 2 then u else u - TWO_64
  }

  lemma EightBytes()
    ensures Power256(8) == TWO_64
  {
    assert Power256(4) == 0x1_0000_0000;
    assert Power256(8) == 256 * (256 * (256 * (256 * Power256(4))));
  }

  // ----- Building

  function Body(r: Request): Bytes
    requires Encodable(r)
  {
    MAGIC + BigEndian(Unsigned64(r.timestamp), 8) + r.nonce + [|r.name|] + r.name + [|r.token|] + r.token
  }

  function Build(mac: Mac, secret: Bytes, r: Request): Bytes
    requires Encodable(r)
  {
    Body(r) + mac(secret, Body(r))
  }

  /** The sender: the clock is cut to whole seconds and oversized fields are refused. */
  method BuildShutdownPacket(mac: Mac, name: Bytes, token: Bytes, secret: Bytes, nonce: Bytes, now: Time)
    returns (packet: Option<Bytes>)
    requires |nonce| == NONCE_LENGTH && -TWO_64 / 2 <= now / SECOND < TWO_64 / 2
    ensures packet.None? <==> |name| > 255 || |token| > 255
    ensures packet.Some? ==> packet.value == Build(mac, secret, Request(now / SECOND, nonce, name, token))
  {
    if |name| > 255 || |token| > 255 {
      return None;
    }
    var body := MAGIC;
    body := body + BigEndian(Unsigned64(now / SECOND), 8);
    body := body + nonce;
    body := body + [|name|];
    body := body + name;
    body := body + [|token|];
    body := body + token;
    var signature := mac(secret, body);
    return Some(body + signature);
  }

  // ----- Parsing

  predicate InWindow(timestamp: int, now: Time, ttl: int) {
    -ttl <= now - timestamp * SECOND <= ttl
  }

  /** The fields at the front of the data, if they leave room for a signature. */
  function Fields(data: Bytes): Option<Request> {
    if |data| < HEADER_LENGTH + 2 + SIGNATURE_LENGTH || data[..4] != MAGIC then None
    else
      var room := |data| - SIGNATURE_LENGTH;
      var nameEnd := HEADER_LENGTH + 1 + data[HEADER_LENGTH];
      if nameEnd > room then None
      else
        var tokenEnd := nameEnd + 1 + data[nameEnd];
        if tokenEnd > room then None
        else Some(Request(Signed64(FromBigEndian(data[4..12])), data[12..24], data[25..nameEnd], data[nameEnd + 1..tokenEnd]))
  }

  function Parsed(mac: Mac, data: Bytes, secret: Bytes, now: Time, ttl: int): Option<Request> {
    var r := Fields(data);
    if r.None? then None
    else
      var end := HEADER_LENGTH + 2 + |r.value.name| + |r.value.token|;
      if end + SIGNATURE_LENGTH <= |data| && mac(secret, data[..end]) == data[end..end + SIGNATURE_LENGTH]
         && InWindow(r.value.timestamp, now, ttl)
      then r else None
  }

  /** The receiver, with its cursor over the datagram. */
  method ParseAndVerify(mac: Mac, data: Bytes, secret: Bytes, now: Time, ttl: int) returns (r: Option<Request>)
    ensures r == Parsed(mac, data, secret, now, ttl)
  {
    if |data| < HEADER_LENGTH + 2 + SIGNATURE_LENGTH {
      return None;
    }
    if data[..4] != MAGIC {
      return None;
    }
    var timestamp := Signed64(FromBigEndian(data[4..12]));
    var nonce := data[12..24];
    var pos := HEADER_LENGTH;
    var nameLength := data[pos];
    pos := pos + 1;
    if pos + nameLength > |data| - SIGNATURE_LENGTH {
      return None;
    }
    var name := data[pos..pos + nameLength];
    pos := pos + nameLength;
    var tokenLength := data[pos];
    pos := pos + 1;
    if pos + tokenLength > |data| - SIGNATURE_LENGTH {
      return None;
    }
    var token := data[pos..pos + tokenLength];
    pos := pos + tokenLength;
    var body := data[..pos];
    var signature := data[pos..pos + SIGNATURE_LENGTH];
    if mac(secret, body) != signature {
      return None;
    }
    var diff := now - timestamp * SECOND;
    if diff < -ttl || diff > ttl {
      return None;
    }
    return Some(Request(timestamp, nonce, name, token));
  }

  // ----- The parser accepts exactly what the sender builds

  /** The layout on the wire: GOMI, the time, the nonce, and the two names with their lengths. */
  lemma BodyLayout(r: Request)
    requires Encodable(r)
    ensures var b := Body(r); var nameEnd := 25 + |r.name|;
            && |b| == 26 + |r.name| + |r.token|
            && b[..4] == [71, 79, 77, 73] && b[4..12] == BigEndian(Unsigned64(r.timestamp), 8) && b[12..24] == r.nonce
            && b[24] == |r.name| && b[25..nameEnd] == r.name
            && b[nameEnd] == |r.token| && b[nameEnd + 1..] == r.token
  {
  }

  lemma FieldsOfBody(r: Request, tail: Bytes)
    requires Encodable(r) && |tail| >= SIGNATURE_LENGTH
    ensures Fields(Body(r) + tail) == Some(r)
  {
    var b := Body(r);
    var data := b + tail;
    var nameEnd := 25 + |r.name|;
    BodyLayout(r);
    EightBytes();
    EncodeThenDecode(Unsigned64(r.timestamp), 8);
    assert data[..4] == b[..4] && data[4..12] == b[4..12] && data[12..24] == b[12..24];
    assert data[25..nameEnd] == b[25..nameEnd] && data[nameEnd + 1..|b|] == b[nameEnd + 1..];
  }

  lemma Pieces(data: Bytes, a: nat, b: nat, c: nat, d: nat)
    requires 24 == a < b <= c < d <= |data| && b == 25 && c == b + data[24]
    ensures data[..d] == data[..4] + data[4..12] + data[12..24] + [data[24]] + data[b..c] + [data[c]] + data[c + 1..d]
  {
  }

  lemma BodyOfFields(data: Bytes)
    requires Fields(data).Some?
    ensures var r := Fields(data).value;
            && Encodable(r) && |Body(r)| + SIGNATURE_LENGTH <= |data| && Body(r) == data[..|Body(r)|]
  {
    var r := Fields(data).value;
    EightBytes();
    DecodeThenEncode(data[4..12]);
    var nameEnd := 25 + |r.name|;
    BodyLayout(r);
    Pieces(data, 24, 25, nameEnd, |Body(r)|);
    assert r.name == data[25..nameEnd] && r.token == data[nameEnd + 1..|Body(r)|];
  }

  /**
   The parser answers with r exactly when the datagram starts with the packet
   built from r under the same secret and r is fresh. Trailing bytes are ignored.
   */
  lemma AcceptedExactly(mac: Mac, data: Bytes, secret: Bytes, now: Time, ttl: int, r: Request)
    ensures Parsed(mac, data, secret, now, ttl) == Some(r)
       <==> Encodable(r) && Build(mac, secret, r) <= data && InWindow(r.timestamp, now, ttl)
  {
    if Encodable(r) && Build(mac, secret, r) <= data {
      var packet := Build(mac, secret, r);
      assert data == Body(r) + data[|Body(r)|..];
      FieldsOfBody(r, data[|Body(r)|..]);
      BodyLayout(r);
      assert data[..|Body(r)|] == Body(r);
      assert data[|Body(r)|..|packet|] == packet[|Body(r)|..] == mac(secret, Body(r));
    }
    if Parsed(mac, data, secret, now, ttl) == Some(r) {
      BodyOfFields(data);
      BodyLayout(r);
      var end := |Body(r)|;
      assert Build(mac, secret, r) == data[..end] + data[end..end + SIGNATURE_LENGTH] == data[..end + SIGNATURE_LENGTH];
    }
  }

  /** A packet sent and received within the window comes back with its fields, for all names and tokens up to 255 bytes. */
  lemma RoundTrip(mac: Mac, secret: Bytes, r: Request, trailing: Bytes, now: Time, ttl: int)
    requires Encodable(r) && InWindow(r.timestamp, now, ttl)
    ensures Parsed(mac, Build(mac, secret, r) + trailing, secret, now, ttl) == Some(r)
  {
    AcceptedExactly(mac, Build(mac, secret, r) + trailing, secret, now, ttl, r);
  }

  // ----- The replay cache

  function Evicted(seen: map<Bytes, Time>, retention: int, now: Time): map<Bytes, Time> {
    map k | k in seen && now - seen[k] <= retention :: seen[k]
  }

  /** The cache after a nonce is presented, and whether it was a repeat. */
  function Presented(seen: map<Bytes, Time>, retention: int, nonce: Bytes, now: Time): (map<Bytes, Time>, bool) {
    var kept := Evicted(seen, retention, now);
    if nonce in kept then (kept, true) else (kept[nonce := now], false)
  }

  class ReplayCache {
    const retention: int
    var seen: map<Bytes, Time>

    constructor (ttl: int)
      ensures retention == 2 * ttl && seen == map[]
    {
      retention := 2 * ttl;
      seen := map[];
    }

    method Seen(nonce: Bytes, now: Time) returns (repeated: bool)
      modifies this
      ensures (seen, repeated) == Presented(old(seen), retention, nonce, now)
    {
      var rest := seen.Keys;
      while rest != {}
        invariant rest <= seen.Keys <= old(seen).Keys
        invariant forall k :: k in seen ==> seen[k] == old(seen)[k]
        invariant forall k :: k in old(seen) && k !in rest ==> (k in seen <==> now - old(seen)[k] <= retention)
        invariant forall k :: k in rest ==> k in seen
        decreases |rest|
      {
        var k :| k in rest;
        if now - seen[k] > retention {
          seen := seen - {k};
        }
        rest := rest - {k};
      }
      assert seen == Evicted(old(seen), retention, now);
      if nonce in seen {
        return true;
      }
      seen := seen[nonce := now];
      return false;
    }
  }

  // ----- The daemon loop

  /** `expectedToken` is None when any token will do. */
  datatype Config = Config(mac: Mac, secret: Bytes, expectedToken: Option<Bytes>, ttl: int)

  /** A datagram and the two clock readings taken for it: at parsing and at the replay check. */
  datatype Datagram = Datagram(data: Bytes, parsedAt: Time, checkedAt: Time)

  /** The cache after one datagram, and the request that shuts the machine down, if any. */
  function Handled(cfg: Config, seen: map<Bytes, Time>, d: Datagram): (map<Bytes, Time>, Option<Request>) {
    var r := Parsed(cfg.mac, d.data, cfg.secret, d.parsedAt, cfg.ttl);
    if r.None? || (cfg.expectedToken.Some? && r.value.token != cfg.expectedToken.value) then (seen, None)
    else
      var (next, repeated) := Presented(seen, 2 * cfg.ttl, r.value.nonce, d.checkedAt);
      (next, if repeated then None else r)
  }

  function Shutdowns(cfg: Config, seen: map<Bytes, Time>, input: seq<Datagram>): (out: seq<Option<Request>>)
    ensures |out| == |input|
    decreases |input|
  {
    if input == [] then []
    else var h := Handled(cfg, seen, input[0]); [h.1] + Shutdowns(cfg, h.0, input[1..])
  }

  lemma NextShutdown(cfg: Config, seen: map<Bytes, Time>, input: seq<Datagram>, i: nat)
    requires i < |input|
    ensures var h := Handled(cfg, seen, input[i]);
            Shutdowns(cfg, seen, input[i..]) == [h.1] + Shutdowns(cfg, h.0, input[i + 1..])
  {
    assert input[i..][1..] == input[i + 1..];
  }

  method HandleDatagram(cfg: Config, replay: ReplayCache, d: Datagram) returns (triggered: Option<Request>)
    requires replay.retention == 2 * cfg.ttl
    modifies replay
    ensures (replay.seen, triggered) == Handled(cfg, old(replay.seen), d)
  {
    var packet := ParseAndVerify(cfg.mac, d.data, cfg.secret, d.parsedAt, cfg.ttl);
    if packet.None? {
      return None;
    }
    if cfg.expectedToken.Some? && packet.value.token != cfg.expectedToken.value {
      return None;
    }
    var repeated := replay.Seen(packet.value.nonce, d.checkedAt);
    if repeated {
      return None;
    }
    return packet;
  }

  /** The receive loop over what the socket delivers. */
  method RunDaemon(cfg: Config, input: seq<Datagram>) returns (triggered: seq<Option<Request>>)
    ensures triggered == Shutdowns(cfg, map[], input)
  {
    var replay := new ReplayCache(cfg.ttl);
    triggered := [];
    ghost var all := Shutdowns(cfg, map[], input);
    assert input[0..] == input;
    for i := 0 to |input|
      invariant all == triggered + Shutdowns(cfg, replay.seen, input[i..])
    {
      NextShutdown(cfg, replay.seen, input, i);
      var t := HandleDatagram(cfg, replay, input[i]);
      triggered := triggered + [t];
    }
  }

  // ----- Which datagrams shut the machine down

  /** The datagram carries r, signed with the secret, in the window and with the expected token. */
  ghost predicate Passes(cfg: Config, d: Datagram, r: Request) {
    && Encodable(r) && Build(cfg.mac, cfg.secret, r) <= d.data
    && r.timestamp * 1_000_000_000 - cfg.ttl <= d.parsedAt <= r.timestamp * 1_000_000_000 + cfg.ttl
    && (cfg.expectedToken.Some? ==> r.token == cfg.expectedToken.value)
  }

  /** Datagram i shuts the machine down with this nonce. */
  predicate TriggersWith(cfg: Config, input: seq<Datagram>, i: int, nonce: Bytes) {
    0 <= i < |input| && Shutdowns(cfg, map[], input)[i].Some? && Shutdowns(cfg, map[], input)[i].value.nonce == nonce
  }

  /** By datagram n the nonce of datagram j is forgotten: one that passes came more than the retention later. */
  ghost predicate Forgotten(cfg: Config, input: seq<Datagram>, j: int, n: int)
    requires 0 <= j < |input| && n <= |input|
  {
    exists k, r :: j < k < n && Passes(cfg, input[k], r) && input[k].checkedAt - input[j].checkedAt > 2 * cfg.ttl
  }

  function CacheAt(cfg: Config, input: seq<Datagram>, n: nat): map<Bytes, Time>
    requires n <= |input|
  {
    if n == 0 then map[] else Handled(cfg, CacheAt(cfg, input, n - 1), input[n - 1]).0
  }

  lemma {:induction false} TailOf(cfg: Config, input: seq<Datagram>, n: nat)
    requires n <= |input|
    ensures Shutdowns(cfg, map[], input)[n..] == Shutdowns(cfg, CacheAt(cfg, input, n), input[n..])
    decreases n
  {
    if n == 0 {
      assert input[0..] == input;
    } else {
      TailOf(cfg, input, n - 1);
      NextShutdown(cfg, CacheAt(cfg, input, n - 1), input, n - 1);
    }
  }

  lemma OutcomeAt(cfg: Config, input: seq<Datagram>, i: nat)
    requires i < |input|
    ensures Shutdowns(cfg, map[], input)[i] == Handled(cfg, CacheAt(cfg, input, i), input[i]).1
  {
    TailOf(cfg, input, i);
    NextShutdown(cfg, CacheAt(cfg, input, i), input, i);
    assert Shutdowns(cfg, map[], input)[i] == Shutdowns(cfg, map[], input)[i..][0];
  }

  /** The tests before the cache, as the parser and the token check make them. */
  function Admitted(cfg: Config, d: Datagram): Option<Request> {
    var r := Parsed(cfg.mac, d.data, cfg.secret, d.parsedAt, cfg.ttl);
    if r.Some? && (cfg.expectedToken.Some? ==> r.value.token == cfg.expectedToken.value) then r else None
  }

  lemma AdmittedExactly(cfg: Config, d: Datagram, r: Request)
    ensures Admitted(cfg, d) == Some(r) <==> Passes(cfg, d, r)
  {
    AcceptedExactly(cfg.mac, d.data, cfg.secret, d.parsedAt, cfg.ttl, r);
  }

  lemma HandledByTests(cfg: Config, seen: map<Bytes, Time>, d: Datagram)
    ensures var a := Admitted(cfg, d);
            Handled(cfg, seen, d) ==
            if a.None? then (seen, None)
            else var (next, repeated) := Presented(seen, 2 * cfg.ttl, a.value.nonce, d.checkedAt); (next, if repeated then None else a)
  {
  }

  /** What the cache holds is a shutdown that is not yet forgotten. */
  ghost predicate Remembers(cfg: Config, input: seq<Datagram>, n: nat, nonce: Bytes, j: int)
    requires n <= |input|
  {
    0 <= j < n && TriggersWith(cfg, input, j, nonce) && !Forgotten(cfg, input, j, n)
  }

  lemma ForgottenNext(cfg: Config, input: seq<Datagram>, j: int, n: nat)
    requires 0 <= j < n < |input|
    ensures Forgotten(cfg, input, j, n + 1) <==>
            Forgotten(cfg, input, j, n) || (Admitted(cfg, input[n]).Some? && input[n].checkedAt - input[j].checkedAt > 2 * cfg.ttl)
  {
    if Admitted(cfg, input[n]).Some? {
      AdmittedExactly(cfg, input[n], Admitted(cfg, input[n]).value);
    }
    if Forgotten(cfg, input, j, n + 1) {
      var k, r :| j < k < n + 1 && Passes(cfg, input[k], r) && input[k].checkedAt - input[j].checkedAt > 2 * cfg.ttl;
      AdmittedExactly(cfg, input[k], r);
    }
  }

  lemma {:induction false} CacheMeaning(cfg: Config, input: seq<Datagram>, n: nat, nonce: Bytes)
    requires n <= |input|
    ensures nonce in CacheAt(cfg, input, n) ==>
              exists j :: Remembers(cfg, input, n, nonce, j) && CacheAt(cfg, input, n)[nonce] == input[j].checkedAt
    ensures forall j :: Remembers(cfg, input, n, nonce, j) ==>
              nonce in CacheAt(cfg, input, n) && CacheAt(cfg, input, n)[nonce] == input[j].checkedAt
    decreases n
  {
    if n > 0 {
      CacheMeaning(cfg, input, n - 1, nonce);
      var m := n - 1;
      OutcomeAt(cfg, input, m);
      HandledByTests(cfg, CacheAt(cfg, input, m), input[m]);
      if nonce in CacheAt(cfg, input, n) { CacheForward(cfg, input, m, nonce); }
      forall j | Remembers(cfg, input, n, nonce, j)
        ensures nonce in CacheAt(cfg, input, n) && CacheAt(cfg, input, n)[nonce] == input[j].checkedAt
      {
        if j < m {
          ForgottenNext(cfg, input, j, m);
          assert Remembers(cfg, input, m, nonce, j);
        }
      }
    }
  }

  lemma CacheForward(cfg: Config, input: seq<Datagram>, m: nat, nonce: Bytes)
    requires m < |input| && nonce in CacheAt(cfg, input, m + 1)
    requires nonce in CacheAt(cfg, input, m) ==>
               exists j :: Remembers(cfg, input, m, nonce, j) && CacheAt(cfg, input, m)[nonce] == input[j].checkedAt
    ensures exists j :: Remembers(cfg, input, m + 1, nonce, j) && CacheAt(cfg, input, m + 1)[nonce] == input[j].checkedAt
  {
    OutcomeAt(cfg, input, m);
    HandledByTests(cfg, CacheAt(cfg, input, m), input[m]);
    if nonce in CacheAt(cfg, input, m) && CacheAt(cfg, input, m + 1)[nonce] == CacheAt(cfg, input, m)[nonce] {
      var j :| Remembers(cfg, input, m, nonce, j) && CacheAt(cfg, input, m)[nonce] == input[j].checkedAt;
      ForgottenNext(cfg, input, j, m);
      assert Remembers(cfg, input, m + 1, nonce, j);
    } else {
      assert Remembers(cfg, input, m + 1, nonce, m);
    }
  }

  /**
   Datagram i shuts the machine down for r exactly when it passes the tests with r
   and every earlier shutdown with the same nonce is forgotten by then. The input
   is arbitrary, and so is the clock.
   */
  lemma TriggersExactly(cfg: Config, input: seq<Datagram>, i: nat, r: Request)
    requires i < |input|
    ensures Shutdowns(cfg, map[], input)[i] == Some(r) <==>
              && Passes(cfg, input[i], r)
              && forall j :: 0 <= j < i && TriggersWith(cfg, input, j, r.nonce) ==> Forgotten(cfg, input, j, i + 1)
  {
    OutcomeAt(cfg, input, i);
    HandledByTests(cfg, CacheAt(cfg, input, i), input[i]);
    AdmittedExactly(cfg, input[i], r);
    if Passes(cfg, input[i], r) {
      CacheMeaning(cfg, input, i, r.nonce);
      forall j | 0 <= j < i ensures Forgotten(cfg, input, j, i + 1) <==>
                                    Forgotten(cfg, input, j, i) || input[i].checkedAt - input[j].checkedAt > 2 * cfg.ttl {
        ForgottenNext(cfg, input, j, i);
      }
      var kept := Evicted(CacheAt(cfg, input, i), 2 * cfg.ttl, input[i].checkedAt);
      if r.nonce in kept {
        var j :| Remembers(cfg, input, i, r.nonce, j) && CacheAt(cfg, input, i)[r.nonce] == input[j].checkedAt;
        assert !Forgotten(cfg, input, j, i + 1);
      } else {
        forall j | 0 <= j < i && TriggersWith(cfg, input, j, r.nonce) ensures Forgotten(cfg, input, j, i + 1) {
          if !Forgotten(cfg, input, j, i) { assert Remembers(cfg, input, i, r.nonce, j); }
        }
      }
    }
  }

  /** Under a clock that never runs backwards: no shutdown with that nonce within the retention before. */
  lemma TriggersInTime(cfg: Config, input: seq<Datagram>, i: nat, r: Request)
    requires i < |input| && forall a, b :: 0 <= a < b < |input| ==> input[a].checkedAt <= input[b].checkedAt
    ensures Shutdowns(cfg, map[], input)[i] == Some(r) <==>
              && Passes(cfg, input[i], r)
              && forall j :: 0 <= j < i && TriggersWith(cfg, input, j, r.nonce) ==> input[i].checkedAt - input[j].checkedAt > 2 * cfg.ttl
  {
    TriggersExactly(cfg, input, i, r);
    if Passes(cfg, input[i], r) {
      forall j | 0 <= j < i
        ensures Forgotten(cfg, input, j, i + 1) <==> input[i].checkedAt - input[j].checkedAt > 2 * cfg.ttl
      {
        assert input[i].checkedAt - input[j].checkedAt > 2 * cfg.ttl ==> Forgotten(cfg, input, j, i + 1);
      }
    }
  }

  // ----- At most one shutdown per packet

  /** The clock never runs backwards, and its two readings for one datagram are at most `delay` apart. */
  predicate Clocked(input: seq<Datagram>, delay: int) {
    && (forall i :: 0 <= i < |input| ==> input[i].parsedAt <= input[i].checkedAt <= input[i].parsedAt + delay)
    && (forall i, j :: 0 <= i < j < |input| ==> input[i].checkedAt <= input[j].parsedAt)
  }

  /** Whoever triggered the shutdown at `at` is remembered for long enough. */
  lemma {:induction false} NotAgain(cfg: Config, seen: map<Bytes, Time>, input: seq<Datagram>, r: Request, at: Time, j: nat)
    requires Clocked(input, 0) && r.nonce in seen && seen[r.nonce] == at && at >= r.timestamp * SECOND - cfg.ttl
    requires j < |input| && forall i :: 0 <= i < |input| ==> at <= input[i].parsedAt
    ensures Shutdowns(cfg, seen, input)[j].None? ||
            Shutdowns(cfg, seen, input)[j].value.nonce != r.nonce || Shutdowns(cfg, seen, input)[j].value.timestamp != r.timestamp
    decreases |input|
  {
    var h := Handled(cfg, seen, input[0]);
    if j > 0 {
      if r.nonce in h.0 && h.0[r.nonce] == at {
        NotAgain(cfg, h.0, input[1..], r, at, j - 1);
      } else {
        TooLate(cfg, h.0, input[1..], r, j - 1);
      }
    }
  }

  /** Once the cache may forget a packet, its timestamp is too old to be accepted. */
  lemma {:induction false} TooLate(cfg: Config, seen: map<Bytes, Time>, input: seq<Datagram>, r: Request, j: nat)
    requires j < |input| && forall i :: 0 <= i < |input| ==> input[i].parsedAt > r.timestamp * SECOND + cfg.ttl
    ensures Shutdowns(cfg, seen, input)[j].None? || Shutdowns(cfg, seen, input)[j].value.timestamp != r.timestamp
    decreases |input|
  {
    if j > 0 {
      TooLate(cfg, Handled(cfg, seen, input[0]).0, input[1..], r, j - 1);
    }
  }

  lemma {:induction false} AtMostOnce(cfg: Config, seen: map<Bytes, Time>, input: seq<Datagram>, i: nat, j: nat)
    requires Clocked(input, 0) && i < j < |input|
    requires Shutdowns(cfg, seen, input)[i].Some? && Shutdowns(cfg, seen, input)[j].Some?
    ensures Shutdowns(cfg, seen, input)[i] != Shutdowns(cfg, seen, input)[j]
    decreases |input|
  {
    var h := Handled(cfg, seen, input[0]);
    if i > 0 {
      AtMostOnce(cfg, h.0, input[1..], i - 1, j - 1);
    } else {
      NotAgain(cfg, h.0, input[1..], h.1.value, input[0].checkedAt, j - 1);
    }
  }

  /** No run whose readings are this close triggers one request twice. */
  ghost predicate ReplaySafe(cfg: Config, delay: int) {
    forall input: seq<Datagram>, i: nat, j: nat ::
      Clocked(input, delay) && i < j < |input| && Shutdowns(cfg, map[], input)[i].Some?
      ==> Shutdowns(cfg, map[], input)[i] != Shutdowns(cfg, map[], input)[j]
  }

  /** Two datagrams with one packet, at the two ends of its window. */
  function BothEnds(cfg: Config, r: Request, delay: int): seq<Datagram>
    requires Encodable(r)
  {
    var packet := Build(cfg.mac, cfg.secret, r);
    var sent := r.timestamp * SECOND;
    [Datagram(packet, sent - cfg.ttl, sent - cfg.ttl), Datagram(packet, sent + cfg.ttl, sent + cfg.ttl + delay)]
  }

  lemma LateCheckForgets(cfg: Config, r: Request, delay: int)
    requires cfg.ttl > 0 && delay > 0 && Encodable(r) && (cfg.expectedToken.Some? ==> r.token == cfg.expectedToken.value)
    ensures Clocked(BothEnds(cfg, r, delay), delay)
    ensures Shutdowns(cfg, map[], BothEnds(cfg, r, delay)) == [Some(r), Some(r)]
  {
    var input := BothEnds(cfg, r, delay);
    AcceptedExactly(cfg.mac, input[0].data, cfg.secret, input[0].parsedAt, cfg.ttl, r);
    AcceptedExactly(cfg.mac, input[1].data, cfg.secret, input[1].parsedAt, cfg.ttl, r);
    var h := Handled(cfg, map[], input[0]);
    assert h == (map[r.nonce := input[0].checkedAt], Some(r));
    assert Handled(cfg, h.0, input[1]).1 == Some(r);
    NextShutdown(cfg, map[], input, 0);
    NextShutdown(cfg, h.0, input, 1);
    assert input[0..] == input && input[2..] == [];
  }

  /**
   The promise of at most one shutdown per packet holds exactly when both
   readings for a datagram agree: retaining a nonce for twice the ttl covers the
   acceptance window with nothing to spare.
   */
  lemma ReplaySafeExactly(cfg: Config, r: Request, delay: nat)
    requires cfg.ttl > 0 && Encodable(r) && (cfg.expectedToken.Some? ==> r.token == cfg.expectedToken.value)
    ensures ReplaySafe(cfg, delay) <==> delay == 0
  {
    if delay == 0 {
      forall input: seq<Datagram>, i: nat, j: nat
        | Clocked(input, 0) && i < j < |input| && Shutdowns(cfg, map[], input)[i].Some?
        ensures Shutdowns(cfg, map[], input)[i] != Shutdowns(cfg, map[], input)[j]
      {
        if Shutdowns(cfg, map[], input)[j].Some? {
          AtMostOnce(cfg, map[], input, i, j);
        }
      }
    } else {
      LateCheckForgets(cfg, r, delay);
      var input := BothEnds(cfg, r, delay);
      assert Shutdowns(cfg, map[], input)[0] == Shutdowns(cfg, map[], input)[1];
    }
  }
}
