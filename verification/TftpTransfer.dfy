/**
 The TFTP read transfer: a lock-step server with retries and a 16-bit block
 counter, against a receiver that follows section 2 of RFC 1350. Two networks are
 considered: one that loses, duplicates and reorders, and a lossy FIFO.
 */
module TftpTransfer {
  type Byte = n: int | 0 <= n < 256

  const BLOCK_NUMBERS: int := 0x1_0000

  /** The file, the negotiated block size and the number of tries per block. */
  datatype Transfer = Transfer(file: seq<Byte>, size: nat, retries: nat) {
    predicate Valid() { size > 0 && retries > 0 }
  }

  datatype Packet = Packet(num: int, payload: seq<Byte>)

  /** Blocks are counted from 1; only the count modulo 65536 is on the wire. */
  type Index = n: int | n >= 1 witness 1

  // ----- Cutting a file into blocks

  function Head(s: seq<Byte>, size: nat): seq<Byte> {
    if |s| <= size then s else s[..size]
  }

  function Tail(s: seq<Byte>, size: nat): seq<Byte> {
    if |s| <= size then [] else s[size..]
  }

  /** What is left to read after n blocks. */
  function After(t: Transfer, n: nat): seq<Byte> {
    if n == 0 then t.file else Tail(After(t, n - 1), t.size)
  }

  function Chunk(t: Transfer, n: Index): seq<Byte> {
    Head(After(t, n - 1), t.size)
  }

  /** The first n blocks together. */
  function Prefix(t: Transfer, n: nat): seq<Byte> {
    if n == 0 then [] else Prefix(t, n - 1) + Chunk(t, n)
  }

  function Wire(n: nat): int {
    n % BLOCK_NUMBERS
  }

  function PacketOf(t: Transfer, n: Index): Packet {
    Packet(Wire(n), Chunk(t, n))
  }

  predicate IsLast(t: Transfer, n: Index) {
    |Chunk(t, n)| < t.size
  }

  lemma CutAndJoin(s: seq<Byte>, size: nat)
    ensures Head(s, size) + Tail(s, size) == s
  {
  }

  lemma Regroup(a: seq<Byte>, b: seq<Byte>, c: seq<Byte>)
    ensures (a + b) + c == a + (b + c)
  {
  }

  lemma {:induction false} PrefixAndRest(t: Transfer, n: nat)
    ensures Prefix(t, n) + After(t, n) == t.file
  {
    if n > 0 {
      PrefixAndRest(t, n - 1);
      CutAndJoin(After(t, n - 1), t.size);
      Regroup(Prefix(t, n - 1), Chunk(t, n), After(t, n));
    }
  }

  /** The transfer ends with a short block, and the blocks up to it are the whole file. */
  lemma LastBlockCompletes(t: Transfer, n: Index)
    requires IsLast(t, n)
    ensures Prefix(t, n) == t.file
  {
    PrefixAndRest(t, n);
  }

  lemma {:induction false} AfterShrinks(t: Transfer, n: nat)
    requires t.Valid() && forall k :: 1 <= k <= n ==> !IsLast(t, k)
    ensures |After(t, n)| <= |t.file| - n
  {
    if n > 0 {
      AfterShrinks(t, n - 1);
      assert !IsLast(t, n);
    }
  }

  /** Every file has a short block, also when its size is a multiple of the block size. */
  lemma SomeBlockIsLast(t: Transfer)
    requires t.Valid()
    ensures exists n :: 1 <= n <= |t.file| + 1 && IsLast(t, n)
  {
    if forall n :: 1 <= n <= |t.file| + 1 ==> !IsLast(t, n) {
      AfterShrinks(t, |t.file| + 1);
    }
  }

  /** The number of blocks: the index of the first short one. */
  ghost predicate Blocks(t: Transfer, n: Index) {
    IsLast(t, n) && forall k :: 1 <= k < n ==> !IsLast(t, k)
  }

  // ----- The server

  datatype Status = Sending | Completed | TimedOut

  datatype Server = Server(block: Index, tries: nat, status: Status)

  /** What one wait for an acknowledgement brings. */
  datatype Event = Ack(num: int) | Silence

  function Start(): Server {
    Server(1, 0, Sending)
  }

  function OnEvent(t: Transfer, s: Server, e: Event): Server
    requires s.status.Sending?
  {
    if e == Ack(Wire(s.block)) then
      if IsLast(t, s.block) then s.(status := Completed) else Server(s.block + 1, 0, Sending)
    else if s.tries + 1 < t.retries then s.(tries := s.tries + 1)
    else s.(status := TimedOut)
  }

  /** The server after the events, and the packets it sends for them: one on entering every try. */
  function Served(t: Transfer, s: Server, events: seq<Event>): (Server, seq<Packet>)
    decreases |events|
  {
    if !s.status.Sending? then (s, [])
    else if events == [] then (s, [PacketOf(t, s.block)])
    else
      var rest := Served(t, OnEvent(t, s, events[0]), events[1..]);
      (rest.0, [PacketOf(t, s.block)] + rest.1)
  }

  // ----- What goes on the wire

  /** A position in the file, or its end. */
  function At(t: Transfer, n: nat): nat {
    if n * t.size <= |t.file| then n * t.size else |t.file|
  }

  /** The bytes of block n: from (n - 1) * size up to n * size, as far as the file goes. */
  function Slice(t: Transfer, n: Index): seq<Byte>
    requires At(t, n - 1) <= At(t, n) <= |t.file|
  {
    t.file[At(t, n - 1)..At(t, n)]
  }

  lemma AtGrows(t: Transfer, n: Index)
    ensures At(t, n - 1) <= At(t, n) <= |t.file|
    ensures n * t.size == (n - 1) * t.size + t.size
  {
  }

  lemma {:induction false} AfterIsRest(t: Transfer, n: nat)
    ensures At(t, n) <= |t.file| && After(t, n) == t.file[At(t, n)..]
  {
    if n > 0 {
      AfterIsRest(t, n - 1);
      AtGrows(t, n);
    }
  }

  lemma ChunkIsSlice(t: Transfer, n: Index)
    ensures At(t, n - 1) <= At(t, n) <= |t.file| && Chunk(t, n) == Slice(t, n)
  {
    AfterIsRest(t, n - 1);
    AtGrows(t, n);
  }

  /** Packet n as section 2 of RFC 1350 has it: its number in 16 bits and its part of the file. */
  ghost predicate IsBlock(t: Transfer, p: Packet, n: Index) {
    At(t, n - 1) <= At(t, n) <= |t.file| && p == Packet(n % 65536, Slice(t, n))
  }

  lemma PacketIsBlock(t: Transfer, n: Index)
    ensures IsBlock(t, PacketOf(t, n), n)
  {
    ChunkIsSlice(t, n);
  }

  lemma {:induction false} SendsPackets(t: Transfer, s: Server, events: seq<Event>, i: nat) returns (n: Index)
    requires i < |Served(t, s, events).1|
    ensures Served(t, s, events).1[i] == PacketOf(t, n) && (i == 0 ==> n == s.block)
    decreases |events|
  {
    if i == 0 {
      n := s.block;
    } else {
      n := SendsPackets(t, OnEvent(t, s, events[0]), events[1..], i - 1);
    }
  }

  /** Every packet ever sent is some block, and the first one is block 1 with the front of the file. */
  lemma SendsBlocks(t: Transfer, events: seq<Event>, i: nat)
    requires i < |Served(t, Start(), events).1|
    ensures exists n: Index :: IsBlock(t, Served(t, Start(), events).1[i], n)
    ensures i == 0 ==> Served(t, Start(), events).1[0] == Packet(1, if t.size <= |t.file| then t.file[..t.size] else t.file)
  {
    var n := SendsPackets(t, Start(), events, i);
    PacketIsBlock(t, n);
  }

  lemma LastMultiple(a: nat, size: nat, n: Index)
    requires size > 0 && n <= a / size + 1
    ensures a < n * size <==> n == a / size + 1
    ensures n <= a / size ==> n * size <= a
  {
    var q := a / size;
    assert q * size <= a < q * size + size;
    if n <= q {
      assert (q - n) * size >= 0;
      assert n * size == q * size - (q - n) * size;
    } else {
      assert n * size == q * size + size;
    }
  }

  /** The file is cut into |file| / size + 1 blocks. */
  lemma BlockCount(t: Transfer, n: Index)
    requires t.Valid() && n <= |t.file| / t.size + 1
    ensures IsLast(t, n) <==> n == |t.file| / t.size + 1
  {
    LastMultiple(|t.file|, t.size, n);
    AtGrows(t, n);
    ChunkIsSlice(t, n);
    if n > 1 { LastMultiple(|t.file|, t.size, n - 1); }
    assert |Slice(t, n)| == At(t, n) - At(t, n - 1);
  }

  /** The acknowledgements of blocks k, k + 1, .. up to the last one. */
  function AcksFrom(k: Index, last: nat): seq<Event>
    requires k <= last + 1
  {
    seq(last + 1 - k, i requires 0 <= i => Ack((k + i) % 65536))
  }

  lemma {:induction false} CleanFrom(t: Transfer, k: Index, last: Index)
    requires k <= last && forall n: Index :: k <= n <= last ==> (IsLast(t, n) <==> n == last)
    ensures var (end, sent) := Served(t, Server(k, 0, Sending), AcksFrom(k, last));
            && end.status.Completed? && |sent| == last + 1 - k
            && forall i :: 0 <= i < |sent| ==> sent[i] == PacketOf(t, k + i)
    decreases last - k
  {
    var events := AcksFrom(k, last);
    assert events[0] == Ack(Wire(k));
    if k < last {
      assert events[1..] == AcksFrom(k + 1, last);
      CleanFrom(t, k + 1, last);
    }
  }

  /** With every block acknowledged in turn, the transfer completes and has sent each block once, in order. */
  lemma CleanTransfer(t: Transfer)
    requires t.Valid()
    ensures var last := |t.file| / t.size + 1;
            var (end, sent) := Served(t, Start(), seq(last, i requires 0 <= i => Ack((1 + i) % 65536)));
            && end.status.Completed? && |sent| == last
            && forall i :: 0 <= i < last ==> IsBlock(t, sent[i], i + 1)
  {
    var last: Index := |t.file| / t.size + 1;
    forall n: Index | n <= last ensures IsLast(t, n) <==> n == last {
      BlockCount(t, n);
    }
    assert seq(last, i requires 0 <= i => Ack((1 + i) % 65536)) == AcksFrom(1, last);
    CleanFrom(t, 1, last);
    var sent := Served(t, Start(), AcksFrom(1, last)).1;
    forall i | 0 <= i < last ensures IsBlock(t, sent[i], i + 1) {
      PacketIsBlock(t, i + 1);
    }
  }

  // ----- When a transfer completes

  /** The first acknowledgement of the block is event w, and w is within the tries left. */
  predicate AnsweredAt(b: Index, left: nat, events: seq<Event>, w: nat) {
    && 1 <= w <= left && w <= |events| && events[w - 1] == Ack(Wire(b))
    && forall j :: 0 <= j < w - 1 ==> events[j] != Ack(Wire(b))
  }

  /** So it is for this block and, from the event after it, for each of the following ones. */
  ghost predicate Answered(t: Transfer, b: Index, left: nat, events: seq<Event>)
    decreases |events|, 1
  {
    exists w: nat :: AnsweredBy(t, b, left, events, w)
  }

  ghost predicate AnsweredBy(t: Transfer, b: Index, left: nat, events: seq<Event>, w: nat)
    decreases |events|, 0
  {
    AnsweredAt(b, left, events, w) && (IsLast(t, b) || Answered(t, b + 1, t.retries, events[w..]))
  }

  lemma Witness(t: Transfer, b: Index, left: nat, events: seq<Event>) returns (w: nat)
    requires Answered(t, b, left, events)
    ensures AnsweredAt(b, left, events, w) && (IsLast(t, b) || Answered(t, b + 1, t.retries, events[w..]))
  {
    w :| AnsweredBy(t, b, left, events, w);
  }

  lemma Conclude(t: Transfer, b: Index, left: nat, events: seq<Event>, w: nat)
    requires AnsweredAt(b, left, events, w) && (IsLast(t, b) || Answered(t, b + 1, t.retries, events[w..]))
    ensures Answered(t, b, left, events)
  {
    assert AnsweredBy(t, b, left, events, w);
  }

  /** An event that is not the acknowledgement uses up a try. */
  lemma TryIsUsedUp(t: Transfer, b: Index, left: nat, events: seq<Event>)
    requires events != [] && events[0] != Ack(Wire(b)) && left > 0
    ensures Answered(t, b, left, events) <==> Answered(t, b, left - 1, events[1..])
  {
    if Answered(t, b, left, events) {
      var w := Witness(t, b, left, events);
      assert events[1..][w - 1..] == events[w..];
      Conclude(t, b, left - 1, events[1..], w - 1);
    }
    if Answered(t, b, left - 1, events[1..]) {
      var w := Witness(t, b, left - 1, events[1..]);
      assert events[1..][w..] == events[w + 1..];
      Conclude(t, b, left, events, w + 1);
    }
  }

  lemma AnswerIsFirst(t: Transfer, b: Index, left: nat, events: seq<Event>)
    requires events != [] && events[0] == Ack(Wire(b)) && left > 0
    ensures Answered(t, b, left, events) <==> IsLast(t, b) || Answered(t, b + 1, t.retries, events[1..])
  {
    if Answered(t, b, left, events) {
      var w := Witness(t, b, left, events);
      assert w == 1;
    }
    if IsLast(t, b) || Answered(t, b + 1, t.retries, events[1..]) {
      Conclude(t, b, left, events, 1);
    }
  }

  lemma {:induction false} ServesExactly(t: Transfer, s: Server, events: seq<Event>)
    requires t.Valid() && s.status.Sending? && s.tries < t.retries
    ensures Served(t, s, events).0.status.Completed? <==> Answered(t, s.block, t.retries - s.tries, events)
    decreases |events|
  {
    if events != [] {
      if events[0] == Ack(Wire(s.block)) {
        AnswerIsFirst(t, s.block, t.retries - s.tries, events);
      } else {
        TryIsUsedUp(t, s.block, t.retries - s.tries, events);
      }
      if OnEvent(t, s, events[0]).status.Sending? {
        ServesExactly(t, OnEvent(t, s, events[0]), events[1..]);
      }
    }
  }

  /** A transfer completes exactly when each block's acknowledgement is among the first `retries` events of that block. */
  lemma CompletesExactly(t: Transfer, events: seq<Event>)
    requires t.Valid()
    ensures Served(t, Start(), events).0.status.Completed? <==> Answered(t, 1, t.retries, events)
  {
    ServesExactly(t, Start(), events);
  }

  lemma {:induction false} MissesEndIt(t: Transfer, s: Server, events: seq<Event>)
    requires s.status.Sending? && s.tries < t.retries && |events| >= t.retries - s.tries
    requires forall j :: 0 <= j < t.retries - s.tries ==> events[j] != Ack(Wire(s.block))
    ensures Served(t, s, events).0.status.TimedOut?
    decreases |events|
  {
    if s.tries + 1 < t.retries {
      MissesEndIt(t, s.(tries := s.tries + 1), events[1..]);
    }
  }

  /** Nothing is lost, and still the transfer ends: repeats of block 1's acknowledgement use up the tries of block 2. */
  lemma RepeatsEndTheTransfer(t: Transfer)
    requires t.Valid() && !IsLast(t, 1)
    ensures Served(t, Start(), seq(t.retries + 1, _ => Ack(Wire(1)))).0.status.TimedOut?
  {
    var events := seq(t.retries + 1, _ => Ack(Wire(1)));
    MissesEndIt(t, Server(2, 0, Sending), events[1..]);
  }

  /** The whole outcome, once these packets have already been sent. */
  ghost predicate Remains(t: Transfer, all: (Server, seq<Packet>), sent: seq<Packet>, s: Server, events: seq<Event>) {
    all == (Served(t, s, events).0, sent + Served(t, s, events).1)
  }

  lemma Transmit(t: Transfer, all: (Server, seq<Packet>), sent: seq<Packet>, s: Server, events: seq<Event>, next: nat)
    requires s.status.Sending? && next <= |events| && Remains(t, all, sent, s, events[next..])
    ensures next == |events| ==> all == (s, sent + [PacketOf(t, s.block)])
    ensures next < |events| ==> Remains(t, all, sent + [PacketOf(t, s.block)], OnEvent(t, s, events[next]), events[next + 1..])
    ensures next < |events| && !OnEvent(t, s, events[next]).status.Sending?
            ==> all == (OnEvent(t, s, events[next]), sent + [PacketOf(t, s.block)])
  {
    if next < |events| {
      assert events[next..][1..] == events[next + 1..];
      var rest := Served(t, OnEvent(t, s, events[next]), events[next + 1..]).1;
      var now := sent + [PacketOf(t, s.block)];
      assert sent + ([PacketOf(t, s.block)] + rest) == now + rest;
      assert now + [] == now;
    }
  }

  datatype Reply = Acked | Unanswered | ScriptOver

  /** Sends one block until it is acknowledged or the tries are used up. */
  method SendBlock(t: Transfer, ghost all: (Server, seq<Packet>), ghost n: Index, block: int, chunk: seq<Byte>,
                   events: seq<Event>, start: nat, before: seq<Packet>)
    returns (sent: seq<Packet>, next: nat, reply: Reply)
    requires t.Valid() && start <= |events| && Packet(block, chunk) == PacketOf(t, n)
    requires Remains(t, all, before, Server(n, 0, Sending), events[start..])
    ensures next <= |events|
    ensures reply.ScriptOver? ==> all.0.status.Sending? && all.1 == sent
    ensures reply.Unanswered? ==> all.0.status.TimedOut? && all.1 == sent
    ensures reply.Acked? && IsLast(t, n) ==> all.0.status.Completed? && all.1 == sent
    ensures reply.Acked? && !IsLast(t, n) ==> start < next && Remains(t, all, sent, Server(n + 1, 0, Sending), events[next..])
  {
    sent, next := before, start;
    var retry := 0;
    while retry < t.retries
      invariant 0 <= retry <= t.retries && start <= next <= |events|
      invariant retry < t.retries ==> Remains(t, all, sent, Server(n, retry, Sending), events[next..])
      invariant retry == t.retries ==> all == (Server(n, retry - 1, TimedOut), sent)
    {
      Transmit(t, all, sent, Server(n, retry, Sending), events, next);
      sent := sent + [Packet(block, chunk)];
      if next == |events| {
        return sent, next, ScriptOver;
      }
      var e := events[next];
      next := next + 1;
      if e == Ack(block) {
        return sent, next, Acked;
      }
      retry := retry + 1;
    }
    reply := Unanswered;
  }

  /**
   The transfer loop over a script of wait outcomes. It reads the file forward,
   keeps a 16-bit counter and retries each block; it returns the packets it put
   on the wire and how it stands when the script runs out.
   */
  method ServeTransfer(t: Transfer, events: seq<Event>) returns (sent: seq<Packet>, status: Status)
    requires t.Valid()
    ensures status == Served(t, Start(), events).0.status
    ensures sent == Served(t, Start(), events).1
  {
    var block := 1;
    var rest := t.file;
    var next := 0;
    sent := [];
    ghost var n: Index := 1;
    ghost var all := Served(t, Start(), events);
    assert events[0..] == events && [] + all.1 == all.1;
    while true
      invariant 0 <= next <= |events| && block == Wire(n) && rest == After(t, n - 1)
      invariant Remains(t, all, sent, Server(n, 0, Sending), events[next..])
      decreases |events| - next
    {
      var chunk := if |rest| <= t.size then rest else rest[..t.size];
      rest := if |rest| <= t.size then [] else rest[t.size..];
      var reply;
      sent, next, reply := SendBlock(t, all, n, block, chunk, events, next, sent);
      if reply.ScriptOver? {
        return sent, Sending;
      }
      if reply.Unanswered? {
        return sent, TimedOut;
      }
      if |chunk| < t.size {
        return sent, Completed;
      }
      block := (block + 1) % BLOCK_NUMBERS;
      n := n + 1;
    }
  }

  // ----- The receiver of RFC 1350

  datatype Receiver = Receiver(next: Index, got: seq<Byte>, done: bool)

  /** A packet in order is kept and acknowledged; a repeat of the previous one is acknowledged again. */
  function Accepts(r: Receiver, p: Packet): bool {
    !r.done && p.num == Wire(r.next)
  }

  predicate Repeats(r: Receiver, p: Packet) {
    r.next > 1 && p.num == Wire(r.next - 1)
  }

  function OnPacket(t: Transfer, r: Receiver, p: Packet): Receiver {
    if Accepts(r, p) then Receiver(r.next + 1, r.got + p.payload, |p.payload| < t.size) else r
  }

  /** What receiver and server agree on in every reachable state of either network. */
  predicate InStep(t: Transfer, s: Server, r: Receiver) {
    && r.got == Prefix(t, r.next - 1)
    && s.block <= r.next <= s.block + 1
    && (forall k: Index :: k < s.block ==> !IsLast(t, k))
    && (r.done <==> r.next > 1 && IsLast(t, r.next - 1))
    && (s.status.Completed? ==> IsLast(t, s.block) && r.next == s.block + 1)
  }

  lemma ReceiverHoldsPrefix(t: Transfer, s: Server, r: Receiver)
    requires InStep(t, s, r)
    ensures r.got <= t.file
    ensures r.done || s.status.Completed? ==> r.got == t.file
  {
    PrefixAndRest(t, r.next - 1);
    if r.done || s.status.Completed? {
      LastBlockCompletes(t, r.next - 1);
    }
  }

  lemma ReceiverStaysInStep(t: Transfer, s: Server, r: Receiver, n: Index)
    requires t.Valid() && InStep(t, s, r) && n <= s.block && (Accepts(r, PacketOf(t, n)) ==> n == r.next)
    ensures InStep(t, s, OnPacket(t, r, PacketOf(t, n)))
  {
  }

  lemma ServerStaysInStep(t: Transfer, s: Server, r: Receiver, e: Event)
    requires t.Valid() && InStep(t, s, r) && s.status.Sending? && (e == Ack(Wire(s.block)) ==> s.block < r.next)
    ensures InStep(t, OnEvent(t, s, e), r)
  {
  }

  // ----- A network that loses, duplicates and reorders

  /**
   Everything ever put on the wire may be delivered at any time, any number of
   times or never: `data` holds the blocks sent, `acks` the blocks acknowledged,
   with 0 for the acknowledgement of negotiated options.
   */
  datatype Loose = Loose(server: Server, receiver: Receiver, data: set<Index>, acks: set<nat>)

  datatype LooseStep = DeliverData(n: Index) | DeliverAck(a: nat) | Wait

  function LooseStart(negotiated: bool): Loose {
    Loose(Start(), Receiver(1, [], false), {1}, if negotiated then {0} else {})
  }

  predicate LooseEnabled(s: Loose, step: LooseStep) {
    match step
    case DeliverData(n) => n in s.data
    case DeliverAck(a) => a in s.acks && s.server.status.Sending?
    case Wait => s.server.status.Sending?
  }

  function Heard(t: Transfer, s: Loose, e: Event): Loose
    requires s.server.status.Sending?
  {
    var server := OnEvent(t, s.server, e);
    s.(server := server, data := if server.status.Sending? then s.data + {server.block} else s.data)
  }

  function LooseNext(t: Transfer, s: Loose, step: LooseStep): Loose
    requires LooseEnabled(s, step)
  {
    match step
    case DeliverData(n) =>
      var p := PacketOf(t, n);
      var r := OnPacket(t, s.receiver, p);
      s.(receiver := r, acks := if Accepts(s.receiver, p) || Repeats(s.receiver, p) then s.acks + {r.next - 1} else s.acks)
    case DeliverAck(a) => Heard(t, s, Ack(Wire(a)))
    case Wait => Heard(t, s, Silence)
  }

  predicate LooseRun(t: Transfer, s: Loose, steps: seq<LooseStep>)
    decreases |steps|
  {
    steps == [] || (LooseEnabled(s, steps[0]) && LooseRun(t, LooseNext(t, s, steps[0]), steps[1..]))
  }

  function LooseEnd(t: Transfer, s: Loose, steps: seq<LooseStep>): Loose
    requires LooseRun(t, s, steps)
    decreases |steps|
  {
    if steps == [] then s else LooseEnd(t, LooseNext(t, s, steps[0]), steps[1..])
  }

  /** The longest file the unordered network is good for, in blocks. */
  function Limit(negotiated: bool): nat {
    if negotiated then BLOCK_NUMBERS - 1 else BLOCK_NUMBERS
  }

  ghost predicate LooseInv(t: Transfer, s: Loose, negotiated: bool) {
    && InStep(t, s.server, s.receiver)
    && (forall n :: n in s.data ==> n <= s.server.block)
    && (forall a :: a in s.acks ==> a < s.receiver.next && (a == 0 ==> negotiated))
  }

  lemma SameNumberSameBlock(a: nat, b: nat, negotiated: bool)
    requires Wire(a) == Wire(b) && a <= Limit(negotiated) && 1 <= b <= Limit(negotiated) && (a == 0 ==> negotiated)
    ensures a == b
  {
  }

  lemma LooseStepKeeps(t: Transfer, s: Loose, step: LooseStep, negotiated: bool, blocks: Index)
    requires t.Valid() && Blocks(t, blocks) && blocks <= Limit(negotiated)
    requires LooseInv(t, s, negotiated) && LooseEnabled(s, step)
    ensures LooseInv(t, LooseNext(t, s, step), negotiated)
  {
    assert s.server.block <= blocks;
    match step
    case DeliverData(n) =>
      if Accepts(s.receiver, PacketOf(t, n)) {
        SameNumberSameBlock(n, s.receiver.next, false);
      }
      ReceiverStaysInStep(t, s.server, s.receiver, n);
    case DeliverAck(a) =>
      if Wire(a) == Wire(s.server.block) {
        SameNumberSameBlock(a, s.server.block, negotiated);
      }
      ServerStaysInStep(t, s.server, s.receiver, Ack(Wire(a)));
    case Wait =>
      ServerStaysInStep(t, s.server, s.receiver, Silence);
  }

  lemma {:induction false} LooseRunKeeps(t: Transfer, s: Loose, steps: seq<LooseStep>, negotiated: bool, blocks: Index)
    requires t.Valid() && Blocks(t, blocks) && blocks <= Limit(negotiated)
    requires LooseInv(t, s, negotiated) && LooseRun(t, s, steps)
    ensures LooseInv(t, LooseEnd(t, s, steps), negotiated)
    decreases |steps|
  {
    if steps != [] {
      LooseStepKeeps(t, s, steps[0], negotiated, blocks);
      LooseRunKeeps(t, LooseNext(t, s, steps[0]), steps[1..], negotiated, blocks);
    }
  }

  /** The receiver holds a prefix of the file, and all of it once either side takes the transfer for finished. */
  predicate Intact(t: Transfer, s: Loose) {
    && s.receiver.got <= t.file
    && (s.receiver.done ==> s.receiver.got == t.file)
    && (s.server.status.Completed? ==> s.receiver.done && s.receiver.got == t.file)
  }

  /** Up to the limit, whatever the network does, the transfer stays intact. */
  lemma UnorderedTransferIsSafe(t: Transfer, steps: seq<LooseStep>, negotiated: bool, blocks: Index)
    requires t.Valid() && Blocks(t, blocks) && blocks <= Limit(negotiated)
    requires LooseRun(t, LooseStart(negotiated), steps)
    ensures Intact(t, LooseEnd(t, LooseStart(negotiated), steps))
  {
    LooseRunKeeps(t, LooseStart(negotiated), steps, negotiated, blocks);
    var end := LooseEnd(t, LooseStart(negotiated), steps);
    ReceiverHoldsPrefix(t, end.server, end.receiver);
  }

  // ----- Past the limit the unordered network does confuse blocks

  lemma {:induction false} LooseRunJoin(t: Transfer, s: Loose, a: seq<LooseStep>, b: seq<LooseStep>)
    requires LooseRun(t, s, a) && LooseRun(t, LooseEnd(t, s, a), b)
    ensures LooseRun(t, s, a + b) && LooseEnd(t, s, a + b) == LooseEnd(t, LooseEnd(t, s, a), b)
    decreases |a|
  {
    if a == [] {
      assert a + b == b;
    } else {
      assert (a + b)[1..] == a[1..] + b;
      LooseRunJoin(t, LooseNext(t, s, a[0]), a[1..], b);
    }
  }

  lemma LooseTwo(t: Transfer, s: Loose, a: LooseStep, b: LooseStep)
    requires LooseEnabled(s, a) && LooseEnabled(LooseNext(t, s, a), b)
    ensures LooseRun(t, s, [a, b]) && LooseEnd(t, s, [a, b]) == LooseNext(t, LooseNext(t, s, a), b)
  {
    var next := LooseNext(t, s, a);
    assert [a, b][1..] == [b] && [b][1..] == [];
    assert LooseEnd(t, next, [b]) == LooseEnd(t, LooseNext(t, next, b), []);
  }

  /** An undisturbed exchange of the first n blocks. */
  lemma {:induction false} Undisturbed(t: Transfer, n: nat, negotiated: bool) returns (steps: seq<LooseStep>)
    requires t.Valid() && forall k: Index :: k <= n ==> !IsLast(t, k)
    ensures LooseRun(t, LooseStart(negotiated), steps)
    ensures var end := LooseEnd(t, LooseStart(negotiated), steps);
            && end.server == Server(n + 1, 0, Sending) && end.receiver == Receiver(n + 1, Prefix(t, n), false)
            && (forall k: Index :: k <= n + 1 ==> k in end.data) && (negotiated ==> 0 in end.acks)
  {
    if n == 0 {
      steps := [];
    } else {
      var before := Undisturbed(t, n - 1, negotiated);
      var s := LooseEnd(t, LooseStart(negotiated), before);
      assert !IsLast(t, n);
      LooseTwo(t, s, DeliverData(n), DeliverAck(n));
      LooseRunJoin(t, LooseStart(negotiated), before, [DeliverData(n), DeliverAck(n)]);
      steps := before + [DeliverData(n), DeliverAck(n)];
    }
  }

  /** One block too many: the full block 65536 places earlier passes for the short last one. */
  lemma StaleBlockIsAccepted(t: Transfer, blocks: Index, negotiated: bool) returns (steps: seq<LooseStep>)
    requires t.Valid() && Blocks(t, blocks) && blocks > BLOCK_NUMBERS
    ensures LooseRun(t, LooseStart(negotiated), steps)
    ensures |LooseEnd(t, LooseStart(negotiated), steps).receiver.got| > |t.file|
  {
    var twin: Index := blocks - BLOCK_NUMBERS;
    var before := Undisturbed(t, blocks - 1, negotiated);
    var s := LooseEnd(t, LooseStart(negotiated), before);
    var stale := [DeliverData(twin)];
    assert stale[1..] == [] && Wire(twin) == Wire(blocks);
    LooseRunJoin(t, LooseStart(negotiated), before, stale);
    steps := before + stale;
    assert LooseEnd(t, s, stale).receiver.got == Prefix(t, blocks - 1) + Chunk(t, twin);
    assert !IsLast(t, twin);
    LastBlockCompletes(t, blocks);
  }

  /** With options negotiated, a stale acknowledgement of them passes for block 65536 and ends the transfer early. */
  lemma StaleOptionAckCompletes(t: Transfer) returns (steps: seq<LooseStep>)
    requires t.Valid() && Blocks(t, BLOCK_NUMBERS)
    ensures LooseRun(t, LooseStart(true), steps)
    ensures var end := LooseEnd(t, LooseStart(true), steps);
            end.server.status.Completed? && !end.receiver.done && end.receiver.got == Prefix(t, BLOCK_NUMBERS - 1)
  {
    var before := Undisturbed(t, BLOCK_NUMBERS - 1, true);
    var stale := [DeliverAck(0)];
    assert stale[1..] == [];
    LooseRunJoin(t, LooseStart(true), before, stale);
    steps := before + stale;
  }

  /** The unordered network keeps every run of this transfer intact. */
  ghost predicate SafeUnordered(t: Transfer, negotiated: bool) {
    forall steps :: LooseRun(t, LooseStart(negotiated), steps) ==> Intact(t, LooseEnd(t, LooseStart(negotiated), steps))
  }

  /** Over all runs, the transfer is safe exactly up to the limit, whatever the file holds. */
  lemma SafeUnorderedExactly(t: Transfer, negotiated: bool, blocks: Index)
    requires t.Valid() && Blocks(t, blocks)
    ensures SafeUnordered(t, negotiated) <==> blocks <= Limit(negotiated)
  {
    if blocks <= Limit(negotiated) {
      forall steps | LooseRun(t, LooseStart(negotiated), steps)
        ensures Intact(t, LooseEnd(t, LooseStart(negotiated), steps))
      {
        UnorderedTransferIsSafe(t, steps, negotiated, blocks);
      }
    } else if blocks > BLOCK_NUMBERS {
      var steps := StaleBlockIsAccepted(t, blocks, negotiated);
      assert !Intact(t, LooseEnd(t, LooseStart(negotiated), steps));
    } else {
      var steps := StaleOptionAckCompletes(t);
      assert !Intact(t, LooseEnd(t, LooseStart(negotiated), steps));
    }
  }

  // ----- A lossy FIFO, for files of any length

  /** Blocks and acknowledgements in flight, oldest first. */
  datatype Fifo = Fifo(server: Server, receiver: Receiver, data: seq<Index>, acks: seq<nat>)

  datatype FifoStep = TakeData | TakeAck | Timeout | LoseData(i: nat) | LoseAck(i: nat)

  function Without<T>(q: seq<T>, i: nat): seq<T>
    requires i < |q|
  {
    q[..i] + q[i + 1..]
  }

  predicate FifoEnabled(s: Fifo, step: FifoStep) {
    match step
    case TakeData => s.data != []
    case TakeAck => s.acks != [] && s.server.status.Sending?
    case Timeout => s.server.status.Sending?
    case LoseData(i) => i < |s.data|
    case LoseAck(i) => i < |s.acks|
  }

  function FifoHeard(t: Transfer, s: Fifo, e: Event): Fifo
    requires s.server.status.Sending?
  {
    var server := OnEvent(t, s.server, e);
    s.(server := server, data := if server.status.Sending? then s.data + [server.block] else s.data)
  }

  function FifoNext(t: Transfer, s: Fifo, step: FifoStep): Fifo
    requires FifoEnabled(s, step)
  {
    match step
    case TakeData =>
      var p := PacketOf(t, s.data[0]);
      var r := OnPacket(t, s.receiver, p);
      s.(receiver := r, data := s.data[1..],
         acks := if Accepts(s.receiver, p) || Repeats(s.receiver, p) then s.acks + [r.next - 1] else s.acks)
    case TakeAck => FifoHeard(t, s.(acks := s.acks[1..]), Ack(Wire(s.acks[0])))
    case Timeout => FifoHeard(t, s, Silence)
    case LoseData(i) => s.(data := Without(s.data, i))
    case LoseAck(i) => s.(acks := Without(s.acks, i))
  }

  predicate FifoRun(t: Transfer, s: Fifo, steps: seq<FifoStep>)
    decreases |steps|
  {
    steps == [] || (FifoEnabled(s, steps[0]) && FifoRun(t, FifoNext(t, s, steps[0]), steps[1..]))
  }

  function FifoEnd(t: Transfer, s: Fifo, steps: seq<FifoStep>): Fifo
    requires FifoRun(t, s, steps)
    decreases |steps|
  {
    if steps == [] then s else FifoEnd(t, FifoNext(t, s, steps[0]), steps[1..])
  }

  /** Block 1 is on its way; leftover acknowledgements of the options may still be, too. */
  predicate FifoStart(s: Fifo) {
    s.server == Start() && s.receiver == Receiver(1, [], false) && s.data == [1] && forall i :: 0 <= i < |s.acks| ==> s.acks[i] == 0
  }

  predicate Between(q: seq<int>, low: int, high: int) {
    && (forall i :: 0 <= i < |q| ==> low <= q[i] <= high)
    && (forall i, j :: 0 <= i < j < |q| ==> q[i] <= q[j])
  }

  predicate FifoInv(t: Transfer, s: Fifo) {
    && InStep(t, s.server, s.receiver)
    && Between(s.data, s.receiver.next - 1, s.server.block)
    && Between(s.acks, s.server.block - 1, s.receiver.next - 1)
  }

  lemma NeighboursDiffer(n: nat)
    ensures Wire(n) != Wire(n + 1)
  {
  }

  lemma QueueGrows(q: seq<int>, low: int, high: int, high': int)
    requires Between(q, low, high) && low <= high' && high <= high'
    ensures Between(q, low, high') && Between(q + [high'], low, high')
  {
  }

  lemma QueueTakes(q: seq<int>, low: int, high: int)
    requires Between(q, low, high) && q != []
    ensures Between(q[1..], q[0], high) && low <= q[0] <= high
  {
  }

  lemma QueueLoses(q: seq<int>, low: int, high: int, i: nat)
    requires Between(q, low, high) && i < |q|
    ensures Between(Without(q, i), low, high)
  {
  }

  lemma TakeDataKeeps(t: Transfer, s: Fifo)
    requires t.Valid() && FifoInv(t, s) && s.data != []
    ensures FifoInv(t, FifoNext(t, s, TakeData))
  {
    var n := s.data[0];
    var e: int := s.receiver.next;
    NeighboursDiffer(e - 1);
    QueueTakes(s.data, e - 1, s.server.block);
    ReceiverStaysInStep(t, s.server, s.receiver, n);
    var r := OnPacket(t, s.receiver, PacketOf(t, n));
    QueueGrows(s.acks, s.server.block - 1, e - 1, r.next - 1);
    assert r.next - 1 <= n;
  }

  lemma HeardKeeps(t: Transfer, s: Fifo, e: Event)
    requires t.Valid() && FifoInv(t, s) && s.server.status.Sending?
    requires e == Ack(Wire(s.server.block)) ==> s.server.block < s.receiver.next && Between(s.acks, s.server.block, s.receiver.next - 1)
    ensures FifoInv(t, FifoHeard(t, s, e))
  {
    ServerStaysInStep(t, s.server, s.receiver, e);
    QueueGrows(s.data, s.receiver.next - 1, s.server.block, OnEvent(t, s.server, e).block);
  }

  lemma TakeAckKeeps(t: Transfer, s: Fifo)
    requires t.Valid() && FifoInv(t, s) && s.acks != [] && s.server.status.Sending?
    ensures FifoInv(t, FifoNext(t, s, TakeAck))
  {
    NeighboursDiffer(s.server.block - 1);
    QueueTakes(s.acks, s.server.block - 1, s.receiver.next - 1);
    HeardKeeps(t, s.(acks := s.acks[1..]), Ack(Wire(s.acks[0])));
  }

  lemma FifoStepKeeps(t: Transfer, s: Fifo, step: FifoStep)
    requires t.Valid() && FifoInv(t, s) && FifoEnabled(s, step)
    ensures FifoInv(t, FifoNext(t, s, step))
  {
    match step
    case TakeData => TakeDataKeeps(t, s);
    case TakeAck => TakeAckKeeps(t, s);
    case Timeout => HeardKeeps(t, s, Silence);
    case LoseData(i) => QueueLoses(s.data, s.receiver.next - 1, s.server.block, i);
    case LoseAck(i) => QueueLoses(s.acks, s.server.block - 1, s.receiver.next - 1, i);
  }

  lemma {:induction false} FifoRunKeeps(t: Transfer, s: Fifo, steps: seq<FifoStep>)
    requires t.Valid() && FifoInv(t, s) && FifoRun(t, s, steps)
    ensures FifoInv(t, FifoEnd(t, s, steps))
    decreases |steps|
  {
    if steps != [] {
      FifoStepKeeps(t, s, steps[0]);
      FifoRunKeeps(t, FifoNext(t, s, steps[0]), steps[1..]);
    }
  }

  /** In order, the 16-bit counter may wrap any number of times. */
  lemma FifoTransferIsSafe(t: Transfer, s: Fifo, steps: seq<FifoStep>)
    requires t.Valid() && FifoStart(s) && FifoRun(t, s, steps)
    ensures var end := FifoEnd(t, s, steps);
            && end.receiver.got <= t.file
            && (end.receiver.done ==> end.receiver.got == t.file)
            && (end.server.status.Completed? ==> end.receiver.done && end.receiver.got == t.file)
  {
    FifoRunKeeps(t, s, steps);
    var end := FifoEnd(t, s, steps);
    ReceiverHoldsPrefix(t, end.server, end.receiver);
  }
}
