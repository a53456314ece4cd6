/**
 Claims on one enrolled bare-metal host. Deploy, retry and release handlers read
 the host and the machine at different times and then commit both rows at once,
 fenced by owner, state and revision. A second installation may wipe the only
 copy of the host identity, so it needs recorded proof that the first one wrote
 the disk. Any number of handlers, events and other writers interleave.
 */
module BareMetalClaims {
  import opened Options

  datatype HostState = Available | Claimed | Deploying | Ready | Releasing | Failed

  /** `owner` and `attemptId` are "" when unset. */
  datatype Host = Host(owner: string, state: HostState, revision: int, attemptId: string)

  datatype MachinePhase = PhaseReady | PhaseProvisioning | PhaseError

  datatype Progress = Progress(active: bool, attemptId: string, token: string, completed: bool, imageApplied: bool)

  datatype Sealed = Sealed(owner: string, cleanup: bool)

  datatype Machine = Machine(phase: MachinePhase, provision: Option<Progress>, sealed: Option<Sealed>)

  // ----- Decisions

  /** `capi-` and one to 123 lower-case letters, digits or dashes. */
  predicate ValidOwner(owner: string) {
    && 6 <= |owner| <= 128 && owner[..5] == "capi-"
    && forall i :: 5 <= i < |owner| ==> 'a' <= owner[i] <= 'z' || '0' <= owner[i] <= '9' || owner[i] == '-'
  }

  predicate TransitionAllowed(h: Host, next: HostState, attempt: string) {
    && h.owner != "" && (h.attemptId != "" ==> attempt == h.attemptId)
    && match next
       case Deploying => h.state.Claimed? && attempt != ""
       case Ready => h.state.Deploying? && attempt != ""
       case Failed => h.state.Claimed? || h.state.Deploying? || h.state.Releasing?
       case Releasing => h.state.Claimed? || h.state.Deploying? || h.state.Ready? || h.state.Failed?
       case _ => false
  }

  /** A fresh attempt: new id and token, nothing applied yet. */
  function Reinstalled(m: Machine, attempt: string, token: string): Machine {
    m.(phase := PhaseProvisioning, provision := Some(Progress(true, attempt, token, false, false)))
  }

  predicate ImageApplied(m: Machine) {
    m.provision.Some? && m.provision.value.imageApplied
  }

  predicate DeployGuard(h: Host) {
    h.state.Claimed?
  }

  predicate RetryGuard(h: Host, m: Machine, attempt: string) {
    && attempt != "" && h.attemptId == attempt && m.provision.Some? && m.provision.value.attemptId == attempt
    && m.sealed.Some? && m.sealed.value.owner == h.owner
    && ((h.state.Failed? && !m.provision.value.active && m.phase == PhaseError) ||
        (h.state.Deploying? && m.provision.value.active && m.phase == PhaseProvisioning && m.provision.value.imageApplied))
    && m.provision.value.imageApplied
  }

  predicate ReleaseGuard(h: Host, m: Machine) {
    && !h.state.Releasing? && !h.state.Claimed? && ImageApplied(m)
    && !(m.sealed.Some? && m.sealed.value.cleanup && (h.state.Failed? || m.phase == PhaseError))
  }

  // ----- Store calls, each one statement or transaction

  predicate CommitAccepted(host: Host, h: Host, m: Machine) {
    && h.owner != "" && m.provision.Some? && m.provision.value.active && m.provision.value.attemptId != ""
    && m.sealed.Some? && m.sealed.value.owner == h.owner
    && (if m.sealed.value.cleanup then !h.state.Available? && !h.state.Releasing?
        else h.state.Claimed? || h.state.Failed? || h.state.Deploying?)
    && host.owner == h.owner && host.state == h.state && host.revision == h.revision
  }

  function CommittedHost(host: Host, m: Machine): Host
    requires m.provision.Some? && m.sealed.Some?
  {
    host.(state := if m.sealed.value.cleanup then Releasing else Deploying,
          attemptId := m.provision.value.attemptId, revision := host.revision + 1)
  }

  function AttemptOf(m: Machine): string {
    if m.provision.Some? then m.provision.value.attemptId else ""
  }

  /** Machine writes are refused while the host is owned under another attempt. */
  predicate UpsertAccepted(host: Host, m: Machine) {
    !(host.owner != "" && host.attemptId != AttemptOf(m))
  }

  class ClaimStore {
    var host: Host
    var machine: Machine

    constructor (m: Machine)
      ensures host == Host("", Available, 1, "") && machine == m
    {
      host := Host("", Available, 1, "");
      machine := m;
    }

    /** Asking again for a host one already owns succeeds and changes nothing. */
    method Acquire(owner: string) returns (ok: bool)
      modifies this`host
      ensures ok <==> ValidOwner(owner) && (old(host).owner == owner || (old(host).owner == "" && old(host).state.Available?))
      ensures host == if ok && old(host).owner == "" then old(host).(owner := owner, state := Claimed, revision := old(host).revision + 1)
                      else old(host)
    {
      if !ValidOwner(owner) {
        return false;
      }
      if host.owner == owner {
        return true;
      }
      if host.owner != "" || !host.state.Available? {
        return false;
      }
      host := host.(owner := owner);
      host := host.(state := Claimed, revision := host.revision + 1);
      return true;
    }

    method Transition(h: Host, next: HostState, attempt: string) returns (ok: bool)
      modifies this`host
      ensures ok <==> TransitionAllowed(h, next, attempt) && old(host) == h
      ensures host == if ok then h.(state := next, attemptId := attempt, revision := h.revision + 1) else old(host)
    {
      if !TransitionAllowed(h, next, attempt) {
        return false;
      }
      if host.owner != h.owner || host.revision != h.revision || host.state != h.state || host.attemptId != h.attemptId {
        return false;
      }
      host := host.(state := next);
      host := host.(attemptId := attempt, revision := host.revision + 1);
      return true;
    }

    method CompleteRelease(h: Host) returns (ok: bool)
      modifies this`host
      ensures ok <==> h.owner != "" && h.state.Releasing?
                      && old(host).owner == h.owner && old(host).state.Releasing? && old(host).revision == h.revision
      ensures host == if ok then Host("", Available, old(host).revision + 1, "") else old(host)
    {
      if !h.state.Releasing? || h.owner == "" {
        return false;
      }
      if host.owner != h.owner || host.revision != h.revision || !host.state.Releasing? {
        return false;
      }
      host := Host("", Available, host.revision + 1, "");
      return true;
    }

    /** Publishes the attempt and its fence together. */
    method CommitDeployment(h: Host, m: Machine) returns (ok: bool)
      modifies this
      ensures ok <==> CommitAccepted(old(host), h, m)
      ensures ok ==> host == CommittedHost(old(host), m) && machine == m
      ensures !ok ==> host == old(host) && machine == old(machine)
    {
      if h.owner == "" || m.provision.None? || !m.provision.value.active || m.provision.value.attemptId == "" || m.sealed.None? || m.sealed.value.owner != h.owner {
        return false;
      }
      var next := Deploying;
      if m.sealed.value.cleanup {
        if h.state.Available? || h.state.Releasing? {
          return false;
        }
        next := Releasing;
      } else if !h.state.Claimed? && !h.state.Failed? && !h.state.Deploying? {
        return false;
      }
      if host.owner != h.owner || host.state != h.state || host.revision != h.revision {
        return false;
      }
      host := host.(state := next, attemptId := m.provision.value.attemptId, revision := host.revision + 1);
      machine := m;
      return true;
    }

    method UpsertMachine(m: Machine) returns (ok: bool)
      modifies this`machine
      ensures ok <==> UpsertAccepted(host, m)
      ensures machine == if ok then m else old(machine)
    {
      var attemptId := "";
      if m.provision.Some? {
        attemptId := m.provision.value.attemptId;
      }
      if host.owner != "" && host.attemptId != attemptId {
        return false;
      }
      machine := m;
      return true;
    }
  }

  // ----- Interleaved requests

  datatype Kind = DeployClaim | RetryClaim(attempt: string) | ReleaseClaim

  datatype Work =
    | Handler(kind: Kind, owner: string, host: Option<Host>, machine: Option<Machine>)
    | Writer(machine: Option<Machine>)                               // timeouts, completion and other status writers
    | Event(attempt: string, token: string, machine: Option<Machine>)  // image_applied

  /** What the history remembers: claims, committed attempts and recorded evidence. */
  datatype Entry = Acquired | Committed(attempt: string, token: string) | Applied(attempt: string, token: string)

  datatype System = System(host: Host, machine: Machine, work: map<nat, Work>, used: set<string>, log: seq<Entry>)

  datatype Step =
    | Start(id: nat, item: Work)
    | LoadHost(id: nat)
    | LoadMachine(id: nat)
    | Commit(id: nat, attempt: string, token: string)
    | Store(id: nat, phase: MachinePhase, active: bool, completed: bool)
    | Reinstall(attempt: string, token: string)
    | Acquire(owner: string)
    | Move(next: HostState)
    | Complete

  predicate FreshWork(w: Work) {
    match w
    case Handler(_, _, h, m) => h.None? && m.None?
    case Writer(m) => m.None?
    case Event(_, _, m) => m.None?
  }

  predicate GuardHolds(w: Work)
    requires w.Handler? && w.host.Some? && w.machine.Some?
  {
    match w.kind
    case DeployClaim => DeployGuard(w.host.value)
    case RetryClaim(attempt) => RetryGuard(w.host.value, w.machine.value, attempt)
    case ReleaseClaim => ReleaseGuard(w.host.value, w.machine.value)
  }

  predicate Enabled(s: System, step: Step) {
    match step
    case Start(id, item) => id !in s.work && FreshWork(item)
    case LoadHost(id) => id in s.work && s.work[id].Handler? && s.work[id].host.None? && s.host.owner == s.work[id].owner && s.host.owner != ""
    case LoadMachine(id) =>
      && id in s.work && s.work[id].machine.None?
      && (s.work[id].Handler? ==> s.work[id].host.Some?)
      && (s.work[id].Event? ==> EventAccepted(s.machine, s.work[id].attempt, s.work[id].token))
    case Commit(id, attempt, _) =>
      && id in s.work && s.work[id].Handler? && s.work[id].host.Some? && s.work[id].machine.Some?
      && GuardHolds(s.work[id]) && attempt !in s.used && attempt != ""
    case Store(id, _, _, _) => id in s.work && !s.work[id].Handler? && s.work[id].machine.Some?
    case Reinstall(attempt, _) => attempt !in s.used && attempt != ""
    case Acquire(owner) => owner != "" && s.host.owner == "" && s.host.state.Available?
    case Move(next) => TransitionAllowed(s.host, next, s.host.attemptId)
    case Complete => s.host.owner != "" && s.host.state.Releasing?
  }

  /** The event fence: the attempt and token must be the stored ones; late evidence is kept for sealed attempts only. */
  predicate EventAccepted(m: Machine, attempt: string, token: string) {
    && m.provision.Some? && m.provision.value.attemptId == attempt && m.provision.value.token == token
    && (m.provision.value.active || (m.sealed.Some? && m.sealed.value.owner != ""))
  }

  /** The machine a handler asks the store to commit. */
  function Prepared(w: Work, attempt: string, token: string): Machine
    requires w.Handler? && w.host.Some? && w.machine.Some?
  {
    var m := match w.kind
             case DeployClaim => w.machine.value.(sealed := Some(Sealed(w.host.value.owner, false)))
             case RetryClaim(_) => w.machine.value
             case ReleaseClaim => w.machine.value.(sealed := Some(Sealed(w.host.value.owner, true)));
    Reinstalled(m, attempt, token)
  }

  /** The machine a writer or an event writes back. */
  function Stored(w: Work, step: Step): Machine
    requires !w.Handler? && w.machine.Some? && step.Store?
  {
    var m := w.machine.value;
    if m.provision.None? then m.(phase := step.phase)
    else
      var p := m.provision.value;
      if w.Event? then m.(provision := Some(p.(imageApplied := true)))
      else m.(phase := step.phase, provision := Some(p.(active := step.active, completed := step.completed)))
  }

  function Next(s: System, step: Step): System
    requires Enabled(s, step)
  {
    match step
    case Start(id, item) => s.(work := s.work[id := item])
    case LoadHost(id) => s.(work := s.work[id := s.work[id].(host := Some(s.host))])
    case LoadMachine(id) => s.(work := s.work[id := s.work[id].(machine := Some(s.machine))])
    case Commit(id, attempt, token) =>
      var m := Prepared(s.work[id], attempt, token);
      var rest := s.(work := s.work - {id}, used := s.used + {attempt});
      if CommitAccepted(s.host, s.work[id].host.value, m)
      then rest.(host := CommittedHost(s.host, m), machine := m, log := s.log + [Committed(attempt, token)])
      else rest
    case Store(id, _, _, _) =>
      var w := s.work[id];
      var m := Stored(w, step);
      var rest := s.(work := s.work - {id});
      if UpsertAccepted(s.host, m)
      then rest.(machine := m, log := if w.Event? then s.log + [Applied(w.attempt, w.token)] else s.log)
      else rest
    case Reinstall(attempt, token) =>
      var m := Reinstalled(s.machine, attempt, token);
      var rest := s.(used := s.used + {attempt});
      if UpsertAccepted(s.host, m) then rest.(machine := m) else rest
    case Acquire(owner) =>
      s.(host := s.host.(owner := owner, state := Claimed, revision := s.host.revision + 1), log := s.log + [Acquired])
    case Move(next) => s.(host := s.host.(state := next, revision := s.host.revision + 1))
    case Complete => s.(host := Host("", Available, s.host.revision + 1, ""))
  }

  predicate ValidRun(s: System, steps: seq<Step>)
    decreases |steps|
  {
    steps == [] || (Enabled(s, steps[0]) && ValidRun(Next(s, steps[0]), steps[1..]))
  }

  function Run(s: System, steps: seq<Step>): System
    requires ValidRun(s, steps)
    decreases |steps|
  {
    if steps == [] then s else Run(Next(s, steps[0]), steps[1..])
  }

  // ----- What a commit publishes

  /** A commit moves the host to its new attempt, and nothing read before it can be committed again. */
  lemma CommitExactly(host: Host, h: Host, m: Machine, other: Machine)
    requires CommitAccepted(host, h, m)
    ensures var next := CommittedHost(host, m);
            && next == Host(host.owner, if m.sealed.value.cleanup then Releasing else Deploying,
                            host.revision + 1, m.provision.value.attemptId)
            && !CommitAccepted(next, h, other)
  {
  }

  /** While the host is being released nothing can be committed; only its release can be completed or fail. */
  lemma ReleasingIsClosed(host: Host, h: Host, m: Machine, next: HostState, attempt: string)
    requires host.state.Releasing?
    ensures !CommitAccepted(host, h, m)
    ensures TransitionAllowed(host, next, attempt) ==> next.Failed?
  {
  }

  /** A deployed host becomes ready under the attempt that was committed, and under no other. */
  lemma ReadyUnderItsAttempt(host: Host, h: Host, m: Machine, attempt: string)
    requires CommitAccepted(host, h, m) && !m.sealed.value.cleanup
    ensures TransitionAllowed(CommittedHost(host, m), Ready, attempt) <==> attempt == m.provision.value.attemptId
  {
  }

  /** Which handlers may commit, by the state of the host and what the machine reports. */
  lemma GuardsExactly(h: Host, m: Machine, attempt: string)
    ensures DeployGuard(h) <==> h.state == Claimed
    ensures RetryGuard(h, m, attempt) <==>
              && attempt != "" && h.attemptId == attempt && m.sealed.Some? && m.sealed.value.owner == h.owner
              && m.provision.Some? && m.provision.value.attemptId == attempt && m.provision.value.imageApplied
              && (if m.provision.value.active then h.state == Deploying && m.phase == PhaseProvisioning
                  else h.state == Failed && m.phase == PhaseError)
    ensures ReleaseGuard(h, m) <==>
              && h.state in {Available, Deploying, Ready, Failed} && m.provision.Some? && m.provision.value.imageApplied
              && (m.sealed.Some? && m.sealed.value.cleanup ==> h.state != Failed && m.phase != PhaseError)
  {
  }

  /** Which moves of a claimed host are legal, under the attempt it has. */
  lemma TransitionsExactly(h: Host, next: HostState, attempt: string)
    ensures TransitionAllowed(h, next, attempt) <==>
              && h.owner != "" && (h.attemptId == "" || h.attemptId == attempt)
              && (next in {Deploying, Ready} ==> attempt != "")
              && (h.state, next) in {(Claimed, Deploying), (Deploying, Ready),
                                     (Claimed, Failed), (Deploying, Failed), (Releasing, Failed),
                                     (Claimed, Releasing), (Deploying, Releasing), (Ready, Releasing), (Failed, Releasing)}
  {
  }

  /** Which commits the store takes: an active attempt sealed for the owner, from the state and revision that were read. */
  lemma CommitAcceptedExactly(host: Host, h: Host, m: Machine)
    ensures CommitAccepted(host, h, m) <==>
              && m.sealed.Some? && m.provision.Some? && m.provision.value.active && m.provision.value.attemptId != ""
              && h.owner != "" && (host.owner, host.state, host.revision) == (h.owner, h.state, h.revision) && m.sealed.value.owner == h.owner
              && h.state in (if m.sealed.value.cleanup then {Claimed, Deploying, Ready, Failed} else {Claimed, Deploying, Failed})
  {
  }

  /** Which image-applied events are taken: those of the stored attempt, and late ones only for a sealed claim. */
  lemma EventsExactly(m: Machine, attempt: string, token: string)
    ensures EventAccepted(m, attempt, token) <==>
              && m.provision.Some? && (attempt, token) == (m.provision.value.attemptId, m.provision.value.token)
              && (!m.provision.value.active ==> m.sealed.Some? && m.sealed.value.owner != "")
  {
  }

  /** A committed machine starts over: a new attempt in progress, with nothing applied and nothing completed. */
  lemma CommittedIsFresh(w: Work, attempt: string, token: string)
    requires w.Handler? && w.host.Some? && w.machine.Some?
    ensures var m := Prepared(w, attempt, token);
            && m.phase == PhaseProvisioning && m.provision == Some(Progress(true, attempt, token, false, false))
            && (w.kind.DeployClaim? || w.kind.ReleaseClaim? ==> m.sealed == Some(Sealed(w.host.value.owner, w.kind.ReleaseClaim?)))
            && (w.kind.RetryClaim? ==> m.sealed == w.machine.value.sealed)
  {
  }

  /** Owner names: a fixed prefix and up to 123 characters of a small alphabet. */
  lemma OwnersExactly(owner: string)
    ensures ValidOwner(owner) <==>
            exists rest :: owner == "capi-" + rest && 1 <= |rest| <= 123 &&
              forall i :: 0 <= i < |rest| ==> rest[i] == '-' || '0' <= rest[i] <= '9' || 'a' <= rest[i] <= 'z'
  {
    if ValidOwner(owner) {
      assert owner == "capi-" + owner[5..];
    }
  }

  // ----- The evidence rule

  /** Entry i is the latest commit of the claim in progress. */
  ghost predicate Current(log: seq<Entry>, i: int) {
    0 <= i < |log| && log[i].Committed? && forall k :: i < k < |log| ==> log[k].Applied?
  }

  ghost predicate AppliedBetween(log: seq<Entry>, i: int, j: int)
    requires 0 <= i < j <= |log| && log[i].Committed?
  {
    exists k :: i < k < j && log[k] == Applied(log[i].attempt, log[i].token)
  }

  /** Between consecutive commits of one claim, the first one's image was recorded as applied. */
  ghost predicate EvidenceRule(log: seq<Entry>) {
    forall i, j :: 0 <= i < j < |log| && log[i].Committed? && log[j].Committed? && (forall k :: i < k < j ==> log[k].Applied?)
                   ==> AppliedBetween(log, i, j)
  }

  /** The machine carries the current attempt, and claims an applied image only with evidence for it. */
  ghost predicate Fits(m: Machine, log: seq<Entry>) {
    forall i :: Current(log, i) ==>
      && m.provision.Some? && m.provision.value.attemptId == log[i].attempt && m.provision.value.token == log[i].token
      && (m.provision.value.imageApplied ==> AppliedBetween(log, i, |log|))
  }

  ghost predicate HostInv(s: System) {
    && (s.host.owner == "" || s.host.state.Claimed? ==> s.host.attemptId == "")
    && (s.host.owner != "" ==> Fits(s.machine, s.log))
    && (s.host.owner != "" ==> forall i :: Current(s.log, i) ==> s.log[i].attempt == s.host.attemptId)
  }

  predicate Known(s: System, m: Machine) {
    m.provision.Some? ==> m.provision.value.attemptId in s.used
  }

  ghost predicate WorkInv(s: System, w: Work) {
    match w
    case Handler(_, _, h, m) =>
      && (h.Some? ==> h.value.revision <= s.host.revision && (h.value.revision == s.host.revision ==> h.value == s.host && s.host.owner != ""))
      && (m.Some? ==> h.Some? && (h.value.revision == s.host.revision ==> Fits(m.value, s.log)))
    case Writer(m) => m.Some? ==> Known(s, m.value) && (s.host.owner != "" && UpsertAccepted(s.host, m.value) ==> Fits(m.value, s.log))
    case Event(attempt, token, m) =>
      m.Some? ==>
        && m.value.provision.Some? && m.value.provision.value.attemptId == attempt && m.value.provision.value.token == token
        && Known(s, m.value) && (s.host.owner != "" && UpsertAccepted(s.host, m.value) ==> Fits(m.value, s.log))
  }

  ghost predicate Inv(s: System) {
    && HostInv(s) && EvidenceRule(s.log) && Known(s, s.machine)
    && (forall i :: 0 <= i < |s.log| && s.log[i].Committed? ==> s.log[i].attempt in s.used && s.log[i].attempt != "")
    && (forall id :: id in s.work ==> WorkInv(s, s.work[id]))
  }

  /** Recorded evidence stays evidence, and the current commit stays current. */
  lemma FitsAfterApplied(m: Machine, log: seq<Entry>, attempt: string, token: string)
    requires Fits(m, log)
    ensures Fits(m, log + [Applied(attempt, token)])
  {
    var next := log + [Applied(attempt, token)];
    forall i | Current(next, i)
      ensures m.provision.Some? && m.provision.value.attemptId == next[i].attempt && m.provision.value.token == next[i].token
      ensures m.provision.value.imageApplied ==> AppliedBetween(next, i, |next|)
    {
      assert next[i] == log[i] && forall k :: i < k < |log| ==> next[k] == log[k];
      assert Current(log, i);
      if m.provision.value.imageApplied {
        var k :| i < k < |log| && log[k] == Applied(log[i].attempt, log[i].token);
        assert next[k] == log[k];
      }
    }
  }

  lemma FitsAfterEvent(m: Machine, log: seq<Entry>)
    requires m.provision.Some? && Fits(m, log)
    ensures Fits(m.(provision := Some(m.provision.value.(imageApplied := true))),
                 log + [Applied(m.provision.value.attemptId, m.provision.value.token)])
  {
    var p := m.provision.value;
    var next := log + [Applied(p.attemptId, p.token)];
    forall i | Current(next, i)
      ensures p.attemptId == next[i].attempt && p.token == next[i].token && AppliedBetween(next, i, |next|)
    {
      assert next[i] == log[i] && forall k :: i < k < |log| ==> next[k] == log[k];
      assert Current(log, i);
      assert next[|log|] == Applied(next[i].attempt, next[i].token);
    }
  }

  lemma RuleAfterApplied(log: seq<Entry>, e: Entry)
    requires EvidenceRule(log) && !e.Committed?
    ensures EvidenceRule(log + [e])
  {
    var next := log + [e];
    forall i, j | 0 <= i < j < |next| && next[i].Committed? && next[j].Committed? && forall k :: i < k < j ==> next[k].Applied?
      ensures AppliedBetween(next, i, j)
    {
      assert j < |log| && log[i] == next[i] && log[j] == next[j] && forall k :: i < k < j ==> next[k] == log[k];
      assert AppliedBetween(log, i, j);
      var k :| i < k < j && log[k] == Applied(log[i].attempt, log[i].token);
      assert next[k] == log[k];
    }
  }

  /** A commit is admissible when the current attempt of the claim, if any, has its evidence. */
  lemma RuleAfterCommit(log: seq<Entry>, attempt: string, token: string)
    requires EvidenceRule(log) && forall i :: Current(log, i) ==> AppliedBetween(log, i, |log|)
    ensures EvidenceRule(log + [Committed(attempt, token)])
  {
    var next := log + [Committed(attempt, token)];
    forall i, j | 0 <= i < j < |next| && next[i].Committed? && next[j].Committed? && forall k :: i < k < j ==> next[k].Applied?
      ensures AppliedBetween(next, i, j)
    {
      assert log[i] == next[i] && forall k :: i < k < j ==> next[k] == log[k];
      if j == |log| {
        assert Current(log, i);
      } else {
        assert log[j] == next[j];
      }
      assert AppliedBetween(log, i, j);
      var k :| i < k < j && log[k] == Applied(log[i].attempt, log[i].token);
      assert next[k] == log[k];
    }
  }

  /** Work that took no part in a step keeps its invariant when the host and the log are unchanged. */
  lemma IdleWork(s: System, t: System, w: Work)
    requires WorkInv(s, w) && t.host == s.host && t.log == s.log && s.used <= t.used
    ensures WorkInv(t, w)
  {
  }

  lemma LoadKeeps(s: System, step: Step)
    requires Inv(s) && Enabled(s, step) && (step.Start? || step.LoadHost? || step.LoadMachine? || step.Reinstall?)
    ensures Inv(Next(s, step))
  {
    var t := Next(s, step);
    forall id | id in t.work ensures WorkInv(t, t.work[id]) {
      if id in s.work {
        IdleWork(s, t, s.work[id]);
      }
    }
  }

  lemma HostMoveKeeps(s: System, step: Step)
    requires Inv(s) && Enabled(s, step) && (step.Move? || step.Complete?)
    ensures Inv(Next(s, step))
  {
    var t := Next(s, step);
    forall id | id in t.work ensures WorkInv(t, t.work[id]) {
      assert WorkInv(s, s.work[id]);
    }
  }

  lemma AcquireKeeps(s: System, step: Step)
    requires Inv(s) && Enabled(s, step) && step.Acquire?
    ensures Inv(Next(s, step))
  {
    var t := Next(s, step);
    RuleAfterApplied(s.log, Acquired);
    assert t.log[|s.log|] == Acquired;
    assert forall i :: !Current(t.log, i);
    forall id | id in t.work ensures WorkInv(t, t.work[id]) {
      assert WorkInv(s, s.work[id]);
    }
  }

  lemma StoreKeeps(s: System, step: Step)
    requires Inv(s) && Enabled(s, step) && step.Store?
    ensures Inv(Next(s, step))
  {
    var t := Next(s, step);
    var w := s.work[step.id];
    var m := w.machine.value;
    assert WorkInv(s, w);
    if UpsertAccepted(s.host, Stored(w, step)) && w.Event? {
      RuleAfterApplied(s.log, Applied(w.attempt, w.token));
      if s.host.owner != "" {
        FitsAfterEvent(m, s.log);
      }
      forall i | Current(t.log, i) ensures Current(s.log, i) && t.log[i] == s.log[i] {
        assert forall k :: i < k < |s.log| ==> t.log[k] == s.log[k];
      }
    }
    forall id | id in t.work ensures WorkInv(t, t.work[id]) {
      WorkAfterStore(s, t, s.work[id]);
    }
  }

  lemma WorkAfterStore(s: System, t: System, w: Work)
    requires WorkInv(s, w) && t.host == s.host && t.used == s.used
    requires t.log == s.log || (|t.log| == |s.log| + 1 && t.log[|s.log|].Applied? && t.log == s.log + [t.log[|s.log|]])
    ensures WorkInv(t, w)
  {
    if t.log != s.log && w.machine.Some? && Fits(w.machine.value, s.log) {
      var e := t.log[|s.log|];
      FitsAfterApplied(w.machine.value, s.log, e.attempt, e.token);
    }
  }

  lemma CommitKeeps(s: System, step: Step)
    requires Inv(s) && Enabled(s, step) && step.Commit?
    ensures Inv(Next(s, step))
  {
    var t := Next(s, step);
    var w := s.work[step.id];
    var m := Prepared(w, step.attempt, step.token);
    assert WorkInv(s, w);
    if CommitAccepted(s.host, w.host.value, m) {
      assert forall i :: Current(s.log, i) ==> AppliedBetween(s.log, i, |s.log|) by {
        CommitHasEvidence(s, w);
      }
      RuleAfterCommit(s.log, step.attempt, step.token);
      NewCommitIsCurrent(s.log, step.attempt, step.token);
      forall id | id in t.work ensures WorkInv(t, t.work[id]) {
        assert WorkInv(s, s.work[id]);
      }
    } else {
      forall id | id in t.work ensures WorkInv(t, t.work[id]) {
        IdleWork(s, t, s.work[id]);
      }
    }
  }

  /** The guards of all three handlers, against a host that has not moved since it was read. */
  lemma CommitHasEvidence(s: System, w: Work)
    requires Inv(s) && WorkInv(s, w) && w.Handler? && w.host.Some? && w.machine.Some? && GuardHolds(w)
    requires w.host.value.revision == s.host.revision
    ensures forall i :: Current(s.log, i) ==> AppliedBetween(s.log, i, |s.log|)
  {
  }

  lemma NewCommitIsCurrent(log: seq<Entry>, attempt: string, token: string)
    ensures forall i :: Current(log + [Committed(attempt, token)], i) <==> i == |log|
    ensures forall m: Machine ::
              (m.provision.Some? && m.provision.value.attemptId == attempt && m.provision.value.token == token && !m.provision.value.imageApplied)
              ==> Fits(m, log + [Committed(attempt, token)])
  {
    var next := log + [Committed(attempt, token)];
    assert next[|log|] == Committed(attempt, token);
  }

  lemma StepKeepsInv(s: System, step: Step)
    requires Inv(s) && Enabled(s, step)
    ensures Inv(Next(s, step))
  {
    match step
    case Commit(_, _, _) => CommitKeeps(s, step);
    case Store(_, _, _, _) => StoreKeeps(s, step);
    case Acquire(_) => AcquireKeeps(s, step);
    case Move(_) => HostMoveKeeps(s, step);
    case Complete => HostMoveKeeps(s, step);
    case _ => LoadKeeps(s, step);
  }

  lemma {:induction false} RunKeepsInv(s: System, steps: seq<Step>)
    requires Inv(s) && ValidRun(s, steps)
    ensures Inv(Run(s, steps))
    decreases |steps|
  {
    if steps != [] {
      StepKeepsInv(s, steps[0]);
      RunKeepsInv(Next(s, steps[0]), steps[1..]);
    }
  }

  /** A freshly enrolled host, whatever its machine went through before. */
  predicate Initial(s: System) {
    s.host == Host("", Available, 1, "") && s.work == map[] && s.log == [] && Known(s, s.machine)
  }

  /**
   Within one claim, between any two consecutive committed deployments an
   image_applied event was recorded under the first one's attempt and token.
   */
  lemma EvidenceBetweenDeployments(s: System, steps: seq<Step>, i: nat, j: nat)
    requires Initial(s) && ValidRun(s, steps)
    requires i < j < |Run(s, steps).log| && Run(s, steps).log[i].Committed? && Run(s, steps).log[j].Committed?
    requires forall k :: i < k < j ==> !Run(s, steps).log[k].Committed? && !Run(s, steps).log[k].Acquired?
    ensures var log := Run(s, steps).log;
            exists k :: i < k < j && log[k] == Applied(log[i].attempt, log[i].token)
  {
    RunKeepsInv(s, steps);
    assert AppliedBetween(Run(s, steps).log, i, j);
  }
}
