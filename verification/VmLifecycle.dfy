/**
 Whole-run properties of one VM record while any number of deploys, syncs,
 power actions, callbacks and deletes rewrite it. A step is one service call
 (load, compute, write) taken as atomic; a run is any sequence of enabled steps
 under a nondecreasing clock.
 */
module VmLifecycle {
  import opened Options
  import opened VmRecords

  /** Where a deploy is: before DefineDomain, between define and its status call, or finished. */
  datatype Stage = Preparing | Defined | Over

  /** One deploy: the window the API armed, the deployer's own copy of it, and its progress. */
  datatype Deploy = Deploy(armed: Window, local: Window, stage: Stage)

  datatype System = System(record: Option<VirtualMachine>, deploys: map<Token, Deploy>, clock: Time)

  datatype Step =
    | Create(token: Token, attemptId: string, phase: Phase, windows: bool, timeout: int, now: Time)
    | Redeploy(token: Token, attemptId: string, windows: bool, timeout: int, now: Time)
    | Define(token: Token, now: Time)
    | DeployStatus(token: Token, phase: Phase, fromLocal: bool, now: Time)
    | Fail(token: Token, now: Time)
    | PowerMissing(now: Time, stamp: Time)
    | PowerStatus(phase: Phase, now: Time)
    | SyncFound(state: DomainState, now: Time)
    | SyncNotFound(now: Time, stamp: Time)
    | InstallDone(token: Token, now: Time)
    | WindowsCallback(token: Token, attemptId: string, stage: WindowsStage, now: Time)
    | Remove(now: Time)

  /** The last clock reading a step takes; `now` is the first. */
  function LastReading(step: Step): Time {
    if step.PowerMissing? || step.SyncNotFound? then step.stamp else step.now
  }

  predicate Enabled(s: System, step: Step) {
    && s.clock <= step.now <= LastReading(step)
    && match step
       case Create(token, _, phase, _, _, _) => s.record.None? && token !in s.deploys && phase != Missing
       case Redeploy(token, _, _, _, _) => s.record.Some? && token !in s.deploys
       case Define(token, _) => token in s.deploys && s.deploys[token].stage.Preparing?
       case DeployStatus(token, phase, _, _) =>
         token in s.deploys && s.deploys[token].stage.Defined? && phase in {Provisioning, Creating}
       case Fail(token, _) => token in s.deploys && !s.deploys[token].stage.Over?
       case PowerStatus(phase, _) => phase != Missing
       case _ => true
  }

  function Snapshot(s: System, step: Step): Window
    requires step.DeployStatus? && step.token in s.deploys
  {
    if step.fromLocal then s.deploys[step.token].local else s.deploys[step.token].armed
  }

  function Rewritten(s: System, v: VirtualMachine, step: Step): Option<VirtualMachine>
    requires Enabled(s, step)
  {
    match step
    case Create(_, _, _, _, _, _) => Some(v)
    case Redeploy(token, attemptId, windows, timeout, now) =>
      Some(VirtualMachine(Provisioning, windows, None, ArmedWindow(token, attemptId, now, timeout)))
    case Define(token, now) => Some(AfterDefine(v, token, now))
    case DeployStatus(_, phase, _, _) => Some(AfterDeployStatus(v, phase, Snapshot(s, step)))
    case Fail(token, _) => Some(AfterFail(v, token))
    case PowerMissing(now, stamp) => Some(AfterNotFound(v, now, stamp))
    case PowerStatus(phase, _) => Some(v.(phase := phase))
    case SyncFound(state, now) => Some(AfterFound(v, state, now))
    case SyncNotFound(now, stamp) => Some(AfterNotFound(v, now, stamp))
    case InstallDone(token, now) => Some(AfterInstallComplete(v, token, now))
    case WindowsCallback(token, attemptId, stage, now) => Some(AfterWindowsStage(v, token, attemptId, stage, now))
    case Remove(_) => None
  }

  function NextRecord(s: System, step: Step): Option<VirtualMachine>
    requires Enabled(s, step)
  {
    match s.record
    case Some(v) => Rewritten(s, v, step)
    case None =>
      if step.Create?
      then Some(VirtualMachine(step.phase, step.windows, None, ArmedWindow(step.token, step.attemptId, step.now, step.timeout)))
      else None
  }

  function NextDeploys(s: System, step: Step): map<Token, Deploy>
    requires Enabled(s, step)
  {
    match step
    case Create(token, attemptId, _, _, timeout, now) =>
      var w := ArmedWindow(token, attemptId, now, timeout); s.deploys[token := Deploy(w, w, Preparing)]
    case Redeploy(token, attemptId, _, timeout, now) =>
      var w := ArmedWindow(token, attemptId, now, timeout); s.deploys[token := Deploy(w, w, Preparing)]
    case Define(token, now) =>
      var d := s.deploys[token];
      var local := if s.record.Some? then SnapshotAfterDefine(s.record.value, d.local, now) else d.local;
      s.deploys[token := d.(local := local, stage := Defined)]
    case DeployStatus(token, _, _, _) => s.deploys[token := s.deploys[token].(stage := Over)]
    case Fail(token, _) => s.deploys[token := s.deploys[token].(stage := Over)]
    case _ => s.deploys
  }

  function Next(s: System, step: Step): System
    requires Enabled(s, step)
  {
    System(NextRecord(s, step), NextDeploys(s, step), LastReading(step))
  }

  predicate ValidRun(s: System, steps: seq<Step>)
    decreases |steps|
  {
    steps == [] || (Enabled(s, steps[0]) && ValidRun(Next(s, steps[0]), steps[1..]))
  }

  function Run(s: System, steps: seq<Step>): System
    requires ValidRun(s, steps)
    decreases |steps|
  {
    if steps == [] then s else Run(Next(s, steps[0]), steps[1..])
  }

  /** The record exists and belongs to the deploy with this token. */
  predicate Owns(s: System, token: Token) {
    s.record.Some? && s.record.value.window.token == token
  }

  // ----- The inductive invariant

  predicate Armed(w: Window, token: Token, clock: Time) {
    && w.token == token && w.active && w.completedAt.None? && w.domainObservedAt.None?
    && !w.installStarted && !w.imageApplied
    && w.startedAt.Some? && w.startedAt.value <= clock && w.deadlineAt.Some?
  }

  /** The install timeout the deploy was armed with. */
  function Allowance(armed: Window): int
    requires armed.startedAt.Some? && armed.deadlineAt.Some?
  {
    armed.deadlineAt.value - armed.startedAt.value
  }

  /** The deadline law: the full allowance after arming, and after definition once that happened. */
  predicate DeadlineLaw(w: Window, armed: Window, clock: Time)
    requires armed.startedAt.Some? && armed.deadlineAt.Some?
  {
    && w.token == armed.token && w.attemptId == armed.attemptId && w.startedAt == armed.startedAt
    && (w.domainObservedAt.None? ==> w.deadlineAt == armed.deadlineAt)
    && (w.domainObservedAt.Some? ==>
          && armed.startedAt.value <= w.domainObservedAt.value <= clock
          && w.deadlineAt == Some(w.domainObservedAt.value + Allowance(armed)))
    && (w.completedAt.Some? ==> w.completedAt.value <= clock && !w.active)
  }

  predicate DeployInv(d: Deploy, token: Token, clock: Time) {
    && Armed(d.armed, token, clock)
    && DeadlineLaw(d.local, d.armed, clock)
    && d.local == d.armed.(domainObservedAt := d.local.domainObservedAt, deadlineAt := d.local.deadlineAt)
    && (d.stage.Preparing? ==> d.local == d.armed)
  }

  predicate RecordInv(v: VirtualMachine, d: Deploy, clock: Time)
    requires d.armed.startedAt.Some? && d.armed.deadlineAt.Some?
  {
    && DeadlineLaw(v.window, d.armed, clock)
    && (v.phase == Missing ==> v.missingSince.Some? && v.missingSince.value <= clock)
    && (d.local.domainObservedAt.Some? ==> v.window.domainObservedAt == d.local.domainObservedAt)
    && (d.stage.Preparing? ==> v.window.domainObservedAt.None?)
    && (d.stage.Defined? ==> v.window.domainObservedAt.Some? || v.window.completedAt.Some?)
  }

  predicate Inv(s: System) {
    && (forall t :: t in s.deploys ==> DeployInv(s.deploys[t], t, s.clock))
    && (s.record.Some? ==>
          && s.record.value.window.token in s.deploys
          && RecordInv(s.record.value, s.deploys[s.record.value.window.token], s.clock))
  }

  predicate Initial(s: System) {
    s.record.None? && s.deploys == map[]
  }

  lemma DeploysKept(s: System, step: Step)
    requires Inv(s) && Enabled(s, step)
    ensures forall t :: t in NextDeploys(s, step) ==> DeployInv(NextDeploys(s, step)[t], t, LastReading(step))
  {
  }

  lemma DefineKept(v: VirtualMachine, d: Deploy, token: Token, clock: Time, now: Time)
    requires DeployInv(d, token, clock) && d.stage.Preparing? && RecordInv(v, d, clock) && clock <= now
    ensures RecordInv(AfterDefine(v, token, now), d.(local := SnapshotAfterDefine(v, d.local, now), stage := Defined), now)
  {
  }

  lemma DeployStatusKept(v: VirtualMachine, d: Deploy, token: Token, clock: Time, phase: Phase, snapshot: Window, now: Time)
    requires DeployInv(d, token, clock) && RecordInv(v, d, clock) && clock <= now && phase != Missing
    requires snapshot in {d.local, d.armed}
    ensures RecordInv(AfterDeployStatus(v, phase, snapshot), d.(stage := Over), now)
  {
  }

  lemma FailKept(v: VirtualMachine, d: Deploy, token: Token, clock: Time, now: Time)
    requires DeployInv(d, token, clock) && RecordInv(v, d, clock) && clock <= now
    ensures RecordInv(AfterFail(v, token), d.(stage := Over), now)
  {
  }

  lemma NotFoundKept(v: VirtualMachine, d: Deploy, token: Token, clock: Time, now: Time, stamp: Time)
    requires DeployInv(d, token, clock) && RecordInv(v, d, clock) && clock <= now <= stamp
    ensures RecordInv(AfterNotFound(v, now, stamp), d, stamp)
  {
  }

  lemma FoundKept(v: VirtualMachine, d: Deploy, token: Token, clock: Time, state: DomainState, now: Time)
    requires DeployInv(d, token, clock) && RecordInv(v, d, clock) && clock <= now
    ensures RecordInv(AfterFound(v, state, now), d, now)
  {
  }

  lemma CallbackKept(v: VirtualMachine, d: Deploy, token: Token, clock: Time, t: Token, attemptId: string, stage: WindowsStage, now: Time)
    requires DeployInv(d, token, clock) && RecordInv(v, d, clock) && clock <= now
    ensures RecordInv(AfterInstallComplete(v, t, now), d, now)
    ensures RecordInv(AfterWindowsStage(v, t, attemptId, stage, now), d, now)
  {
  }

  lemma ObservationKept(s: System, v: VirtualMachine, d: Deploy, token: Token, step: Step)
    requires Enabled(s, step) && DeployInv(d, token, s.clock) && RecordInv(v, d, s.clock)
    requires step.PowerMissing? || step.PowerStatus? || step.SyncFound? || step.SyncNotFound? || step.InstallDone? || step.WindowsCallback?
    ensures RecordInv(Rewritten(s, v, step).value, d, LastReading(step))
  {
    match step
    case PowerMissing(now, stamp) => NotFoundKept(v, d, token, s.clock, now, stamp);
    case SyncNotFound(now, stamp) => NotFoundKept(v, d, token, s.clock, now, stamp);
    case SyncFound(state, now) => FoundKept(v, d, token, s.clock, state, now);
    case InstallDone(t, now) => CallbackKept(v, d, token, s.clock, t, "", Failed, now);
    case WindowsCallback(t, a, stage, now) => CallbackKept(v, d, token, s.clock, t, a, stage, now);
    case PowerStatus(_, _) =>
  }

  /** The part of the invariant that speaks of the record, for a system whose deploys are in order. */
  predicate RecordPart(s: System) {
    s.record.Some? ==>
      && s.record.value.window.token in s.deploys
      && var d := s.deploys[s.record.value.window.token];
         d.armed.startedAt.Some? && d.armed.deadlineAt.Some? && RecordInv(s.record.value, d, s.clock)
  }

  lemma ForeignStepKept(s: System, step: Step)
    requires Inv(s) && Enabled(s, step) && s.record.Some?
    requires step.Define? || step.DeployStatus? || step.Fail?
    requires step.token != s.record.value.window.token
    ensures NextRecord(s, step) == s.record
    ensures RecordPart(Next(s, step))
  {
  }

  lemma OwnDefineKept(s: System, step: Step)
    requires Inv(s) && Enabled(s, step) && step.Define? && Owns(s, step.token)
    ensures RecordPart(Next(s, step))
  {
    DefineKept(s.record.value, s.deploys[step.token], step.token, s.clock, step.now);
  }

  lemma OwnDeployStatusKept(s: System, step: Step)
    requires Inv(s) && Enabled(s, step) && step.DeployStatus? && Owns(s, step.token)
    ensures RecordPart(Next(s, step))
  {
    DeployStatusKept(s.record.value, s.deploys[step.token], step.token, s.clock, step.phase, Snapshot(s, step), step.now);
  }

  lemma DeployerStepKept(s: System, step: Step)
    requires Inv(s) && Enabled(s, step) && s.record.Some?
    requires step.Define? || step.DeployStatus? || step.Fail?
    ensures RecordPart(Next(s, step))
  {
    if step.token != s.record.value.window.token {
      ForeignStepKept(s, step);
    } else {
      match step
      case Define(_, _) => OwnDefineKept(s, step);
      case DeployStatus(_, _, _, _) => OwnDeployStatusKept(s, step);
      case Fail(t, now) => FailKept(s.record.value, s.deploys[t], t, s.clock, now);
    }
  }

  lemma ObservationStepKept(s: System, step: Step)
    requires Inv(s) && Enabled(s, step) && s.record.Some?
    requires !step.Define? && !step.DeployStatus? && !step.Fail?
    ensures RecordPart(Next(s, step))
  {
    var v := s.record.value;
    if !step.Create? && !step.Redeploy? && !step.Remove? {
      ObservationKept(s, v, s.deploys[v.window.token], v.window.token, step);
    }
  }

  lemma StepKeepsInv(s: System, step: Step)
    requires Inv(s) && Enabled(s, step)
    ensures Inv(Next(s, step))
  {
    DeploysKept(s, step);
    if s.record.Some? {
      if step.Define? || step.DeployStatus? || step.Fail? {
        DeployerStepKept(s, step);
      } else {
        ObservationStepKept(s, step);
      }
    }
  }

  lemma {:induction false} RunKeepsInv(s: System, steps: seq<Step>)
    requires Inv(s) && ValidRun(s, steps)
    ensures Inv(Run(s, steps))
    decreases |steps|
  {
    if steps != [] {
      StepKeepsInv(s, steps[0]);
      RunKeepsInv(Next(s, steps[0]), steps[1..]);
    }
  }

  /** In every reachable state the stored deadline is the full allowance after arming, or after definition. */
  lemma DeadlineIsExact(s: System, steps: seq<Step>, token: Token)
    requires Initial(s) && ValidRun(s, steps) && Owns(Run(s, steps), token)
    ensures var end := Run(s, steps);
            && token in end.deploys && end.deploys[token].armed.startedAt.Some? && end.deploys[token].armed.deadlineAt.Some?
            && var w := end.record.value.window;
               var timeout := Allowance(end.deploys[token].armed);
               && w.startedAt == end.deploys[token].armed.startedAt
               && (w.domainObservedAt.None? ==> w.deadlineAt == Some(w.startedAt.value + timeout))
               && (w.domainObservedAt.Some? ==> w.deadlineAt == Some(w.domainObservedAt.value + timeout))
  {
    RunKeepsInv(s, steps);
  }

  // ----- Facts of one window never change back

  predicate Final(before: Window, after: Window) {
    && (before.domainObservedAt.Some? ==> after.domainObservedAt == before.domainObservedAt)
    && (before.completedAt.Some? ==> after.completedAt == before.completedAt)
    && (before.installStarted ==> after.installStarted)
    && (before.imageApplied ==> after.imageApplied)
    && after.startedAt == before.startedAt && after.attemptId == before.attemptId
  }

  lemma DeployerStepIsFinal(s: System, step: Step, token: Token)
    requires Inv(s) && Enabled(s, step) && Owns(s, token) && Owns(Next(s, step), token)
    requires step.Define? || step.DeployStatus? || step.Fail?
    ensures Final(s.record.value.window, Next(s, step).record.value.window)
  {
  }

  lemma StepIsFinal(s: System, step: Step, token: Token)
    requires Inv(s) && Enabled(s, step) && Owns(s, token) && Owns(Next(s, step), token)
    ensures Final(s.record.value.window, Next(s, step).record.value.window)
  {
    if step.Define? || step.DeployStatus? || step.Fail? {
      DeployerStepIsFinal(s, step, token);
    }
  }

  /** A window that was replaced or deleted never comes back: tokens are fresh. */
  lemma {:induction false} RetiredForGood(s: System, steps: seq<Step>, token: Token)
    requires ValidRun(s, steps) && token in s.deploys && !Owns(s, token)
    ensures !Owns(Run(s, steps), token)
    decreases |steps|
  {
    if steps != [] {
      RetiredForGood(Next(s, steps[0]), steps[1..], token);
    }
  }

  lemma {:induction false} WindowFactsAreFinal(s: System, steps: seq<Step>, token: Token)
    requires Inv(s) && ValidRun(s, steps) && Owns(s, token) && Owns(Run(s, steps), token)
    ensures Final(s.record.value.window, Run(s, steps).record.value.window)
    decreases |steps|
  {
    if steps != [] {
      var next := Next(s, steps[0]);
      StepKeepsInv(s, steps[0]);
      if Owns(next, token) {
        StepIsFinal(s, steps[0], token);
        WindowFactsAreFinal(next, steps[1..], token);
      } else {
        RetiredForGood(next, steps[1..], token);
      }
    }
  }

  // ----- How often a window can come back to life

  /** This step turns the token's window from inactive to active. */
  predicate Rearms(s: System, step: Step, token: Token)
    requires Enabled(s, step)
  {
    && Owns(s, token) && !s.record.value.window.active
    && Owns(Next(s, step), token) && Next(s, step).record.value.window.active
  }

  function RearmCount(s: System, steps: seq<Step>, token: Token): nat
    requires ValidRun(s, steps)
    decreases |steps|
  {
    if steps == [] then 0
    else (if Rearms(s, steps[0], token) then 1 else 0) + RearmCount(Next(s, steps[0]), steps[1..], token)
  }

  /** Re-arming calls the token's deploy has left. */
  function RearmsLeft(s: System, token: Token): nat {
    if token !in s.deploys then 2
    else match s.deploys[token].stage
         case Preparing => 2
         case Defined => 1
         case Over => 0
  }

  lemma OnlyTheDeployRearms(s: System, step: Step, token: Token)
    requires Inv(s) && Enabled(s, step) && Rearms(s, step, token)
    ensures (step.Define? || step.DeployStatus?) && step.token == token
    ensures s.record.value.window.completedAt.None?
    ensures RearmsLeft(Next(s, step), token) < RearmsLeft(s, token)
  {
  }

  lemma StepSpendsRearms(s: System, step: Step, token: Token)
    requires Enabled(s, step)
    ensures RearmsLeft(Next(s, step), token) <= RearmsLeft(s, token)
  {
  }

  lemma {:induction false} RearmsAreBounded(s: System, steps: seq<Step>, token: Token)
    requires Inv(s) && ValidRun(s, steps)
    ensures RearmCount(s, steps, token) <= RearmsLeft(s, token) <= 2
    decreases |steps|
  {
    if steps != [] {
      var next := Next(s, steps[0]);
      StepKeepsInv(s, steps[0]);
      StepSpendsRearms(s, steps[0], token);
      if Rearms(s, steps[0], token) {
        OnlyTheDeployRearms(s, steps[0], token);
      }
      RearmsAreBounded(next, steps[1..], token);
    }
  }

  lemma {:induction false} InactiveStaysInactive(s: System, steps: seq<Step>, token: Token)
    requires Inv(s) && ValidRun(s, steps) && token in s.deploys
    requires s.deploys[token].stage.Over? || (Owns(s, token) && s.record.value.window.completedAt.Some?)
    requires Owns(s, token) ==> !s.record.value.window.active
    ensures Owns(Run(s, steps), token) ==> !Run(s, steps).record.value.window.active
    decreases |steps|
  {
    if steps != [] {
      var next := Next(s, steps[0]);
      StepKeepsInv(s, steps[0]);
      if Owns(s, token) && Owns(next, token) {
        if Rearms(s, steps[0], token) {
          OnlyTheDeployRearms(s, steps[0], token);
        }
        StepIsFinal(s, steps[0], token);
        InactiveStaysInactive(next, steps[1..], token);
      } else {
        RetiredForGood(next, steps[1..], token);
      }
    }
  }

  /**
   Once the deploy has spent its two re-arming calls, a sync that gets a definite
   answer past the deadline ends the window, whatever runs afterwards.
   */
  lemma ExpiredSyncEndsWindow(s: System, sync: Step, steps: seq<Step>, token: Token)
    requires Inv(s) && Owns(s, token) && s.deploys[token].stage.Over?
    requires (sync.SyncFound? || sync.SyncNotFound?) && Enabled(s, sync)
    requires s.record.value.window.deadlineAt.Some? && sync.now > s.record.value.window.deadlineAt.value
    requires ValidRun(Next(s, sync), steps)
    ensures Owns(Run(Next(s, sync), steps), token) ==> !Run(Next(s, sync), steps).record.value.window.active
  {
    StepKeepsInv(s, sync);
    InactiveStaysInactive(Next(s, sync), steps, token);
  }

  /** A completed window is never active again. */
  lemma CompletionIsTheEnd(s: System, steps: seq<Step>, token: Token)
    requires Inv(s) && ValidRun(s, steps) && Owns(s, token) && s.record.value.window.completedAt.Some?
    ensures Owns(Run(s, steps), token) ==>
              && !Run(s, steps).record.value.window.active
              && Run(s, steps).record.value.window.completedAt == s.record.value.window.completedAt
  {
    InactiveStaysInactive(s, steps, token);
    if Owns(Run(s, steps), token) {
      WindowFactsAreFinal(s, steps, token);
    }
  }

  // ----- What a completing deploy makes of a window that ended meanwhile

  /**
   What was seen since definition: `left`, the record was out of Missing at some
   point at or after definition; `gone`, libvirt answered not-found and the
   record has stayed Missing since.
   */
  datatype Sightings = Sightings(left: bool, gone: bool)

  predicate IsMissing(s: System) {
    s.record.Some? && s.record.value.phase == Missing
  }

  function Sighted(h: Sightings, step: Step, next: System): Sightings {
    Sightings(h.left || !IsMissing(next),
              IsMissing(next) && (h.gone || step.SyncNotFound? || step.PowerMissing?))
  }

  function SightingsAfter(s: System, steps: seq<Step>, h: Sightings): Sightings
    requires ValidRun(s, steps)
    decreases |steps|
  {
    if steps == [] then h
    else var next := Next(s, steps[0]); SightingsAfter(next, steps[1..], Sighted(h, steps[0], next))
  }

  /** The clock strictly advances between steps. */
  predicate StrictRun(s: System, steps: seq<Step>)
    requires ValidRun(s, steps)
    decreases |steps|
  {
    steps == [] || (s.clock < steps[0].now && StrictRun(Next(s, steps[0]), steps[1..]))
  }

  /** The token's deploy has defined its domain at `defined` and has not reported its outcome. */
  predicate AwaitingStatus(s: System, token: Token, defined: Time) {
    && Inv(s) && Owns(s, token) && s.deploys[token].stage.Defined?
    && s.record.value.window.domainObservedAt == Some(defined) && s.record.value.window.completedAt.None?
  }

  predicate SightingsInv(s: System, token: Token, defined: Time, h: Sightings) {
    && AwaitingStatus(s, token, defined)
    && var v := s.record.value;
       && (h.gone ==> v.phase == Missing && !v.window.active)
       && (!h.left ==> v.phase == Missing && v.missingSince.value <= defined)
       && (h.left && v.phase == Missing ==> h.gone && v.missingSince.value > defined)
  }

  lemma SightingStep(s: System, step: Step, token: Token, defined: Time, h: Sightings)
    requires SightingsInv(s, token, defined, h) && Enabled(s, step) && s.clock < step.now
    requires AwaitingStatus(Next(s, step), token, defined)
    ensures SightingsInv(Next(s, step), token, defined, Sighted(h, step, Next(s, step)))
  {
  }

  /** A deploy that still awaits its status call at the end awaited it all along. */
  lemma {:induction false} AwaitedThroughout(s: System, step: Step, steps: seq<Step>, token: Token, defined: Time)
    requires AwaitingStatus(s, token, defined) && Enabled(s, step) && ValidRun(Next(s, step), steps)
    requires AwaitingStatus(Run(Next(s, step), steps), token, defined)
    ensures AwaitingStatus(Next(s, step), token, defined)
  {
    var next := Next(s, step);
    StepKeepsInv(s, step);
    if !Owns(next, token) {
      RetiredForGood(next, steps, token);
    } else {
      StepIsFinal(s, step, token);
      WindowFactsAreFinal(next, steps, token);
      if next.deploys[token].stage.Over? {
        StageOnlyAdvances(next, steps, token);
      }
    }
  }

  lemma {:induction false} StageOnlyAdvances(s: System, steps: seq<Step>, token: Token)
    requires ValidRun(s, steps) && token in s.deploys && s.deploys[token].stage.Over?
    ensures token in Run(s, steps).deploys && Run(s, steps).deploys[token].stage.Over?
    decreases |steps|
  {
    if steps != [] {
      StageOnlyAdvances(Next(s, steps[0]), steps[1..], token);
    }
  }

  lemma {:induction false} SightingsHold(s: System, steps: seq<Step>, token: Token, defined: Time, h: Sightings)
    requires SightingsInv(s, token, defined, h) && ValidRun(s, steps) && StrictRun(s, steps)
    requires AwaitingStatus(Run(s, steps), token, defined)
    ensures SightingsInv(Run(s, steps), token, defined, SightingsAfter(s, steps, h))
    decreases |steps|
  {
    if steps != [] {
      var next := Next(s, steps[0]);
      AwaitedThroughout(s, steps[0], steps[1..], token, defined);
      SightingStep(s, steps[0], token, defined, h);
      SightingsHold(next, steps[1..], token, defined, Sighted(h, steps[0], next));
    }
  }

  lemma DefinitionTakesEffect(s: System, define: Step, token: Token)
    requires Inv(s) && define.Define? && define.token == token && Enabled(s, define)
    requires Owns(s, token) && s.record.value.window.completedAt.None?
    ensures AwaitingStatus(Next(s, define), token, define.now)
    ensures Next(s, define).record.value.window.active
    ensures Next(s, define).record.value.window.deadlineAt == Some(define.now + Allowance(s.deploys[token].armed))
  {
    StepKeepsInv(s, define);
  }

  lemma StatusOfActiveWindow(s: System, status: Step, token: Token, defined: Time)
    requires AwaitingStatus(s, token, defined) && s.record.value.window.active
    requires status.DeployStatus? && status.token == token && Enabled(s, status)
    ensures var end := Next(s, status);
            && Owns(end, token) && end.record.value.window.active
            && end.record.value.phase == status.phase && end.record.value.missingSince.None?
            && end.record.value.window.deadlineAt == s.record.value.window.deadlineAt
  {
  }

  /** What is known the moment the domain is defined. */
  function AtDefinition(s: System): Sightings {
    Sightings(!IsMissing(s), false)
  }

  /**
   A domain that was defined and then removed: the completing deploy leaves the
   window ended exactly when the record had been out of Missing at or after
   definition. A record that stays Missing throughout keeps its old timestamp,
   looks like the define gap, and is re-armed.
   */
  lemma RemovalAfterDefinition(s: System, define: Step, steps: seq<Step>, status: Step, token: Token)
    requires Inv(s) && define.Define? && define.token == token && Enabled(s, define)
    requires Owns(s, token) && s.record.value.window.completedAt.None?
    requires ValidRun(Next(s, define), steps) && StrictRun(Next(s, define), steps)
    requires AwaitingStatus(Run(Next(s, define), steps), token, define.now)
    requires SightingsAfter(Next(s, define), steps, AtDefinition(Next(s, define))).gone
    requires status.DeployStatus? && status.token == token && Enabled(Run(Next(s, define), steps), status)
    ensures var end := Next(Run(Next(s, define), steps), status);
            Owns(end, token) &&
            (!end.record.value.window.active <==>
             SightingsAfter(Next(s, define), steps, AtDefinition(Next(s, define))).left)
  {
    var begin := Next(s, define);
    DefinitionTakesEffect(s, define, token);
    SightingsHold(begin, steps, token, define.now, AtDefinition(begin));
  }

  /** No absence, expiry or reported failure since definition. */
  predicate Uneventful(steps: seq<Step>, deadline: Time) {
    forall i :: 0 <= i < |steps| ==>
      && !steps[i].SyncNotFound? && !steps[i].PowerMissing?
      && (steps[i].SyncFound? ==> steps[i].now <= deadline)
      && !(steps[i].WindowsCallback? && steps[i].stage.Failed?)
  }

  lemma UneventfulStep(s: System, step: Step, token: Token, defined: Time)
    requires AwaitingStatus(s, token, defined) && s.record.value.window.active
    requires Enabled(s, step) && AwaitingStatus(Next(s, step), token, defined)
    requires Uneventful([step], s.record.value.window.deadlineAt.value)
    ensures Next(s, step).record.value.window.active
    ensures Next(s, step).record.value.window.deadlineAt == s.record.value.window.deadlineAt
  {
    assert [step][0] == step;
  }

  lemma {:induction false} UneventfulStaysActive(s: System, steps: seq<Step>, token: Token, defined: Time)
    requires AwaitingStatus(s, token, defined) && s.record.value.window.active
    requires ValidRun(s, steps) && AwaitingStatus(Run(s, steps), token, defined)
    requires Uneventful(steps, s.record.value.window.deadlineAt.value)
    ensures Run(s, steps).record.value.window.active
    ensures Run(s, steps).record.value.window.deadlineAt == s.record.value.window.deadlineAt
    decreases |steps|
  {
    if steps != [] {
      AwaitedThroughout(s, steps[0], steps[1..], token, defined);
      UneventfulStep(s, steps[0], token, defined);
      UneventfulStaysActive(Next(s, steps[0]), steps[1..], token, defined);
    }
  }

  /**
   The define gap: however the window was ended before its domain existed, the
   deploy that goes on to define the domain leaves it active, with the full
   install allowance counted from definition.
   */
  lemma DefineGapIsRearmed(s: System, define: Step, steps: seq<Step>, status: Step, token: Token)
    requires Inv(s) && define.Define? && define.token == token && Enabled(s, define)
    requires Owns(s, token) && s.record.value.window.completedAt.None?
    requires ValidRun(Next(s, define), steps)
    requires AwaitingStatus(Run(Next(s, define), steps), token, define.now)
    requires Uneventful(steps, define.now + Allowance(s.deploys[token].armed))
    requires status.DeployStatus? && status.token == token && Enabled(Run(Next(s, define), steps), status)
    ensures var end := Next(Run(Next(s, define), steps), status);
            && Owns(end, token) && end.record.value.window.active
            && end.record.value.phase == status.phase && end.record.value.missingSince.None?
            && end.record.value.window.deadlineAt == Some(define.now + Allowance(s.deploys[token].armed))
  {
    var begin := Next(s, define);
    DefinitionTakesEffect(s, define, token);
    UneventfulStaysActive(begin, steps, token, define.now);
    StatusOfActiveWindow(Run(begin, steps), status, token, define.now);
  }

  lemma Unfold(s: System, steps: seq<Step>, token: Token)
    requires steps != [] && Enabled(s, steps[0]) && ValidRun(Next(s, steps[0]), steps[1..])
    ensures ValidRun(s, steps) && Run(s, steps) == Run(Next(s, steps[0]), steps[1..])
    ensures RearmCount(s, steps, token)
         == (if Rearms(s, steps[0], token) then 1 else 0) + RearmCount(Next(s, steps[0]), steps[1..], token)
  {
  }

  const STALE_RUN: seq<Step> := [
    Create("t", "a", Pending, false, 10, 0), SyncNotFound(20, 20), Define("t", 30),
    SyncNotFound(40, 40), DeployStatus("t", Provisioning, true, 50)]

  /** The state after the given number of steps of `STALE_RUN`. */
  function StaleState(n: nat): System {
    var armed := ArmedWindow("t", "a", 0, 10);
    var defined := armed.(domainObservedAt := Some(30), deadlineAt := Some(40));
    var deploy := Deploy(armed, if n < 3 then armed else defined, if n < 3 then Preparing else if n < 5 then Defined else Over);
    match n
    case 0 => System(None, map[], 0)
    case 1 => System(Some(VirtualMachine(Pending, false, None, armed)), map["t" := deploy], 0)
    case 2 => System(Some(VirtualMachine(Missing, false, Some(20), armed.(active := false))), map["t" := deploy], 20)
    case 3 => System(Some(VirtualMachine(Missing, false, Some(20), defined)), map["t" := deploy], 30)
    case 4 => System(Some(VirtualMachine(Missing, false, Some(20), defined.(active := false))), map["t" := deploy], 40)
    case _ => System(Some(VirtualMachine(Provisioning, false, None, defined)), map["t" := deploy], 50)
  }

  lemma StaleStep(n: nat)
    requires n < 5
    ensures Enabled(StaleState(n), STALE_RUN[n]) && Next(StaleState(n), STALE_RUN[n]) == StaleState(n + 1)
  {
  }

  lemma {:induction false} StaleTail(n: nat)
    requires n <= 5
    ensures ValidRun(StaleState(n), STALE_RUN[n..]) && Run(StaleState(n), STALE_RUN[n..]) == StaleState(5)
    ensures RearmCount(StaleState(n), STALE_RUN[n..], "t") == if n <= 2 then 2 else if n <= 4 then 1 else 0
    decreases 5 - n
  {
    if n < 5 {
      StaleStep(n);
      StaleTail(n + 1);
      assert STALE_RUN[n..][1..] == STALE_RUN[n + 1..];
      Unfold(StaleState(n), STALE_RUN[n..], "t");
    }
  }

  /**
   The run behind the exception: the record is marked Missing before definition,
   stays Missing after the domain is defined and removed, and the deploy's status
   call re-arms it. It also re-arms twice, so the bound of two is tight.
   */
  lemma StaleMissingMarkIsRearmed()
    ensures Initial(StaleState(0)) && ValidRun(StaleState(0), STALE_RUN)
    ensures var end := Run(StaleState(0), STALE_RUN);
            Owns(end, "t") && end.record.value.window.active && RearmCount(StaleState(0), STALE_RUN, "t") == 2
  {
    StaleTail(0);
    assert STALE_RUN[0..] == STALE_RUN;
  }
}
