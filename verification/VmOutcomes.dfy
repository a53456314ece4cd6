/**
 What each call leaves in the VM record, said by phases, times and what happened
 in the run: exactly when a window is ended, kept, completed or armed again.
 */
module VmOutcomes {
  import opened Options
  import opened VmRecords
  import opened VmLifecycle

  // ----- The deploy's status call

  /** The step ends the window of a defined domain: an absence, an expiry, or a Windows failure in time. */
  predicate EndsWindow(v: VirtualMachine, step: Step) {
    || step.SyncNotFound? || step.PowerMissing?
    || (step.SyncFound? && v.window.deadlineAt.Some? && step.now > v.window.deadlineAt.value)
    || (&& step.WindowsCallback? && step.stage == Failed && v.windows
        && step.token == v.window.token && step.attemptId == v.window.attemptId
        && v.window.deadlineAt.Some? && step.now <= v.window.deadlineAt.value)
  }

  predicate EndedDuring(s: System, steps: seq<Step>)
    requires ValidRun(s, steps)
    decreases |steps|
  {
    steps != [] && ((s.record.Some? && EndsWindow(s.record.value, steps[0])) || EndedDuring(Next(s, steps[0]), steps[1..]))
  }

  lemma WindowEndsExactly(s: System, step: Step, token: Token, defined: Time)
    requires AwaitingStatus(s, token, defined) && Enabled(s, step) && AwaitingStatus(Next(s, step), token, defined)
    ensures Next(s, step).record.value.window.active <==> s.record.value.window.active && !EndsWindow(s.record.value, step)
  {
  }

  /** While a deploy awaits its status call, the window is ended exactly when some step of the run ended it. */
  lemma {:induction false} EndedExactly(s: System, steps: seq<Step>, token: Token, defined: Time)
    requires AwaitingStatus(s, token, defined) && ValidRun(s, steps) && AwaitingStatus(Run(s, steps), token, defined)
    ensures !Run(s, steps).record.value.window.active <==> !s.record.value.window.active || EndedDuring(s, steps)
    decreases |steps|
  {
    if steps != [] {
      AwaitedThroughout(s, steps[0], steps[1..], token, defined);
      WindowEndsExactly(s, steps[0], token, defined);
      EndedExactly(Next(s, steps[0]), steps[1..], token, defined);
    }
  }

  /** Ended for good: the record shows a failure, or an absence that began after the definition. */
  predicate StaysEnded(v: VirtualMachine, defined: Time) {
    v.phase == Error || (v.phase == Missing && v.missingSince.Some? && v.missingSince.value > defined)
  }

  /** The status call leaves such a record as it is, and arms any other one with the allowance it had. */
  lemma StatusCallExactly(s: System, status: Step, token: Token, defined: Time)
    requires AwaitingStatus(s, token, defined) && status.DeployStatus? && status.token == token && Enabled(s, status)
    ensures var v := s.record.value;
            var end := Next(s, status).record;
            if !v.window.active && StaysEnded(v, defined) then end == Some(v)
            else end == Some(v.(phase := status.phase, missingSince := None, window := v.window.(active := true)))
  {
  }

  /** Between definition and status call: what ended the window, what the missing mark says, and the deadline. */
  lemma AtStatusCall(s: System, define: Step, steps: seq<Step>, token: Token)
    requires Inv(s) && define.Define? && define.token == token && Enabled(s, define)
    requires Owns(s, token) && s.record.value.window.completedAt.None?
    requires ValidRun(Next(s, define), steps) && StrictRun(Next(s, define), steps)
    requires AwaitingStatus(Run(Next(s, define), steps), token, define.now)
    ensures var begin := Next(s, define);
            var v := Run(begin, steps).record.value;
            && (!v.window.active <==> EndedDuring(begin, steps))
            && (v.phase == Missing ==>
                  v.missingSince.Some? && (v.missingSince.value > define.now <==> SightingsAfter(begin, steps, AtDefinition(begin)).left))
            && v.window.deadlineAt == Some(define.now + Allowance(s.deploys[token].armed))
  {
    var begin := Next(s, define);
    DefinitionTakesEffect(s, define, token);
    SightingsHold(begin, steps, token, define.now, AtDefinition(begin));
    EndedExactly(begin, steps, token, define.now);
    RunKeepsAllowance(begin, steps, token);
  }

  /**
   From definition to status call: the window is left ended if and only if some
   step since ended it and the record is in Error, or is Missing after having been
   out of Missing since the definition. Then the record stays as it is.
   */
  lemma CompletingDeployExactly(s: System, define: Step, steps: seq<Step>, status: Step, token: Token)
    requires Inv(s) && define.Define? && define.token == token && Enabled(s, define)
    requires Owns(s, token) && s.record.value.window.completedAt.None?
    requires ValidRun(Next(s, define), steps) && StrictRun(Next(s, define), steps)
    requires AwaitingStatus(Run(Next(s, define), steps), token, define.now)
    requires status.DeployStatus? && status.token == token && Enabled(Run(Next(s, define), steps), status)
    ensures var begin := Next(s, define);
            var v := Run(begin, steps).record.value;
            var end := Next(Run(begin, steps), status).record;
            && end.Some?
            && (!end.value.window.active <==>
                && EndedDuring(begin, steps)
                && (v.phase == Error || (v.phase == Missing && SightingsAfter(begin, steps, AtDefinition(begin)).left)))
            && (!end.value.window.active ==> end.value == v)
            && (end.value.window.active ==>
                  && end.value.phase == status.phase && end.value.missingSince.None?
                  && end.value.window.deadlineAt == Some(define.now + Allowance(s.deploys[token].armed)))
  {
    AtStatusCall(s, define, steps, token);
    StatusCallExactly(Run(Next(s, define), steps), status, token, define.now);
  }

  lemma {:induction false} RunKeepsAllowance(s: System, steps: seq<Step>, token: Token)
    requires ValidRun(s, steps) && token in s.deploys
    ensures token in Run(s, steps).deploys && Run(s, steps).deploys[token].armed == s.deploys[token].armed
    decreases |steps|
  {
    if steps != [] {
      RunKeepsAllowance(Next(s, steps[0]), steps[1..], token);
    }
  }

  // ----- What a sync leaves

  predicate Installing(w: Window) {
    w.active && w.completedAt.None?
  }

  predicate Late(w: Window, now: Time) {
    Installing(w) && w.deadlineAt.Some? && now > w.deadlineAt.value
  }

  /** A found domain: which phase follows from its state, and what happens to the window and the missing mark. */
  lemma FoundExactly(v: VirtualMachine, state: DomainState, now: Time)
    ensures var w := AfterFound(v, state, now);
            var same := state.DomainUnknown? && !Installing(v.window);
            && w.phase != Missing
            && (w.phase == Error <==> Late(v.window, now) || state.DomainCrashed? || (same && v.phase == Error))
            && (w.phase == Provisioning <==>
                (Installing(v.window) && !Late(v.window, now) && !state.DomainCrashed?) || (same && v.phase == Provisioning))
            && (w.phase == Running <==> !Installing(v.window) && (state.DomainRunning? || (same && v.phase == Running)))
            && (w.phase == Stopped <==>
                !Installing(v.window) && (state.DomainShutoff? || state.DomainPaused? || (same && v.phase in {Stopped, Missing})))
            && (w.phase in {Pending, Creating, Deleting, Migrating} ==> same && w.phase == v.phase)
            && w.missingSince == (if v.phase == Missing then None else v.missingSince)
            && w.windows == v.windows && w.window == v.window.(active := v.window.active && !Late(v.window, now))
  {
  }

  /** An absent domain: in every reachable state the record is left alone in its define gap, else marked and ended. */
  lemma NotFoundExactly(s: System, steps: seq<Step>, step: Step, token: Token)
    requires Initial(s) && ValidRun(s, steps) && Owns(Run(s, steps), token) && Enabled(Run(s, steps), step)
    requires step.SyncNotFound? || step.PowerMissing?
    ensures var v := Run(s, steps).record.value;
            var end := Next(Run(s, steps), step).record;
            && token in Run(s, steps).deploys && Armed(Run(s, steps).deploys[token].armed, token, Run(s, steps).clock)
            && var timeout := Allowance(Run(s, steps).deploys[token].armed);
               if v.window.active && v.window.domainObservedAt.None? && step.now <= Run(s, steps).deploys[token].armed.startedAt.value + timeout
               then end == Some(v)
               else end == Some(v.(phase := Missing, window := v.window.(active := false),
                                   missingSince := if v.phase == Missing then v.missingSince else Some(step.stamp)))
  {
    RunKeepsInv(s, steps);
  }

  // ----- What the deploy's other calls leave

  /** A definition: nothing but the window's observation, deadline and activity changes, once and for its owner. */
  lemma DefineExactly(s: System, define: Step)
    requires Inv(s) && define.Define? && Enabled(s, define) && s.record.Some?
    ensures var v := s.record.value;
            var end := Next(s, define).record;
            if Owns(s, define.token) && v.window.completedAt.None?
            then end == Some(v.(window := v.window.(active := true, domainObservedAt := Some(define.now),
                                                    deadlineAt := Some(define.now + Allowance(s.deploys[define.token].armed)))))
            else end == s.record
  {
  }

  /** A failure report: the owner's record goes to Error and its window is ended in every later run; other records stay. */
  lemma FailureIsFinal(s: System, fail: Step, steps: seq<Step>)
    requires Inv(s) && fail.Fail? && Enabled(s, fail) && s.record.Some? && ValidRun(Next(s, fail), steps)
    ensures !Owns(s, fail.token) ==> Next(s, fail).record == s.record
    ensures Owns(s, fail.token) ==>
              && Next(s, fail).record == Some(s.record.value.(phase := Error, window := s.record.value.window.(active := false)))
              && (Owns(Run(Next(s, fail), steps), fail.token) ==> !Run(Next(s, fail), steps).record.value.window.active)
  {
    if Owns(s, fail.token) {
      StepKeepsInv(s, fail);
      InactiveStaysInactive(Next(s, fail), steps, fail.token);
    }
  }

  // ----- What the install callbacks leave

  /** An install-complete callback completes exactly the active window of its token, on a record that is not Windows. */
  lemma InstallCompleteExactly(v: VirtualMachine, token: Token, now: Time)
    ensures var w := AfterInstallComplete(v, token, now);
            if v.windows || v.window.token != token || !v.window.active then w == v
            else
              && w.window == v.window.(active := false, completedAt := Some(now)) && w.missingSince == v.missingSince && !w.windows
              && (w.phase == Running <==> v.phase == Provisioning || v.phase == Running)
              && (w.phase != Running ==> w.phase == v.phase)
  {
  }

  /** A stage report in time, from the attempt that is active on a Windows record. */
  predicate Reported(v: VirtualMachine, token: Token, attemptId: string, now: Time) {
    && v.windows && v.window.active && v.window.token == token && v.window.attemptId == attemptId
    && (v.window.completedAt.None? && v.window.deadlineAt.Some? ==> now <= v.window.deadlineAt.value)
  }

  /** Each stage is accepted once the one before it was, and does its part alone. */
  lemma WindowsStageExactly(v: VirtualMachine, token: Token, attemptId: string, now: Time)
    ensures AfterWindowsStage(v, token, attemptId, InstallStarted, now) ==
            if Reported(v, token, attemptId, now) then v.(window := v.window.(installStarted := true)) else v
    ensures AfterWindowsStage(v, token, attemptId, ImageApplied, now) ==
            if Reported(v, token, attemptId, now) && v.window.installStarted then v.(window := v.window.(imageApplied := true)) else v
    ensures AfterWindowsStage(v, token, attemptId, Complete, now) ==
            if Reported(v, token, attemptId, now) && v.window.imageApplied
            then v.(phase := Running, window := v.window.(active := false, completedAt := Some(now))) else v
    ensures AfterWindowsStage(v, token, attemptId, Failed, now) ==
            if Reported(v, token, attemptId, now) then v.(phase := Error, window := v.window.(active := false)) else v
    ensures StageAccepted(v, token, attemptId, InstallStarted, now) <==> Reported(v, token, attemptId, now) && !v.window.installStarted
  {
  }

  predicate InOrder(v: VirtualMachine) {
    && (v.window.imageApplied ==> v.window.installStarted)
    && (v.windows && v.window.completedAt.Some? ==> v.window.imageApplied)
  }

  lemma StepKeepsOrder(s: System, step: Step)
    requires Inv(s) && Enabled(s, step) && (s.record.Some? ==> InOrder(s.record.value))
    ensures Next(s, step).record.Some? ==> InOrder(Next(s, step).record.value)
  {
    if step.DeployStatus? && s.record.Some? && !Owns(s, step.token) {
      ForeignStepKept(s, step);
    }
  }

  /** In every reachable state a Windows install is complete only after its image was applied, and that after it started. */
  lemma {:induction false} WindowsInstallsInOrder(s: System, steps: seq<Step>)
    requires Inv(s) && (s.record.Some? ==> InOrder(s.record.value)) && ValidRun(s, steps)
    ensures Run(s, steps).record.Some? ==> InOrder(Run(s, steps).record.value)
    decreases |steps|
  {
    if steps != [] {
      StepKeepsInv(s, steps[0]);
      StepKeepsOrder(s, steps[0]);
      WindowsInstallsInOrder(Next(s, steps[0]), steps[1..]);
    }
  }
}
