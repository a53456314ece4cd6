/**
 The virtual machine record and the calls that rewrite it: the deployer, the
 runtime sync loop, the power handlers and the install callbacks. Each call is
 given twice: as a function on one record (what the call means), and as a
 method of `VmService` that edits the stored record field by field.
 */
module VmRecords {
  import opened Options

  type Time = int
  type Token = string

  datatype Phase = Pending | Creating | Running | Stopped | Provisioning | Error | Deleting | Migrating | Missing

  datatype DomainState = DomainRunning | DomainShutoff | DomainPaused | DomainCrashed | DomainUnknown

  datatype WindowsStage = InstallStarted | ImageApplied | Failed | Complete

  /** The provisioning window a deploy arms (ProvisioningStatus). */
  datatype Window = Window(
    token: Token,
    attemptId: string,
    active: bool,
    startedAt: Option<Time>,
    deadlineAt: Option<Time>,
    completedAt: Option<Time>,
    domainObservedAt: Option<Time>,
    installStarted: bool,
    imageApplied: bool)

  datatype VirtualMachine = VirtualMachine(
    phase: Phase,
    windows: bool,
    missingSince: Option<Time>,
    window: Window)

  function ArmedWindow(token: Token, attemptId: string, now: Time, timeout: int): Window {
    Window(token, attemptId, true, Some(now), Some(now + timeout), None, None, false, false)
  }

  predicate TimedOut(w: Window, now: Time) {
    w.active && w.completedAt.None? && w.deadlineAt.Some? && now > w.deadlineAt.value
  }

  /** A deploy may still be preparing the domain, so its absence is expected. */
  predicate DeployInFlight(v: VirtualMachine, now: Time) {
    v.window.active && !TimedOut(v.window, now) && v.window.domainObservedAt.None?
  }

  function PhaseOfDomain(state: DomainState, current: Phase, w: Window): Phase {
    if w.active && w.completedAt.None? then
      if state.DomainCrashed? then Error else Provisioning
    else
      match state
      case DomainRunning => Running
      case DomainShutoff | DomainPaused => Stopped
      case DomainCrashed => Error
      case DomainUnknown => current
  }

  // ----- The calls, as functions on one record

  function MarkedMissing(v: VirtualMachine, stamp: Time): VirtualMachine {
    v.(phase := Missing,
       missingSince := if v.phase == Missing && v.missingSince.Some? then v.missingSince else Some(stamp),
       window := v.window.(active := false))
  }

  /** A typed not-found answer, read at `checked` and stamped at `stamp`. */
  function AfterNotFound(v: VirtualMachine, checked: Time, stamp: Time): VirtualMachine {
    if DeployInFlight(v, checked) then v else MarkedMissing(v, stamp)
  }

  /** The sync loop found the domain in the given state. */
  function AfterFound(v: VirtualMachine, state: DomainState, now: Time): VirtualMachine {
    var expired := TimedOut(v.window, now);
    var mapped := if expired then Error else PhaseOfDomain(state, v.phase, v.window);
    v.(phase := if mapped == Missing then Stopped else mapped,
       missingSince := if v.phase == Missing then None else v.missingSince,
       window := v.window.(active := v.window.active && !expired))
  }

  predicate DefineApplies(v: VirtualMachine, token: Token) {
    v.window.token == token && v.window.completedAt.None? && v.window.domainObservedAt.None?
  }

  function RenewedDeadline(w: Window, now: Time): Option<Time> {
    if w.startedAt.Some? && w.deadlineAt.Some?
    then Some(now + (w.deadlineAt.value - w.startedAt.value))
    else w.deadlineAt
  }

  function AfterDefine(v: VirtualMachine, token: Token, now: Time): VirtualMachine {
    if DefineApplies(v, token)
    then v.(window := v.window.(domainObservedAt := Some(now),
                                deadlineAt := RenewedDeadline(v.window, now),
                                active := true))
    else v
  }

  /** The caller's in-memory window after it marked its domain defined. */
  function SnapshotAfterDefine(v: VirtualMachine, snapshot: Window, now: Time): Window {
    if v.window.token != snapshot.token then snapshot
    else
      var w := AfterDefine(v, snapshot.token, now).window;
      snapshot.(domainObservedAt := w.domainObservedAt, deadlineAt := w.deadlineAt)
  }

  predicate RemovedAfterObservation(v: VirtualMachine) {
    v.phase == Missing && v.window.domainObservedAt.Some? && v.missingSince.Some? &&
    v.missingSince.value > v.window.domainObservedAt.value
  }

  predicate DeployStatusApplies(v: VirtualMachine, token: Token) {
    v.window.token == token && v.window.completedAt.None? &&
    (v.window.active || !(RemovedAfterObservation(v) || v.phase == Error))
  }

  function LaterDeadline(stored: Option<Time>, snapshot: Option<Time>): Option<Time> {
    if stored.Some? && (snapshot.None? || stored.value > snapshot.value) then stored else snapshot
  }

  function Restored(stored: Window, snapshot: Window): Window {
    snapshot.(
      domainObservedAt := if snapshot.domainObservedAt.None? then stored.domainObservedAt else snapshot.domainObservedAt,
      deadlineAt := LaterDeadline(stored.deadlineAt, snapshot.deadlineAt),
      installStarted := snapshot.installStarted || stored.installStarted,
      imageApplied := snapshot.imageApplied || stored.imageApplied)
  }

  function AfterDeployStatus(v: VirtualMachine, phase: Phase, snapshot: Window): VirtualMachine {
    if DeployStatusApplies(v, snapshot.token)
    then v.(phase := phase,
            missingSince := None,
            window := Restored(v.window, snapshot))
    else v
  }

  function AfterFail(v: VirtualMachine, token: Token): VirtualMachine {
    if v.window.token == token
    then v.(phase := Error, window := v.window.(active := v.window.active && v.window.completedAt.Some?))
    else v
  }

  /** The PXE install-complete callback; Windows records use the staged callback instead. */
  function AfterInstallComplete(v: VirtualMachine, token: Token, now: Time): VirtualMachine {
    if !v.windows && v.window.token == token && v.window.active
    then v.(phase := if v.phase == Provisioning then Running else v.phase,
            window := v.window.(active := false, completedAt := Some(now)))
    else v
  }

  predicate StageAccepted(v: VirtualMachine, token: Token, attemptId: string, stage: WindowsStage, now: Time) {
    && v.windows && v.window.token == token && v.window.attemptId == attemptId && v.window.active
    && (v.window.completedAt.Some? || v.window.deadlineAt.None? || now <= v.window.deadlineAt.value)
    && (stage.InstallStarted? ==> !v.window.installStarted)
    && (stage.ImageApplied? ==> v.window.installStarted)
    && (stage.Complete? ==> v.window.imageApplied)
  }

  function AfterWindowsStage(v: VirtualMachine, token: Token, attemptId: string, stage: WindowsStage, now: Time): VirtualMachine {
    if !StageAccepted(v, token, attemptId, stage, now) then v
    else
      match stage
      case InstallStarted => v.(window := v.window.(installStarted := true))
      case ImageApplied => v.(window := v.window.(imageApplied := true))
      case Failed => v.(phase := Error, window := v.window.(active := false))
      case Complete => v.(phase := Running, window := v.window.(active := false, completedAt := Some(now)))
  }

  // ----- The calls, as the service performs them on its store

  datatype Outcome = Wrote | Kept | NotFound

  class VmService {
    var vms: map<string, VirtualMachine>

    constructor ()
      ensures vms == map[]
    {
      vms := map[];
    }

    /** Existence-checked write: a deleted row is never recreated. */
    method UpdateExisting(name: string, v: VirtualMachine) returns (written: bool)
      modifies this
      ensures written == (name in old(vms))
      ensures vms == if written then old(vms)[name := v] else old(vms)
    {
      written := name in vms;
      if written {
        vms := vms[name := v];
      }
    }

    method UpdateStatus(name: string, phase: Phase) returns (r: Outcome)
      modifies this
      ensures name !in old(vms) ==> r == NotFound && vms == old(vms)
      ensures name in old(vms) ==> r == Wrote && vms == old(vms)[name := old(vms)[name].(phase := phase)]
    {
      if name !in vms {
        return NotFound;
      }
      var v := vms[name];
      v := v.(phase := phase);
      var written := UpdateExisting(name, v);
      r := if written then Wrote else NotFound;
    }

    /** What a completing deploy writes back: its snapshot, minus nothing recorded meanwhile. */
    method RestoreWindow(stored: Window, snapshot: Window) returns (prov: Window)
      ensures prov == Restored(stored, snapshot)
    {
      prov := snapshot;
      if prov.domainObservedAt.None? {
        prov := prov.(domainObservedAt := stored.domainObservedAt);
      }
      if stored.deadlineAt.Some? && (prov.deadlineAt.None? || stored.deadlineAt.value > prov.deadlineAt.value) {
        prov := prov.(deadlineAt := stored.deadlineAt);
      }
      prov := prov.(installStarted := prov.installStarted || stored.installStarted);
      prov := prov.(imageApplied := prov.imageApplied || stored.imageApplied);
    }

    method UpdateDeployStatus(name: string, phase: Phase, provisioning: Window) returns (r: Outcome)
      modifies this
      ensures name !in old(vms) ==> r == NotFound && vms == old(vms)
      ensures name in old(vms) ==>
                && vms == old(vms)[name := AfterDeployStatus(old(vms)[name], phase, provisioning)]
                && (r == Wrote <==> DeployStatusApplies(old(vms)[name], provisioning.token))
                && (r == Kept <==> !DeployStatusApplies(old(vms)[name], provisioning.token))
    {
      if name !in vms {
        return NotFound;
      }
      var v := vms[name];
      var prov := provisioning;
      if v.window.token != prov.token {
        return Kept;
      }
      if v.window.completedAt.Some? {
        return Kept;
      }
      if !v.window.active {
        var removedAfterObservation :=
          v.phase == Missing && v.window.domainObservedAt.Some? && v.missingSince.Some? &&
          v.missingSince.value > v.window.domainObservedAt.value;
        if removedAfterObservation || v.phase == Error {
          return Kept;
        }
      }
      v := v.(missingSince := None);
      prov := RestoreWindow(v.window, prov);
      v := v.(phase := phase);
      v := v.(window := prov);
      var written := UpdateExisting(name, v);
      r := if written then Wrote else NotFound;
    }

    method MarkMissing(name: string, checked: Time, stamp: Time) returns (r: Outcome)
      modifies this
      ensures name !in old(vms) ==> r == NotFound && vms == old(vms)
      ensures name in old(vms) ==>
                && vms == old(vms)[name := AfterNotFound(old(vms)[name], checked, stamp)]
                && (r == Kept <==> DeployInFlight(old(vms)[name], checked))
    {
      if name !in vms {
        return NotFound;
      }
      var v := vms[name];
      if DeployInFlight(v, checked) {
        return Kept;
      }
      if v.phase != Missing || v.missingSince.None? {
        v := v.(missingSince := Some(stamp));
      }
      v := v.(phase := Missing);
      v := v.(window := v.window.(active := false));
      var written := UpdateExisting(name, v);
      r := if written then Wrote else NotFound;
    }

    method FailDeploy(name: string, token: Token) returns (r: Outcome)
      modifies this
      ensures name !in old(vms) ==> r == NotFound && vms == old(vms)
      ensures name in old(vms) ==>
                && vms == old(vms)[name := AfterFail(old(vms)[name], token)]
                && (r == Kept <==> old(vms)[name].window.token != token)
    {
      if name !in vms {
        return NotFound;
      }
      var v := vms[name];
      if v.window.token != token {
        return Kept;
      }
      v := v.(phase := Error);
      if v.window.completedAt.None? {
        v := v.(window := v.window.(active := false));
      }
      var written := UpdateExisting(name, v);
      r := if written then Wrote else NotFound;
    }

    /** Stamps the stored window and refreshes the deployer's own snapshot of it. */
    method MarkDomainDefined(name: string, deployed: Window, now: Time) returns (snapshot: Window)
      modifies this
      ensures name !in old(vms) ==> vms == old(vms) && snapshot == deployed
      ensures name in old(vms) ==>
                && vms == old(vms)[name := AfterDefine(old(vms)[name], deployed.token, now)]
                && snapshot == SnapshotAfterDefine(old(vms)[name], deployed, now)
    {
      snapshot := deployed;
      if name !in vms {
        return;
      }
      var v := vms[name];
      if v.window.token != deployed.token {
        return;
      }
      if v.window.completedAt.None? && v.window.domainObservedAt.None? {
        var w := v.window.(domainObservedAt := Some(now));
        if w.startedAt.Some? && w.deadlineAt.Some? {
          var window := w.deadlineAt.value - w.startedAt.value;
          w := w.(deadlineAt := Some(now + window));
        }
        w := w.(active := true);
        v := v.(window := w);
        var written := UpdateExisting(name, v);
        if !written {
          return;
        }
      }
      assert v == AfterDefine(old(vms)[name], deployed.token, now);
      snapshot := snapshot.(domainObservedAt := v.window.domainObservedAt, deadlineAt := v.window.deadlineAt);
    }

    /** One sync of one record; `found` is None when libvirt answers not-found. */
    method SyncWithExecutor(name: string, found: Option<DomainState>, checked: Time, stamp: Time) returns (r: Outcome)
      modifies this
      ensures name !in old(vms) ==> r == NotFound && vms == old(vms)
      ensures name in old(vms) ==>
                vms == old(vms)[name := match found
                                        case None => AfterNotFound(old(vms)[name], checked, stamp)
                                        case Some(state) => AfterFound(old(vms)[name], state, checked)]
    {
      if name !in vms {
        return NotFound;
      }
      var v := vms[name];
      var updated := v;
      if found.None? {
        if DeployInFlight(v, checked) {
          return Kept;
        }
        updated := updated.(phase := Missing);
        updated := updated.(window := updated.window.(active := false));
        if v.phase != Missing || updated.missingSince.None? {
          updated := updated.(missingSince := Some(stamp));
        }
      } else {
        if v.phase == Missing {
          updated := updated.(missingSince := None);
        }
        if TimedOut(updated.window, checked) {
          updated := updated.(window := updated.window.(active := false));
          updated := updated.(phase := Error);
        } else {
          updated := updated.(phase := PhaseOfDomain(found.value, v.phase, v.window));
        }
        if updated.phase == Missing {
          updated := updated.(phase := Stopped);
        }
      }
      if v == updated {
        return Kept;
      }
      var written := UpdateExisting(name, updated);
      r := if written then Wrote else NotFound;
    }
  }
}
