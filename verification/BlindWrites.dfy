/**
 Records that are not Windows are synced without the comparison: a call loads a
 row, asks the hypervisor, and stores what it computed from the snapshot as long
 as the row still exists. The protocol is that of `AttemptSwap` with a blind store.
 */
module BlindWrites {
  import opened Options
  import opened VmRecords
  import opened AttemptSwap

  /** The row a store step writes, if it writes one. */
  function StoredRow<R>(s: State<R>, pid: nat): Option<R>
    requires Enabled(s, Swap(pid))
  {
    var p := s.procs[pid];
    if p.call.name in s.rows then p.call.compute(p.snapshot.value) else None
  }

  function BlindNext<R(==)>(s: State<R>, step: Step<R>): State<R>
    requires Enabled(s, step)
  {
    match step
    case Swap(pid) =>
      var p := s.procs[pid];
      var row := StoredRow(s, pid);
      State(if row.Some? then s.rows[p.call.name := row.value] else s.rows, s.procs[pid := p.(tries := 0, snapshot := None)])
    case _ => Next(s, step)
  }

  predicate BlindRun<R(==)>(s: State<R>, steps: seq<Step<R>>)
    decreases |steps|
  {
    steps == [] || (Enabled(s, steps[0]) && BlindRun(BlindNext(s, steps[0]), steps[1..]))
  }

  function BlindEnd<R(==)>(s: State<R>, steps: seq<Step<R>>): State<R>
    requires BlindRun(s, steps)
    decreases |steps|
  {
    if steps == [] then s else BlindEnd(BlindNext(s, steps[0]), steps[1..])
  }

  // ----- When a blind run is atomic

  ghost predicate Unchecked<R(!new)>(call: Call<R>) {
    forall a, b :: call.sameAttempt(a, b)
  }

  /** The row is as the call read it, or it is gone. */
  predicate Unchanged<R(==)>(s: State<R>, pid: nat)
    requires Enabled(s, Swap(pid))
  {
    var p := s.procs[pid];
    p.call.name in s.rows ==> s.rows[p.call.name] == p.snapshot.value
  }

  /** Every store of the run finds its row unchanged. */
  ghost predicate Undisturbed<R(!new)>(s: State<R>, steps: seq<Step<R>>)
    requires BlindRun(s, steps)
    decreases |steps|
  {
    steps == [] ||
    (&& (steps[0].Swap? ==> Unchanged(s, steps[0].pid) && Unchecked(s.procs[steps[0].pid].call))
     && Undisturbed(BlindNext(s, steps[0]), steps[1..]))
  }

  function BlindLinearized<R(==)>(s: State<R>, steps: seq<Step<R>>): seq<AtomicStep<R>>
    requires BlindRun(s, steps)
    decreases |steps|
  {
    if steps == [] then []
    else
      var rest := BlindLinearized(BlindNext(s, steps[0]), steps[1..]);
      match steps[0]
      case Read(_) => rest
      case Write(name, row) => [Other(name, row)] + rest
      case Swap(pid) => [Atomic(s.procs[pid].call)] + rest
  }

  /** Then the run equals the one in which each call is atomic at its store. */
  lemma {:induction false} UndisturbedRunIsAtomic<R(!new)>(s: State<R>, steps: seq<Step<R>>)
    requires BlindRun(s, steps) && Undisturbed(s, steps)
    ensures BlindEnd(s, steps).rows == AtomicRun(s.rows, BlindLinearized(s, steps))
    decreases |steps|
  {
    if steps != [] {
      var next := BlindNext(s, steps[0]);
      UndisturbedRunIsAtomic(next, steps[1..]);
      if !steps[0].Read? {
        var all := BlindLinearized(s, steps);
        assert all[1..] == BlindLinearized(next, steps[1..]);
        assert AtomicNext(s.rows, all[0]) == next.rows;
      }
    }
  }

  /** A step that neither writes the row nor belongs to the call. */
  predicate LeavesAlone<R(==)>(s: State<R>, step: Step<R>, pid: nat, name: string)
    requires Enabled(s, step)
  {
    match step
    case Read(other) => other != pid
    case Write(n, _) => n != name
    case Swap(other) => other != pid && (s.procs[other].call.name != name || StoredRow(s, other).None?)
  }

  predicate NobodyWrites<R(==)>(s: State<R>, steps: seq<Step<R>>, pid: nat, name: string)
    requires BlindRun(s, steps)
    decreases |steps|
  {
    steps == [] || (LeavesAlone(s, steps[0], pid, name) && NobodyWrites(BlindNext(s, steps[0]), steps[1..], pid, name))
  }

  /** If nobody writes the row between the read and the store, the store finds it unchanged. */
  lemma {:induction false} QuietRowIsUnchanged<R>(s: State<R>, steps: seq<Step<R>>, pid: nat)
    requires BlindRun(s, steps) && Enabled(s, Swap(pid)) && Unchanged(s, pid)
    requires NobodyWrites(s, steps, pid, s.procs[pid].call.name)
    ensures Enabled(BlindEnd(s, steps), Swap(pid)) && Unchanged(BlindEnd(s, steps), pid)
    decreases |steps|
  {
    if steps != [] {
      QuietRowIsUnchanged(BlindNext(s, steps[0]), steps[1..], pid);
    }
  }

  // ----- What the stores do to the facts of a window

  /** Token, attempt, times, completion, observation and install markers: all of the window but whether it is active. */
  function Facts(v: VirtualMachine): Window {
    v.window.(active := false)
  }

  /** A call that changes no fact of what it read: a sync, a missing mark, a failure report, a status write. */
  ghost predicate KeepsFacts(call: Call<VirtualMachine>) {
    forall v :: call.compute(v).Some? ==> Facts(call.compute(v).value) == Facts(v)
  }

  ghost predicate AllKeepFacts(s: State<VirtualMachine>, name: string) {
    forall pid :: pid in s.procs && s.procs[pid].call.name == name ==> KeepsFacts(s.procs[pid].call)
  }

  /** The step stores into the row from a snapshot whose facts are not those of the row. */
  predicate Outdated(s: State<VirtualMachine>, step: Step<VirtualMachine>, name: string)
    requires Enabled(s, step)
  {
    && step.Swap? && s.procs[step.pid].call.name == name && StoredRow(s, step.pid).Some?
    && Facts(s.procs[step.pid].snapshot.value) != Facts(s.rows[name])
  }

  predicate NoneOutdated(s: State<VirtualMachine>, steps: seq<Step<VirtualMachine>>, name: string)
    requires BlindRun(s, steps)
    decreases |steps|
  {
    steps == [] || (!Outdated(s, steps[0], name) && NoneOutdated(BlindNext(s, steps[0]), steps[1..], name))
  }

  predicate HasFacts(rows: map<string, VirtualMachine>, name: string, facts: Window) {
    name in rows && Facts(rows[name]) == facts
  }

  /** Every state of the run has these facts in the row. */
  predicate FactsStay(s: State<VirtualMachine>, steps: seq<Step<VirtualMachine>>, name: string, facts: Window)
    requires BlindRun(s, steps)
    decreases |steps|
  {
    HasFacts(s.rows, name, facts) && (steps == [] || FactsStay(BlindNext(s, steps[0]), steps[1..], name, facts))
  }

  /** Whoever else writes, every store of a call into the row leaves its facts. */
  predicate StoresKeepFacts(s: State<VirtualMachine>, steps: seq<Step<VirtualMachine>>, name: string)
    requires BlindRun(s, steps)
    decreases |steps|
  {
    steps == [] ||
    (&& (steps[0].Swap? && name in s.rows ==> HasFacts(BlindNext(s, steps[0]).rows, name, Facts(s.rows[name])))
     && StoresKeepFacts(BlindNext(s, steps[0]), steps[1..], name))
  }

  lemma CallsStay(s: State<VirtualMachine>, step: Step<VirtualMachine>, name: string)
    requires Enabled(s, step) && AllKeepFacts(s, name)
    ensures AllKeepFacts(BlindNext(s, step), name)
  {
    var next := BlindNext(s, step);
    forall pid | pid in next.procs && next.procs[pid].call.name == name ensures KeepsFacts(next.procs[pid].call) {
      assert next.procs[pid].call == s.procs[pid].call;
    }
  }

  /** A step other than a foreign write leaves the facts of the row exactly when it is not an outdated store. */
  lemma StepKeepsFactsExactly(s: State<VirtualMachine>, step: Step<VirtualMachine>, name: string)
    requires Enabled(s, step) && AllKeepFacts(s, name) && name in s.rows && !(step.Write? && step.name == name)
    ensures HasFacts(BlindNext(s, step).rows, name, Facts(s.rows[name])) <==> !Outdated(s, step, name)
  {
    if step.Swap? && s.procs[step.pid].call.name == name {
      assert KeepsFacts(s.procs[step.pid].call);
    }
  }

  /** In every run without a foreign write to the row, its facts stay in every state exactly when no store is outdated. */
  lemma {:induction false} FactsStayExactly(s: State<VirtualMachine>, steps: seq<Step<VirtualMachine>>, name: string)
    requires BlindRun(s, steps) && AllKeepFacts(s, name) && name in s.rows
    requires forall i :: 0 <= i < |steps| ==> !(steps[i].Write? && steps[i].name == name)
    ensures FactsStay(s, steps, name, Facts(s.rows[name])) <==> NoneOutdated(s, steps, name)
    decreases |steps|
  {
    if steps != [] {
      StepKeepsFactsExactly(s, steps[0], name);
      if !Outdated(s, steps[0], name) {
        CallsStay(s, steps[0], name);
        FactsStayExactly(BlindNext(s, steps[0]), steps[1..], name);
      }
    }
  }

  /** In every run at all, no store changes the facts of the row exactly when no store is outdated. */
  lemma {:induction false} StoresKeepFactsExactly(s: State<VirtualMachine>, steps: seq<Step<VirtualMachine>>, name: string)
    requires BlindRun(s, steps) && AllKeepFacts(s, name)
    ensures StoresKeepFacts(s, steps, name) <==> NoneOutdated(s, steps, name)
    decreases |steps|
  {
    if steps != [] {
      if steps[0].Swap? && name in s.rows {
        StepKeepsFactsExactly(s, steps[0], name);
      }
      CallsStay(s, steps[0], name);
      StoresKeepFactsExactly(BlindNext(s, steps[0]), steps[1..], name);
    }
  }

  /** Whatever is being held of the row was read with its present facts. */
  predicate Current(s: State<VirtualMachine>, name: string) {
    forall pid :: pid in s.procs && s.procs[pid].call.name == name && s.procs[pid].snapshot.Some?
                  ==> HasFacts(s.rows, name, Facts(s.procs[pid].snapshot.value))
  }

  /** The foreign writes to the row change no fact and do not delete it. */
  predicate WritersKeepFacts(s: State<VirtualMachine>, steps: seq<Step<VirtualMachine>>, name: string)
    requires BlindRun(s, steps)
    decreases |steps|
  {
    steps == [] ||
    (&& (steps[0].Write? && steps[0].name == name && name in s.rows ==> HasFacts(BlindNext(s, steps[0]).rows, name, Facts(s.rows[name])))
     && WritersKeepFacts(BlindNext(s, steps[0]), steps[1..], name))
  }

  lemma StaysCurrent(s: State<VirtualMachine>, step: Step<VirtualMachine>, name: string)
    requires Enabled(s, step) && AllKeepFacts(s, name) && Current(s, name)
    requires name in s.rows ==> HasFacts(BlindNext(s, step).rows, name, Facts(s.rows[name]))
    ensures Current(BlindNext(s, step), name)
  {
    var next := BlindNext(s, step);
    forall pid | pid in next.procs && next.procs[pid].call.name == name && next.procs[pid].snapshot.Some?
      ensures HasFacts(next.rows, name, Facts(next.procs[pid].snapshot.value))
    {
      if next.procs[pid].snapshot == s.procs[pid].snapshot {
        assert HasFacts(s.rows, name, Facts(s.procs[pid].snapshot.value));
      }
    }
  }

  /** Stores go wrong only beside a writer that changes facts: without one, no store of any run is outdated. */
  lemma {:induction false} OnlyFactWritersOutdate(s: State<VirtualMachine>, steps: seq<Step<VirtualMachine>>, name: string)
    requires BlindRun(s, steps) && AllKeepFacts(s, name) && Current(s, name) && WritersKeepFacts(s, steps, name)
    ensures NoneOutdated(s, steps, name)
    decreases |steps|
  {
    if steps != [] {
      if name in s.rows && !(steps[0].Write? && steps[0].name == name) {
        StepKeepsFactsExactly(s, steps[0], name);
      }
      CallsStay(s, steps[0], name);
      StaysCurrent(s, steps[0], name);
      OnlyFactWritersOutdate(BlindNext(s, steps[0]), steps[1..], name);
    }
  }

  // ----- The calls that store blindly

  /** One call that loads its row before another writer stores `meanwhile` there, and stores after it. */
  function OneCall<R>(call: Call<R>, before: R): State<R> {
    State(map[call.name := before], map[0 := Proc(call, 1, None)])
  }

  function Interrupted<R>(name: string, meanwhile: R): seq<Step<R>> {
    [Read(0), Write(name, Some(meanwhile)), Swap(0)]
  }

  /** Whatever was written in between is lost. */
  lemma WriteInBetweenIsLost<R>(call: Call<R>, before: R, meanwhile: R, after: R)
    requires call.compute(before) == Some(after)
    ensures BlindRun(OneCall(call, before), Interrupted(call.name, meanwhile))
    ensures BlindEnd(OneCall(call, before), Interrupted(call.name, meanwhile)).rows == map[call.name := after]
  {
    var s, steps := OneCall(call, before), Interrupted(call.name, meanwhile);
    var s1 := BlindNext(s, steps[0]);
    var s2 := BlindNext(s1, steps[1]);
    var s3 := BlindNext(s2, steps[2]);
    assert s2.rows == map[call.name := meanwhile] && s2.procs[0].snapshot == Some(before);
    assert BlindRun(s3, []) && BlindEnd(s3, []) == s3;
    assert BlindRun(s2, [steps[2]]) && BlindEnd(s2, [steps[2]]) == s3;
    assert steps[1..][1..] == [steps[2]];
    assert BlindRun(s1, steps[1..]) && BlindEnd(s1, steps[1..]) == s3;
  }

  function BlindSync(name: string, found: Option<DomainState>, checked: Time, stamp: Time): Call<VirtualMachine> {
    VmSync(name, found, checked, stamp).(sameAttempt := (before, after) => true)
  }

  function BlindMissing(name: string, checked: Time, stamp: Time): Call<VirtualMachine> {
    Call(name, (v: VirtualMachine) => if DeployInFlight(v, checked) then None else Some(MarkedMissing(v, stamp)), (before, after) => true)
  }

  function BlindFail(name: string, token: Token): Call<VirtualMachine> {
    Call(name, (v: VirtualMachine) => if v.window.token == token then Some(AfterFail(v, token)) else None, (before, after) => true)
  }

  function BlindStatus(name: string, phase: Phase): Call<VirtualMachine> {
    Call(name, (v: VirtualMachine) => Some(v.(phase := phase)), (before, after) => true)
  }

  lemma SyncKeepsFacts(v: VirtualMachine, found: Option<DomainState>, checked: Time, stamp: Time)
    ensures Facts(SyncedRow(v, found, checked, stamp)) == Facts(v)
  {
  }

  /** The theorems above are about the sync, the missing mark, the failure report and the status write. */
  lemma BlindCallsKeepFacts(name: string, found: Option<DomainState>, checked: Time, stamp: Time, token: Token, phase: Phase)
    ensures KeepsFacts(BlindSync(name, found, checked, stamp)) && KeepsFacts(BlindMissing(name, checked, stamp))
    ensures KeepsFacts(BlindFail(name, token)) && KeepsFacts(BlindStatus(name, phase))
  {
    forall v | BlindSync(name, found, checked, stamp).compute(v).Some?
      ensures Facts(BlindSync(name, found, checked, stamp).compute(v).value) == Facts(v)
    {
      SyncKeepsFacts(v, found, checked, stamp);
    }
  }

  /** The row of a sync that another writer interrupted. */
  ghost predicate EndsWith(before: VirtualMachine, meanwhile: VirtualMachine, found: DomainState, now: Time, after: VirtualMachine) {
    var s := OneCall(BlindSync("vm", Some(found), now, now), before);
    BlindRun(s, Interrupted("vm", meanwhile)) && BlindEnd(s, Interrupted("vm", meanwhile)).rows == map["vm" := after]
  }

  lemma InterruptedSync(before: VirtualMachine, meanwhile: VirtualMachine, found: DomainState, now: Time)
    requires AfterFound(before, found, now) != before
    ensures EndsWith(before, meanwhile, found, now, AfterFound(before, found, now))
  {
    WriteInBetweenIsLost(BlindSync("vm", Some(found), now, now), before, meanwhile, AfterFound(before, found, now));
  }

  /** A record whose sync has something to write: it is Pending, and its domain runs. */
  function Waiting(token: Token, attemptId: string, timeout: int): VirtualMachine {
    VirtualMachine(Pending, false, None, ArmedWindow(token, attemptId, 0, timeout))
  }

  /** Its sync ends, whoever wrote in between, with the window as it was read. */
  lemma WaitingIsRestored(token: Token, attemptId: string, timeout: int, meanwhile: VirtualMachine)
    requires timeout > 2
    ensures EndsWith(Waiting(token, attemptId, timeout), meanwhile, DomainRunning, 2,
                     Waiting(token, attemptId, timeout).(phase := Provisioning))
  {
    assert AfterFound(Waiting(token, attemptId, timeout), DomainRunning, 2) == Waiting(token, attemptId, timeout).(phase := Provisioning);
    InterruptedSync(Waiting(token, attemptId, timeout), meanwhile, DomainRunning, 2);
  }

  lemma CallbackCompletes(token: Token, attemptId: string, timeout: int)
    ensures var completed := AfterInstallComplete(Waiting(token, attemptId, timeout), token, 1);
            completed.window.completedAt == Some(1) && !completed.window.active
  {
  }

  /** A sync that overlaps an install-complete callback takes the completion back and leaves the window active. */
  lemma CompletionIsUndone(token: Token, attemptId: string, timeout: int)
    requires timeout > 2
    ensures var completed := AfterInstallComplete(Waiting(token, attemptId, timeout), token, 1);
            var end := Waiting(token, attemptId, timeout).(phase := Provisioning);
            && EndsWith(Waiting(token, attemptId, timeout), completed, DomainRunning, 2, end)
            && completed.window.completedAt == Some(1) && end.window.completedAt.None? && end.window.active
  {
    CallbackCompletes(token, attemptId, timeout);
    WaitingIsRestored(token, attemptId, timeout, AfterInstallComplete(Waiting(token, attemptId, timeout), token, 1));
  }

  /** One that overlaps a redeploy puts the old token's window back over the new one. */
  lemma NewWindowIsOverwritten(token: Token, newer: Token, attemptId: string, timeout: int)
    requires timeout > 2 && newer != token
    ensures var before := Waiting(token, attemptId, timeout);
            var redeployed := VirtualMachine(Provisioning, false, None, ArmedWindow(newer, attemptId, 1, timeout));
            && EndsWith(before, redeployed, DomainRunning, 2, before.(phase := Provisioning))
            && before.window.token != redeployed.window.token
  {
    var redeployed := VirtualMachine(Provisioning, false, None, ArmedWindow(newer, attemptId, 1, timeout));
    WaitingIsRestored(token, attemptId, timeout, redeployed);
  }
}
