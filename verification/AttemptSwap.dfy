/**
 Snapshot compare-and-swap for Windows records. A call loads a row, computes a
 replacement from the snapshot and swaps it in only while the row still equals
 the snapshot and belongs to the same provisioning attempt. Between its read and
 its swap any other writer may run.
 */
module AttemptSwap {
  import opened Options
  import opened VmRecords

  // ----- The protocol, for any kind of record

  /**
   A call on one row: `compute` gives the replacement, or None to write nothing;
   `sameAttempt` is the store's token and attempt check.
   */
  datatype Call<!R> = Call(name: string, compute: R -> Option<R>, sameAttempt: (R, R) -> bool)

  /** A call under way: the tries it has left and, between its read and its swap, what it read. */
  datatype Proc<!R> = Proc(call: Call<R>, tries: nat, snapshot: Option<R>)

  datatype State<!R> = State(rows: map<string, R>, procs: map<nat, Proc<R>>)

  datatype Step<R> = Read(pid: nat) | Swap(pid: nat) | Write(name: string, row: Option<R>)

  /** UpdateProvisioningAttempt: the comparison and the write are one atomic step. */
  predicate Swaps<R(==)>(rows: map<string, R>, call: Call<R>, before: R, after: R) {
    call.name in rows && call.sameAttempt(before, after) && rows[call.name] == before
  }

  function WriteRow<R>(rows: map<string, R>, name: string, row: Option<R>): map<string, R> {
    match row
    case None => rows - {name}
    case Some(r) => rows[name := r]
  }

  predicate Enabled<R>(s: State<R>, step: Step<R>) {
    match step
    case Read(pid) => pid in s.procs && s.procs[pid].tries > 0 && s.procs[pid].snapshot.None?
    case Swap(pid) => pid in s.procs && s.procs[pid].snapshot.Some?
    case Write(_, _) => true
  }

  /** The row a swap step writes, if it writes one. */
  function Swapped<R(==)>(s: State<R>, pid: nat): Option<R>
    requires Enabled(s, Swap(pid))
  {
    var p := s.procs[pid];
    var after := p.call.compute(p.snapshot.value);
    if after.Some? && Swaps(s.rows, p.call, p.snapshot.value, after.value) then after else None
  }

  function Next<R(==)>(s: State<R>, step: Step<R>): State<R>
    requires Enabled(s, step)
  {
    match step
    case Write(name, row) => s.(rows := WriteRow(s.rows, name, row))
    case Read(pid) =>
      var p := s.procs[pid];
      if p.call.name in s.rows
      then s.(procs := s.procs[pid := p.(tries := p.tries - 1, snapshot := Some(s.rows[p.call.name]))])
      else s.(procs := s.procs[pid := p.(tries := 0)])
    case Swap(pid) =>
      var p := s.procs[pid];
      var wrote := Swapped(s, pid);
      if wrote.Some?
      then State(s.rows[p.call.name := wrote.value], s.procs[pid := p.(tries := 0, snapshot := None)])
      else
        var left := if p.call.compute(p.snapshot.value).None? then 0 else p.tries;
        s.(procs := s.procs[pid := p.(tries := left, snapshot := None)])
  }

  predicate ValidRun<R(==)>(s: State<R>, steps: seq<Step<R>>)
    decreases |steps|
  {
    steps == [] || (Enabled(s, steps[0]) && ValidRun(Next(s, steps[0]), steps[1..]))
  }

  function Run<R(==)>(s: State<R>, steps: seq<Step<R>>): State<R>
    requires ValidRun(s, steps)
    decreases |steps|
  {
    if steps == [] then s else Run(Next(s, steps[0]), steps[1..])
  }

  // ----- The atomic reference: read, compute and write in one step

  datatype AtomicStep<!R> = Atomic(call: Call<R>) | Other(name: string, row: Option<R>)

  function AtomicNext<R>(rows: map<string, R>, step: AtomicStep<R>): map<string, R> {
    match step
    case Other(name, row) => WriteRow(rows, name, row)
    case Atomic(call) =>
      if call.name !in rows then rows
      else
        var after := call.compute(rows[call.name]);
        if after.Some? && call.sameAttempt(rows[call.name], after.value) then rows[call.name := after.value] else rows
  }

  function AtomicRun<R>(rows: map<string, R>, steps: seq<AtomicStep<R>>): map<string, R>
    decreases |steps|
  {
    if steps == [] then rows else AtomicRun(AtomicNext(rows, steps[0]), steps[1..])
  }

  /** The atomic run a split run stands for: successful swaps and other writes, in order. */
  function Linearized<R(==)>(s: State<R>, steps: seq<Step<R>>): seq<AtomicStep<R>>
    requires ValidRun(s, steps)
    decreases |steps|
  {
    if steps == [] then []
    else
      var rest := Linearized(Next(s, steps[0]), steps[1..]);
      match steps[0]
      case Read(_) => rest
      case Write(name, row) => [Other(name, row)] + rest
      case Swap(pid) => if Swapped(s, pid).Some? then [Atomic(s.procs[pid].call)] + rest else rest
  }

  lemma {:induction false} SplitRunIsAtomic<R>(s: State<R>, steps: seq<Step<R>>)
    requires ValidRun(s, steps)
    ensures Run(s, steps).rows == AtomicRun(s.rows, Linearized(s, steps))
    decreases |steps|
  {
    if steps != [] {
      var next := Next(s, steps[0]);
      var rest := Linearized(next, steps[1..]);
      SplitRunIsAtomic(next, steps[1..]);
      var all := Linearized(s, steps);
      match steps[0]
      case Read(_) =>
      case Write(_, _) => assert all[1..] == rest;
      case Swap(pid) =>
        if Swapped(s, pid).Some? {
          assert all[1..] == rest;
          assert AtomicNext(s.rows, all[0]) == next.rows;
        }
    }
  }

  /** A swap that does not write changes no row; one that writes keeps the stored attempt. */
  lemma SwapOutcome<R>(s: State<R>, pid: nat)
    requires Enabled(s, Swap(pid))
    ensures var p := s.procs[pid];
            match Swapped(s, pid)
            case None => Next(s, Swap(pid)).rows == s.rows
            case Some(row) =>
              && p.call.name in s.rows && p.call.sameAttempt(s.rows[p.call.name], row)
              && p.call.compute(s.rows[p.call.name]) == Some(row)
              && Next(s, Swap(pid)).rows == s.rows[p.call.name := row]
  {
  }

  function SwapsBy<R(==)>(s: State<R>, steps: seq<Step<R>>, pid: nat): nat
    requires ValidRun(s, steps)
    decreases |steps|
  {
    if steps == [] then 0
    else (if steps[0] == Swap(pid) && Swapped(s, pid).Some? then 1 else 0) + SwapsBy(Next(s, steps[0]), steps[1..], pid)
  }

  /** However often it retries, one call writes at most once. */
  lemma {:induction false} EachCallWritesOnce<R>(s: State<R>, steps: seq<Step<R>>, pid: nat)
    requires ValidRun(s, steps) && pid in s.procs
    ensures SwapsBy(s, steps, pid) <= 1
    ensures s.procs[pid].tries == 0 && s.procs[pid].snapshot.None? ==> SwapsBy(s, steps, pid) == 0
    decreases |steps|
  {
    if steps != [] {
      EachCallWritesOnce(Next(s, steps[0]), steps[1..], pid);
    }
  }

  // ----- The Windows calls on virtual machines

  predicate SameVmAttempt(before: VirtualMachine, after: VirtualMachine) {
    before.window.token == after.window.token && before.window.attemptId == after.window.attemptId
  }

  function SyncedRow(v: VirtualMachine, found: Option<DomainState>, checked: Time, stamp: Time): VirtualMachine {
    match found
    case None => AfterNotFound(v, checked, stamp)
    case Some(state) => AfterFound(v, state, checked)
  }

  function VmSync(name: string, found: Option<DomainState>, checked: Time, stamp: Time): Call<VirtualMachine> {
    Call(name,
         (v: VirtualMachine) =>
           if SyncedRow(v, found, checked, stamp) == v then None else Some(SyncedRow(v, found, checked, stamp)),
         SameVmAttempt)
  }

  function VmDeployStatus(name: string, phase: Phase, snapshot: Window): Call<VirtualMachine> {
    Call(name,
         (v: VirtualMachine) =>
           if DeployStatusApplies(v, snapshot.token) then Some(AfterDeployStatus(v, phase, snapshot)) else None,
         SameVmAttempt)
  }

  /** At its swap, a split Windows sync has exactly the effect of an uninterrupted sync of the stored row. */
  lemma SplitSyncIsSync(s: State<VirtualMachine>, pid: nat, name: string, found: Option<DomainState>, checked: Time, stamp: Time)
    requires Enabled(s, Swap(pid)) && s.procs[pid].call == VmSync(name, found, checked, stamp)
    requires Swapped(s, pid).Some?
    ensures name in s.rows
    ensures Next(s, Swap(pid)).rows == s.rows[name := SyncedRow(s.rows[name], found, checked, stamp)]
  {
    SwapOutcome(s, pid);
  }

  lemma SplitDeployStatusIsDeployStatus(s: State<VirtualMachine>, pid: nat, name: string, phase: Phase, snapshot: Window)
    requires Enabled(s, Swap(pid)) && s.procs[pid].call == VmDeployStatus(name, phase, snapshot)
    requires Swapped(s, pid).Some?
    ensures name in s.rows && s.rows[name].window.token == snapshot.token && s.rows[name].window.attemptId == snapshot.attemptId
    ensures Next(s, Swap(pid)).rows == s.rows[name := AfterDeployStatus(s.rows[name], phase, snapshot)]
  {
    SwapOutcome(s, pid);
  }

  /** A call whose row did not change in between writes what it computes, within the attempt. */
  lemma UndisturbedSwap<R>(s: State<R>, pid: nat)
    requires Enabled(s, Swap(pid)) && s.procs[pid].call.name in s.rows
    requires s.procs[pid].snapshot == Some(s.rows[s.procs[pid].call.name])
    ensures Next(s, Swap(pid)).rows == AtomicNext(s.rows, Atomic(s.procs[pid].call))
  {
  }

  lemma SyncKeepsAttempt(v: VirtualMachine, found: Option<DomainState>, checked: Time, stamp: Time)
    ensures SameVmAttempt(v, SyncedRow(v, found, checked, stamp))
  {
  }

  lemma UndisturbedResult<R>(s: State<R>, pid: nat, row: R)
    requires Enabled(s, Swap(pid)) && s.procs[pid].call.name in s.rows
    requires s.procs[pid].snapshot == Some(s.rows[s.procs[pid].call.name])
    requires var was := s.rows[s.procs[pid].call.name];
             s.procs[pid].call.compute(was) == (if row == was then None else Some(row)) && s.procs[pid].call.sameAttempt(was, row)
    ensures Next(s, Swap(pid)).rows == s.rows[s.procs[pid].call.name := row]
  {
    UndisturbedSwap(s, pid);
  }

  lemma SyncComputes(name: string, v: VirtualMachine, found: Option<DomainState>, checked: Time, stamp: Time, w: VirtualMachine)
    requires w == SyncedRow(v, found, checked, stamp)
    ensures VmSync(name, found, checked, stamp).compute(v) == (if w == v then None else Some(w))
    ensures VmSync(name, found, checked, stamp).sameAttempt(v, w)
  {
    SyncKeepsAttempt(v, found, checked, stamp);
  }

  /** A sync whose row did not change in between does write what it has to. */
  lemma UndisturbedSyncWrites(s: State<VirtualMachine>, pid: nat, name: string, found: Option<DomainState>, checked: Time, stamp: Time)
    requires Enabled(s, Swap(pid)) && s.procs[pid].call == VmSync(name, found, checked, stamp)
    requires name in s.rows && s.procs[pid].snapshot == Some(s.rows[name])
    ensures Next(s, Swap(pid)).rows == s.rows[name := SyncedRow(s.rows[name], found, checked, stamp)]
  {
    var w := SyncedRow(s.rows[name], found, checked, stamp);
    SyncComputes(name, s.rows[name], found, checked, stamp, w);
    UndisturbedResult(s, pid, w);
  }

  /** So does a deploy status, for the attempt that armed the window. */
  lemma UndisturbedDeployStatusWrites(s: State<VirtualMachine>, pid: nat, name: string, phase: Phase, snapshot: Window)
    requires Enabled(s, Swap(pid)) && s.procs[pid].call == VmDeployStatus(name, phase, snapshot)
    requires name in s.rows && s.procs[pid].snapshot == Some(s.rows[name]) && s.rows[name].window.attemptId == snapshot.attemptId
    ensures Next(s, Swap(pid)).rows == s.rows[name := AfterDeployStatus(s.rows[name], phase, snapshot)]
  {
  }

  // ----- The Windows calls on machines

  datatype MachinePhase = MachineReady | MachineProvisioning | MachineError

  datatype Progress = Progress(
    active: bool, attemptId: string, token: Token, deadlineAt: Option<Time>,
    completedAt: Option<Time>, completionSource: string, artifacts: map<string, string>)

  datatype Machine = Machine(
    name: string, mac: string, windows: bool, phase: MachinePhase,
    lastError: string, lastPowerAction: string, updatedAt: Time, provision: Option<Progress>)

  predicate SameMachineAttempt(before: Machine, after: Machine) {
    && before.name == after.name && before.provision.Some? && after.provision.Some?
    && before.provision.value.token == after.provision.value.token
    && before.provision.value.attemptId == after.provision.value.attemptId
  }

  function Lower(s: string): string {
    seq(|s|, i requires 0 <= i < |s| => if 'A' <= s[i] <= 'Z' then s[i] - 'A' + 'a' else s[i])
  }

  predicate Artifact(p: Progress, key: string) {
    key in p.artifacts && p.artifacts[key] == "true"
  }

  /** Whether the attempt shows wake-up evidence; None when it is no longer the expected attempt. */
  function WakeProgress(current: Machine, expected: Machine): Option<bool> {
    if || expected.provision.None? || expected.provision.value.attemptId == ""
       || current.provision.None? || current.provision.value.attemptId != expected.provision.value.attemptId
       || current.name != expected.name || Lower(current.mac) != Lower(expected.mac) || !current.windows
    then None
    else
      var p := current.provision.value;
      Some(|| Artifact(p, "windowsInstallStarted") || Artifact(p, "imageApplied")
           || (p.completedAt.Some? && p.completionSource == "windows"))
  }

  function PowerUpdate(current: Machine, expected: Machine, action: string, lastError: Option<string>, now: Time): Option<Machine> {
    var progressed := WakeProgress(current, expected);
    if progressed.None? || !current.provision.value.active then None
    else if lastError.Some? && (progressed.value || current.lastError != "") then None
    else
      Some(current.(lastPowerAction := action, updatedAt := now,
                    lastError := if lastError.Some? then lastError.value else current.lastError))
  }

  function TimeoutUpdate(before: Machine, now: Time): Option<Machine> {
    if before.provision.None? then None
    else
      var p := before.provision.value;
      if !p.active || p.deadlineAt.None? || now <= p.deadlineAt.value then None
      else Some(before.(provision := Some(p.(active := false)), phase := MachineError,
                        lastError := "provisioning timed out", updatedAt := now))
  }

  function PowerRecord(expected: Machine, action: string, lastError: Option<string>, now: Time): Call<Machine> {
    Call(expected.name, (m: Machine) => PowerUpdate(m, expected, action, lastError, now), SameMachineAttempt)
  }

  function MachineTimeout(name: string, now: Time): Call<Machine> {
    Call(name, (m: Machine) => TimeoutUpdate(m, now), SameMachineAttempt)
  }

  /**
   A late power result never reaches another attempt, and a late power error
   never hides an installer error or lands on an attempt that shows progress.
   */
  lemma LatePowerResultIsFenced(s: State<Machine>, pid: nat, expected: Machine, action: string, lastError: Option<string>, now: Time)
    requires Enabled(s, Swap(pid)) && s.procs[pid].call == PowerRecord(expected, action, lastError, now)
    ensures var rows := Next(s, Swap(pid)).rows;
            var name := expected.name;
            || rows == s.rows
            || (&& name in s.rows && expected.provision.Some?
                && var was := s.rows[name];
                   && WakeProgress(was, expected).Some? && was.provision.value.active
                   && was.provision.value.attemptId == expected.provision.value.attemptId
                   && (lastError.Some? ==> was.lastError == "" && WakeProgress(was, expected) == Some(false))
                   && rows == s.rows[name := was.(lastPowerAction := action, updatedAt := now,
                                                  lastError := if lastError.None? then was.lastError else lastError.value)])
  {
    SwapOutcome(s, pid);
  }

  /** The row is still the expected attempt on the same Windows machine. */
  predicate SameTarget(was: Machine, expected: Machine) {
    && was.provision.Some? && expected.provision.Some? && expected.provision.value.attemptId != ""
    && was.provision.value.attemptId == expected.provision.value.attemptId
    && was.name == expected.name && Lower(was.mac) == Lower(expected.mac) && was.windows
  }

  /** The installer has reported in: it started, applied its image, or completed. */
  predicate ShowsProgress(p: Progress) {
    || ("windowsInstallStarted" in p.artifacts && p.artifacts["windowsInstallStarted"] == "true")
    || ("imageApplied" in p.artifacts && p.artifacts["imageApplied"] == "true")
    || (p.completedAt.Some? && p.completionSource == "windows")
  }

  /** A power result is recorded exactly when its attempt is active and, for an error, nothing else was reported. */
  lemma PowerRecordedExactly(was: Machine, expected: Machine, action: string, lastError: Option<string>, now: Time)
    ensures PowerUpdate(was, expected, action, lastError, now) ==
            if && SameTarget(was, expected) && was.provision.value.active
               && (lastError.Some? ==> was.lastError == "" && !ShowsProgress(was.provision.value))
            then Some(was.(lastPowerAction := action, updatedAt := now,
                           lastError := if lastError.Some? then lastError.value else was.lastError))
            else None
  {
  }

  /** A swap in time takes effect; this and the fence together say what a power record does. */
  lemma UndisturbedPowerRecordWrites(s: State<Machine>, pid: nat, expected: Machine, action: string, lastError: Option<string>, now: Time)
    requires Enabled(s, Swap(pid)) && s.procs[pid].call == PowerRecord(expected, action, lastError, now)
    requires expected.name in s.rows && s.procs[pid].snapshot == Some(s.rows[expected.name])
    requires PowerUpdate(s.rows[expected.name], expected, action, lastError, now).Some?
    ensures Next(s, Swap(pid)).rows == s.rows[expected.name := PowerUpdate(s.rows[expected.name], expected, action, lastError, now).value]
  {
  }

  /** A timeout ends exactly an active attempt past its deadline, and says so. */
  lemma TimeoutExactly(was: Machine, now: Time)
    ensures TimeoutUpdate(was, now) ==
            if was.provision.Some? && was.provision.value.active && was.provision.value.deadlineAt.Some?
               && was.provision.value.deadlineAt.value < now
            then Some(was.(provision := Some(was.provision.value.(active := false)), phase := MachineError,
                           lastError := "provisioning timed out", updatedAt := now))
            else None
  {
  }

  /** The timeout of an old attempt leaves a newer attempt alone. */
  lemma TimeoutIsFenced(s: State<Machine>, pid: nat, name: string, now: Time)
    requires Enabled(s, Swap(pid)) && s.procs[pid].call == MachineTimeout(name, now)
    requires name in s.rows && s.rows[name].provision.Some? && s.procs[pid].snapshot.value.provision.Some?
    requires s.rows[name].provision.value.attemptId != s.procs[pid].snapshot.value.provision.value.attemptId
    ensures Next(s, Swap(pid)).rows == s.rows
  {
    SwapOutcome(s, pid);
  }

  /** Tries before k found the row changed; try k found nothing to write, or there was no try k. */
  predicate GaveUp(expected: Machine, action: string, lastError: Option<string>, clock: seq<Time>,
                   loads: seq<Option<Machine>>, swaps: seq<Option<Machine>>, k: int)
    requires |clock| == |loads| == |swaps| == 3
  {
    && 0 <= k <= 3
    && (forall j :: 0 <= j < k ==> loads[j].Some? && swaps[j] != loads[j])
    && (k < 3 ==> loads[k].None? || PowerUpdate(loads[k].value, expected, action, lastError, clock[k]).None?)
  }

  /**
   The bounded retry loop. `loads[i]` is what the row holds when try i loads it
   and `swaps[i]` what it holds when try i swaps; other writers explain any
   difference. `clock[i]` is read in try i. The result is the try that wrote, and what it wrote.
   */
  method RecordPowerAction(expected: Machine, action: string, lastError: Option<string>, clock: seq<Time>,
                           loads: seq<Option<Machine>>, swaps: seq<Option<Machine>>)
    returns (wrote: Option<(nat, Machine)>)
    requires |clock| == |loads| == |swaps| == 3
    ensures wrote.Some? ==>
              && var (i, m) := wrote.value;
                 && i < 3 && loads[i].Some? && swaps[i] == loads[i]
                 && PowerUpdate(swaps[i].value, expected, action, lastError, clock[i]) == Some(m)
                 && forall j :: 0 <= j < i ==> loads[j].Some? && swaps[j] != loads[j]
    ensures wrote.None? ==> exists k :: GaveUp(expected, action, lastError, clock, loads, swaps, k)
  {
    for i := 0 to 3
      invariant forall j :: 0 <= j < i ==> loads[j].Some? && swaps[j] != loads[j]
    {
      assert loads[i].None? || PowerUpdate(loads[i].value, expected, action, lastError, clock[i]).None?
             ==> GaveUp(expected, action, lastError, clock, loads, swaps, i);
      if loads[i].None? {
        return None;
      }
      var current := loads[i].value;
      var progressed := WakeProgress(current, expected);
      if progressed.None? || !current.provision.value.active {
        return None;
      }
      if lastError.Some? && (progressed.value || current.lastError != "") {
        return None;
      }
      var next := current;
      next := next.(lastPowerAction := action);
      if lastError.Some? {
        next := next.(lastError := lastError.value);
      }
      next := next.(updatedAt := clock[i]);
      var written := swaps[i] == Some(current) && SameMachineAttempt(current, next);
      assert PowerUpdate(current, expected, action, lastError, clock[i]) == Some(next);
      if written {
        return Some((i, next));
      }
    }
    assert GaveUp(expected, action, lastError, clock, loads, swaps, 3);
    return None;
  }
}
