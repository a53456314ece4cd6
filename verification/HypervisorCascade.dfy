/**
 Creating VMs while their hypervisor is being deleted. There is no transaction
 across the two stores: a create checks the hypervisor, inserts exclusively and
 rechecks; a hypervisor delete sweeps its VM records, drops the row and sweeps
 again. Each store call is one atomic step and any number of requests interleave.
 */
module HypervisorCascade {
  type Token = string

  /** A VM row: its hypervisorRef, its completion token, and the request that inserted it. */
  datatype VmRow = VmRow(hypervisorRef: string, token: Token, creator: nat)

  type Rows = map<string, VmRow>

  // ----- Store calls

  function Inserted(vms: Rows, name: string, row: VmRow): Rows {
    if name in vms then vms else vms[name := row]
  }

  function TokenDeleted(vms: Rows, name: string, token: Token): Rows {
    if name in vms && vms[name].token == token then vms - {name} else vms
  }

  function OwnedDeleted(vms: Rows, name: string, hypervisorRef: string): Rows {
    if name in vms && vms[name].hypervisorRef == hypervisorRef then vms - {name} else vms
  }

  function OnHypervisor(vms: Rows, hypervisorRef: string): set<string> {
    set name | name in vms && vms[name].hypervisorRef == hypervisorRef
  }

  function Swept(vms: Rows, hypervisorRef: string): Rows {
    vms - OnHypervisor(vms, hypervisorRef)
  }

  /** A sweep takes exactly the rows that reference the hypervisor. */
  lemma SweptExactly(vms: Rows, hypervisorRef: string, name: string)
    ensures name in Swept(vms, hypervisorRef) <==> name in vms && vms[name].hypervisorRef != hypervisorRef
    ensures name in Swept(vms, hypervisorRef) ==> Swept(vms, hypervisorRef)[name] == vms[name]
  {
  }

  /** The in-memory backend: both tables, changed in place. */
  class Backend {
    var vms: Rows
    var hypervisors: set<string>

    constructor ()
      ensures vms == map[] && hypervisors == {}
    {
      vms := map[];
      hypervisors := {};
    }

    method Insert(name: string, row: VmRow) returns (inserted: bool)
      modifies this`vms
      ensures inserted == (name !in old(vms)) && vms == Inserted(old(vms), name, row)
    {
      if name in vms {
        return false;
      }
      vms := vms[name := row];
      return true;
    }

    method DeleteCreatedToken(name: string, token: Token) returns (deleted: bool)
      modifies this`vms
      ensures vms == TokenDeleted(old(vms), name, token)
      ensures deleted <==> name in old(vms) && name !in vms
    {
      if name !in vms || vms[name].token != token {
        return false;
      }
      vms := vms - {name};
      return true;
    }

    method DeleteOwned(name: string, hypervisorRef: string) returns (deleted: bool)
      modifies this`vms
      ensures vms == OwnedDeleted(old(vms), name, hypervisorRef)
      ensures deleted <==> name in old(vms) && name !in vms
    {
      if name !in vms || vms[name].hypervisorRef != hypervisorRef {
        return false;
      }
      vms := vms - {name};
      return true;
    }

    method ListByHypervisor(hypervisorRef: string) returns (names: set<string>)
      ensures names == OnHypervisor(vms, hypervisorRef)
    {
      names := {};
      var rest := vms.Keys;
      while rest != {}
        invariant rest <= vms.Keys
        invariant names == OnHypervisor(vms, hypervisorRef) - rest
        decreases |rest|
      {
        var name :| name in rest;
        if vms[name].hypervisorRef == hypervisorRef {
          names := names + {name};
        }
        rest := rest - {name};
      }
    }

    /** Undisturbed, one sweep removes exactly the rows of the hypervisor. */
    method DeleteHypervisorVmRecords(hypervisorRef: string)
      modifies this`vms
      ensures vms == Swept(old(vms), hypervisorRef)
    {
      var listed := ListByHypervisor(hypervisorRef);
      var rest := listed;
      while rest != {}
        invariant rest <= listed
        invariant vms == old(vms) - (listed - rest)
        decreases |rest|
      {
        var name :| name in rest;
        var deleted := DeleteOwned(name, hypervisorRef);
        rest := rest - {name};
      }
    }

    method CascadeDeleteHypervisor(hypervisorRef: string)
      modifies this
      ensures vms == Swept(old(vms), hypervisorRef) && hypervisors == old(hypervisors) - {hypervisorRef}
    {
      DeleteHypervisorVmRecords(hypervisorRef);
      hypervisors := hypervisors - {hypervisorRef};
      DeleteHypervisorVmRecords(hypervisorRef);
    }
  }

  // ----- Interleaved requests

  datatype CreatePc = Check | Insert | Recheck | Rollback | Created
  datatype RemovePc = Load | Delete | Removed
  datatype CascadePc = Lookup | FirstList | FirstSweep | DropRow | SecondList | SecondSweep | Cascaded

  datatype Request =
    | CreateVm(name: string, hv: string, token: Token, cpc: CreatePc)
    | DeleteVm(name: string, rpc: RemovePc)
    | DeleteHypervisor(hv: string, kpc: CascadePc, pending: set<string>)

  datatype State = State(vms: Rows, hypervisors: set<string>, requests: map<nat, Request>)

  /** `pick` is the auto-placement choice of a create, or the next name of a sweep. */
  datatype Step = Arrive(id: nat, request: Request) | Register(hv: string) | Advance(id: nat, pick: string)

  predicate Fresh(r: Request) {
    match r
    case CreateVm(_, _, _, cpc) => cpc == Check
    case DeleteVm(_, rpc) => rpc == Load
    case DeleteHypervisor(_, kpc, pending) => (kpc == Lookup || kpc == FirstList) && pending == {}
  }

  predicate Finished(r: Request) {
    match r
    case CreateVm(_, _, _, cpc) => cpc == Created
    case DeleteVm(_, rpc) => rpc == Removed
    case DeleteHypervisor(_, kpc, _) => kpc == Cascaded
  }

  predicate Sweeping(r: Request) {
    r.DeleteHypervisor? && (r.kpc == FirstSweep || r.kpc == SecondSweep)
  }

  predicate Enabled(s: State, step: Step) {
    match step
    case Register(_) => true
    case Arrive(id, r) =>
      && id !in s.requests && Fresh(r)
      && (r.CreateVm? ==> forall i :: i in s.requests && s.requests[i].CreateVm? ==> s.requests[i].token != r.token)
    case Advance(id, pick) =>
      && id in s.requests && !Finished(s.requests[id])
      && (Sweeping(s.requests[id]) && s.requests[id].pending != {} ==> pick in s.requests[id].pending)
  }

  function AdvanceCreate(s: State, id: nat, r: Request, pick: string): (Rows, Request)
    requires r.CreateVm? && !Finished(r)
  {
    match r.cpc
    case Check =>
      var hv := if r.hv == "" then pick else r.hv;
      if hv in s.hypervisors then (s.vms, r.(hv := hv, cpc := Insert)) else (s.vms, r.(cpc := Created))
    case Insert => (Inserted(s.vms, r.name, VmRow(r.hv, r.token, id)), r.(cpc := if r.name in s.vms then Created else Recheck))
    case Recheck => if r.hv in s.hypervisors then (s.vms, r.(cpc := Created)) else (s.vms, r.(cpc := Rollback))
    case Rollback => (TokenDeleted(s.vms, r.name, r.token), r.(cpc := Created))
  }

  function AdvanceDelete(s: State, r: Request): (Rows, Request)
    requires r.DeleteVm? && !Finished(r)
  {
    match r.rpc
    case Load => (s.vms, r.(rpc := if r.name in s.vms then Delete else Removed))
    case Delete => (s.vms - {r.name}, r.(rpc := Removed))
  }

  function AdvanceCascade(s: State, r: Request, pick: string): (Rows, Request)
    requires r.DeleteHypervisor? && !Finished(r)
  {
    match r.kpc
    case Lookup => (s.vms, r.(kpc := if r.hv in s.hypervisors then FirstList else SecondList))
    case FirstList => (s.vms, r.(kpc := FirstSweep, pending := OnHypervisor(s.vms, r.hv)))
    case FirstSweep =>
      if r.pending == {} then (s.vms, r.(kpc := DropRow))
      else (OwnedDeleted(s.vms, pick, r.hv), r.(pending := r.pending - {pick}))
    case DropRow => (s.vms, r.(kpc := SecondList))
    case SecondList => (s.vms, r.(kpc := SecondSweep, pending := OnHypervisor(s.vms, r.hv)))
    case SecondSweep =>
      if r.pending == {} then (s.vms, r.(kpc := Cascaded))
      else (OwnedDeleted(s.vms, pick, r.hv), r.(pending := r.pending - {pick}))
  }

  function Next(s: State, step: Step): State
    requires Enabled(s, step)
  {
    match step
    case Register(hv) => s.(hypervisors := s.hypervisors + {hv})
    case Arrive(id, r) => s.(requests := s.requests[id := r])
    case Advance(id, pick) =>
      var r := s.requests[id];
      var (vms, moved) := if r.CreateVm? then AdvanceCreate(s, id, r, pick)
                          else if r.DeleteVm? then AdvanceDelete(s, r)
                          else AdvanceCascade(s, r, pick);
      var drops := r.DeleteHypervisor? && r.kpc == DropRow;
      State(vms, if drops then s.hypervisors - {r.hv} else s.hypervisors, s.requests[id := moved])
  }

  predicate ValidRun(s: State, steps: seq<Step>)
    decreases |steps|
  {
    steps == [] || (Enabled(s, steps[0]) && ValidRun(Next(s, steps[0]), steps[1..]))
  }

  function Run(s: State, steps: seq<Step>): State
    requires ValidRun(s, steps)
    decreases |steps|
  {
    if steps == [] then s else Run(Next(s, steps[0]), steps[1..])
  }

  // ----- Why no reference dangles

  /** The request will still remove this row if the row's hypervisor stays away. */
  predicate Covers(id: nat, r: Request, name: string, row: VmRow) {
    match r
    case CreateVm(_, _, _, cpc) => id == row.creator && (cpc == Recheck || cpc == Rollback)
    case DeleteVm(_, _) => false
    case DeleteHypervisor(hv, kpc, pending) =>
      hv == row.hypervisorRef && (kpc == SecondList || (kpc == SecondSweep && name in pending))
  }

  predicate CoveredRow(s: State, name: string)
    requires name in s.vms
  {
    s.vms[name].hypervisorRef in s.hypervisors ||
    exists id :: id in s.requests && Covers(id, s.requests[id], name, s.vms[name])
  }

  /** Every row is accounted for by the create that inserted it. */
  predicate TracedRow(s: State, name: string)
    requires name in s.vms
  {
    var row := s.vms[name];
    && row.creator in s.requests && s.requests[row.creator].CreateVm?
    && var r := s.requests[row.creator];
       r.name == name && r.hv == row.hypervisorRef && r.token == row.token && r.cpc !in {Check, Insert}
  }

  predicate TokensDistinct(s: State) {
    forall i, j :: i in s.requests && j in s.requests && i != j && s.requests[i].CreateVm? && s.requests[j].CreateVm?
                   ==> s.requests[i].token != s.requests[j].token
  }

  predicate Inv(s: State) {
    && TokensDistinct(s)
    && (forall name :: name in s.vms ==> TracedRow(s, name) && CoveredRow(s, name))
  }

  lemma StepKeepsTokens(s: State, step: Step)
    requires TokensDistinct(s) && Enabled(s, step)
    ensures TokensDistinct(Next(s, step))
  {
  }

  lemma StepKeepsTrace(s: State, step: Step, name: string)
    requires name in s.vms ==> TracedRow(s, name)
    requires Enabled(s, step) && name in Next(s, step).vms
    ensures TracedRow(Next(s, step), name)
  {
  }

  /** A row's hypervisor can go only by a cascade that is about to sweep again. */
  lemma DropIsCovered(s: State, step: Step, name: string)
    requires Enabled(s, step) && name in s.vms
    requires s.vms[name].hypervisorRef in s.hypervisors && s.vms[name].hypervisorRef !in Next(s, step).hypervisors
    ensures step.Advance? && Covers(step.id, Next(s, step).requests[step.id], name, s.vms[name])
  {
  }

  /** A request that covers a row goes on covering it until the row or the need is gone. */
  lemma CoverLasts(s: State, step: Step, id: nat, name: string)
    requires Enabled(s, step) && name in s.vms && id in s.requests && Covers(id, s.requests[id], name, s.vms[name])
    requires TracedRow(s, name) && s.vms[name].hypervisorRef !in s.hypervisors
    requires name in Next(s, step).vms && s.vms[name].hypervisorRef !in Next(s, step).hypervisors
    ensures Covers(id, Next(s, step).requests[id], name, s.vms[name])
  {
  }

  lemma RowStays(s: State, step: Step, name: string)
    requires Enabled(s, step) && name in s.vms && name in Next(s, step).vms
    ensures Next(s, step).vms[name] == s.vms[name]
  {
  }

  lemma StepKeepsCover(s: State, step: Step, name: string)
    requires Inv(s) && Enabled(s, step) && name in Next(s, step).vms
    ensures CoveredRow(Next(s, step), name)
  {
    var next := Next(s, step);
    if name in s.vms {
      RowStays(s, step, name);
      var row := s.vms[name];
      if row.hypervisorRef !in next.hypervisors {
        if row.hypervisorRef in s.hypervisors {
          DropIsCovered(s, step, name);
        } else {
          var id :| id in s.requests && Covers(id, s.requests[id], name, row);
          CoverLasts(s, step, id, name);
        }
      }
    } else {
      assert Covers(step.id, next.requests[step.id], name, next.vms[name]);
    }
  }

  /** What each store call of a request does to the tables: it does its part, and no more. */
  lemma StepDoesItsPart(s: State, id: nat, pick: string)
    requires Enabled(s, Advance(id, pick))
    ensures var r := s.requests[id];
            var next := Next(s, Advance(id, pick));
            && next.hypervisors == (if r.DeleteHypervisor? && r.kpc == DropRow then s.hypervisors - {r.hv} else s.hypervisors)
            && next.vms ==
               if r.CreateVm? && r.cpc == Insert && r.name !in s.vms then s.vms[r.name := VmRow(r.hv, r.token, id)]
               else if r.CreateVm? && r.cpc == Rollback && r.name in s.vms && s.vms[r.name].token == r.token then s.vms - {r.name}
               else if r.DeleteVm? && r.rpc == Delete then s.vms - {r.name}
               else if Sweeping(r) && r.pending != {} && pick in s.vms && s.vms[pick].hypervisorRef == r.hv then s.vms - {pick}
               else s.vms
  {
  }

  /** Which call comes next: a cascade lists, sweeps, drops the row, lists and sweeps again; each list is of its own rows. */
  lemma RequestsAdvance(s: State, id: nat, pick: string)
    requires Enabled(s, Advance(id, pick))
    ensures var r := s.requests[id];
            var m := Next(s, Advance(id, pick)).requests[id];
            && (r.CreateVm? && r.cpc == Check ==>
                  if (if r.hv == "" then pick else r.hv) in s.hypervisors
                  then m.cpc == Insert && m.hv == (if r.hv == "" then pick else r.hv) else m.cpc == Created)
            && (r.CreateVm? && r.cpc == Recheck ==> (m.cpc == Rollback <==> r.hv !in s.hypervisors))
            && (r.DeleteVm? ==> (m.rpc == Delete <==> r.rpc == Load && r.name in s.vms) && (m.rpc != Delete ==> m.rpc == Removed))
            && (r.DeleteHypervisor? && r.kpc == Lookup ==> m.kpc == if r.hv in s.hypervisors then FirstList else SecondList)
            && (r.DeleteHypervisor? ==>
                  && m.hv == r.hv
                  && (r.kpc == FirstList || r.kpc == SecondList ==>
                        m.pending == set n | n in s.vms && s.vms[n].hypervisorRef == r.hv)
                  && (Sweeping(r) && r.pending != {} ==> m.kpc == r.kpc && m.pending == r.pending - {pick})
                  && (r.kpc == FirstSweep && r.pending == {} ==> m.kpc == DropRow)
                  && (r.kpc == DropRow ==> m.kpc == SecondList)
                  && (r.kpc == SecondSweep && r.pending == {} ==> m.kpc == Cascaded))
  {
  }

  lemma {:induction false} RunKeepsInv(s: State, steps: seq<Step>)
    requires Inv(s) && ValidRun(s, steps)
    ensures Inv(Run(s, steps))
    decreases |steps|
  {
    if steps != [] {
      var next := Next(s, steps[0]);
      StepKeepsTokens(s, steps[0]);
      forall name | name in next.vms ensures TracedRow(next, name) && CoveredRow(next, name) {
        StepKeepsTrace(s, steps[0], name);
        StepKeepsCover(s, steps[0], name);
      }
      RunKeepsInv(next, steps[1..]);
    }
  }

  predicate Initial(s: State) {
    s.vms == map[] && s.requests == map[]
  }

  predicate AllFinished(s: State) {
    forall id :: id in s.requests ==> Finished(s.requests[id])
  }

  /** Once every request has finished, each surviving VM references a registered hypervisor. */
  lemma NoDanglingReference(s: State, steps: seq<Step>)
    requires Initial(s) && ValidRun(s, steps) && AllFinished(Run(s, steps))
    ensures forall name :: name in Run(s, steps).vms ==> Run(s, steps).vms[name].hypervisorRef in Run(s, steps).hypervisors
  {
    RunKeepsInv(s, steps);
    var end := Run(s, steps);
    forall name | name in end.vms ensures end.vms[name].hypervisorRef in end.hypervisors {
      assert CoveredRow(end, name);
    }
  }

  /**
   A row disappears for one of three reasons: the rollback of the very create
   that inserted it, a delete of its name, or a cascade of its own hypervisor.
   */
  lemma RemovalHasCause(s: State, steps: seq<Step>, step: Step, name: string)
    requires Initial(s) && ValidRun(s, steps) && Enabled(Run(s, steps), step)
    requires name in Run(s, steps).vms && name !in Next(Run(s, steps), step).vms
    ensures var row := Run(s, steps).vms[name];
            && step.Advance?
            && var r := Run(s, steps).requests[step.id];
               || (r.CreateVm? && r.cpc == Rollback && row.creator == step.id)
               || (r.DeleteVm? && r.name == name)
               || (r.DeleteHypervisor? && r.hv == row.hypervisorRef && name in r.pending)
  {
    RunKeepsInv(s, steps);
    assert TracedRow(Run(s, steps), name);
  }

  /** No rollback touches a row another create inserted, under the same name or any other. */
  lemma RollbackRemovesOnlyItsOwn(s: State, steps: seq<Step>, step: Step, name: string)
    requires Initial(s) && ValidRun(s, steps) && Enabled(Run(s, steps), step)
    requires step.Advance? && Run(s, steps).requests[step.id].CreateVm? && Run(s, steps).requests[step.id].cpc == Rollback
    requires name in Run(s, steps).vms && Run(s, steps).vms[name].creator != step.id
    ensures name in Next(Run(s, steps), step).vms && Next(Run(s, steps), step).vms[name] == Run(s, steps).vms[name]
  {
    RunKeepsInv(s, steps);
    assert TracedRow(Run(s, steps), name);
  }
}
