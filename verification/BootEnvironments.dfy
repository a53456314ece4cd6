/**
 The boot environment manager: any number of starts and ensures share one build per
 environment. Each critical section of the manager's lock is one step.
 */
module BootEnvironments {
  import opened Options

  type Name = string
  type Id = nat
  type Chan = nat

  datatype Phase = Building | Ready | Failed

  /** The maps behind the manager's lock. */
  datatype Tables = Tables(statuses: map<Name, Phase>, running: set<Name>, done: map<Name, Chan>)

  function Registered(m: Tables, name: Name, ch: Chan): Tables {
    Tables(m.statuses[name := Building], m.running + {name}, m.done[name := ch])
  }

  /** A failed build's status is overwritten with the error. */
  function Finished(m: Tables, name: Name, outcome: Phase, failed: bool): Tables {
    Tables(m.statuses[name := if failed then Failed else outcome], m.running - {name}, m.done - {name})
  }

  class Manager {
    var statuses: map<Name, Phase>
    var running: set<Name>
    var done: map<Name, Chan>

    constructor ()
      ensures Contents() == Tables(map[], {}, map[])
    {
      statuses, running, done := map[], {}, map[];
    }

    ghost function Contents(): Tables
      reads this
    {
      Tables(statuses, running, done)
    }

    /** The locked part of start; the caller launches a builder when `launch`. */
    method Start(name: Name, ch: Chan) returns (launch: bool)
      modifies this
      ensures launch <==> name !in old(running)
      ensures Contents() == if launch then Registered(old(Contents()), name, ch) else old(Contents())
    {
      if name in running {
        return false;
      }
      statuses := statuses[name := Building];
      running := running + {name};
      done := done[name := ch];
      launch := true;
    }

    /** The locked part of Ensure: wait on a channel, or build. */
    method Enter(name: Name, ch: Chan) returns (wait: Option<Chan>)
      modifies this
      ensures wait == if name in old(done) then Some(old(done)[name]) else None
      ensures Contents() == if wait.Some? then old(Contents()) else Registered(old(Contents()), name, ch)
    {
      if name in done {
        return Some(done[name]);
      }
      statuses := statuses[name := Building];
      running := running + {name};
      done := done[name := ch];
      wait := None;
    }

    method SetStatus(name: Name, phase: Phase)
      modifies `statuses
      ensures statuses == old(statuses)[name := phase]
    {
      statuses := statuses[name := phase];
    }

    method FinishBuild(name: Name, outcome: Phase, failed: bool) returns (close: Option<Chan>)
      modifies this
      ensures close == if name in old(done) then Some(old(done)[name]) else None
      ensures Contents() == Finished(old(Contents()), name, outcome, failed)
    {
      close := if name in done then Some(done[name]) else None;
      running := running - {name};
      done := done - {name};
      var st := outcome;
      if failed {
        st := Failed;
      }
      statuses := statuses[name := st];
    }
  }

  // ----- Every interleaving

  /** A live builder, with the channel its registration made. */
  datatype Job = Job(name: Name, chan: Chan)

  /** `owner` remembers who made each channel, `closes` who closed what, in order. */
  datatype State = State(m: Tables, jobs: map<Id, Job>, owner: map<Chan, Id>, closes: seq<(Chan, Id)>, waiting: map<Id, Chan>)

  datatype Step =
    | Start(name: Name, id: Id, ch: Chan)
    | Enter(name: Name, id: Id, ch: Chan)
    | Report(id: Id)
    | Finish(id: Id, outcome: Phase, failed: bool)
    | Wake(id: Id)
    | GiveUp(id: Id)

  const INITIAL: State := State(Tables(map[], {}, map[]), map[], map[], [], map[])

  predicate Fresh(s: State, id: Id, ch: Chan) {
    id !in s.jobs && id !in s.owner.Values && id !in s.waiting && ch !in s.owner
  }

  predicate IsClosed(s: State, c: Chan) {
    exists i :: 0 <= i < |s.closes| && s.closes[i].0 == c
  }

  predicate Enabled(s: State, step: Step) {
    match step
    case Start(_, id, ch) => Fresh(s, id, ch)
    case Enter(_, id, ch) => Fresh(s, id, ch)
    case Report(id) => id in s.jobs
    case Finish(id, _, _) => id in s.jobs
    case Wake(id) => id in s.waiting && IsClosed(s, s.waiting[id])
    case GiveUp(id) => id in s.waiting
  }

  function Launched(s: State, name: Name, id: Id, ch: Chan): State {
    s.(m := Registered(s.m, name, ch), jobs := s.jobs[id := Job(name, ch)], owner := s.owner[ch := id])
  }

  /** Finishing closes whatever channel the name has then. */
  function Ended(s: State, id: Id, outcome: Phase, failed: bool): State
    requires id in s.jobs
  {
    var name := s.jobs[id].name;
    s.(m := Finished(s.m, name, outcome, failed), jobs := s.jobs - {id},
       closes := if name in s.m.done then s.closes + [(s.m.done[name], id)] else s.closes)
  }

  function Next(s: State, step: Step): State
    requires Enabled(s, step)
  {
    match step
    case Start(name, id, ch) => if name in s.m.running then s else Launched(s, name, id, ch)
    case Enter(name, id, ch) =>
      if name in s.m.done then s.(waiting := s.waiting[id := s.m.done[name]]) else Launched(s, name, id, ch)
    case Report(id) => s.(m := s.m.(statuses := s.m.statuses[s.jobs[id].name := Building]))
    case Finish(id, outcome, failed) => Ended(s, id, outcome, failed)
    case Wake(id) => s.(waiting := s.waiting - {id})
    case GiveUp(id) => s.(waiting := s.waiting - {id})
  }

  predicate ValidRun(s: State, steps: seq<Step>)
    decreases |steps|
  {
    steps == [] || (Enabled(s, steps[0]) && ValidRun(Next(s, steps[0]), steps[1..]))
  }

  function Run(s: State, steps: seq<Step>): State
    requires ValidRun(s, steps)
    decreases |steps|
  {
    if steps == [] then s else Run(Next(s, steps[0]), steps[1..])
  }

  /** A live builder's channel is the one its name has. */
  predicate JobHeld(s: State, id: Id, job: Job) {
    job.name in s.m.done && s.m.done[job.name] == job.chan && job.chan in s.owner && s.owner[job.chan] == id
  }

  /** A name's channel belongs to a live builder of that name. */
  predicate NameHeld(s: State, name: Name, ch: Chan) {
    ch in s.owner && s.owner[ch] in s.jobs && s.jobs[s.owner[ch]] == Job(name, ch)
  }

  predicate ClosesProper(s: State) {
    && (forall i :: 0 <= i < |s.closes| ==> s.closes[i].0 in s.owner && s.owner[s.closes[i].0] == s.closes[i].1)
    && (forall i, j :: 0 <= i < j < |s.closes| ==> s.closes[i].0 != s.closes[j].0)
  }

  /** A channel is closed, or its builder is live and holds it. */
  predicate Settled(s: State, c: Chan)
    requires c in s.owner
  {
    && (IsClosed(s, c) <==> s.owner[c] !in s.jobs)
    && (s.owner[c] in s.jobs ==> s.jobs[s.owner[c]].chan == c)
  }

  predicate BuildersHeld(s: State) {
    && (forall id :: id in s.jobs ==> JobHeld(s, id, s.jobs[id]))
    && (forall name :: name in s.m.done ==> NameHeld(s, name, s.m.done[name]))
  }

  predicate ChannelsSettled(s: State) {
    && ClosesProper(s)
    && (forall c :: c in s.owner ==> Settled(s, c))
    && (forall id :: id in s.waiting ==> s.waiting[id] in s.owner)
  }

  predicate TablesAgree(m: Tables) {
    && m.running == m.done.Keys
    && (forall name :: name in m.running ==> name in m.statuses && m.statuses[name] == Building)
  }

  predicate Inv(s: State) {
    TablesAgree(s.m) && BuildersHeld(s) && ChannelsSettled(s)
  }

  lemma LaunchHoldsBuilders(s: State, name: Name, id: Id, ch: Chan)
    requires BuildersHeld(s) && Fresh(s, id, ch) && name !in s.m.done
    ensures BuildersHeld(Launched(s, name, id, ch))
  {
    var t := Launched(s, name, id, ch);
    forall i | i in t.jobs ensures JobHeld(t, i, t.jobs[i]) {
      if i != id { assert JobHeld(s, i, s.jobs[i]); }
    }
    forall n | n in t.m.done ensures NameHeld(t, n, t.m.done[n]) {
      if n != name { assert NameHeld(s, n, s.m.done[n]); }
    }
  }

  lemma LaunchSettlesChannels(s: State, name: Name, id: Id, ch: Chan)
    requires ChannelsSettled(s) && Fresh(s, id, ch)
    ensures ChannelsSettled(Launched(s, name, id, ch))
  {
    var t := Launched(s, name, id, ch);
    assert forall c :: IsClosed(t, c) <==> IsClosed(s, c);
    forall c | c in t.owner ensures Settled(t, c) {
      if c != ch {
        assert Settled(s, c) && s.owner[c] in s.owner.Values;
      }
    }
  }

  lemma EndHoldsBuilders(s: State, id: Id, outcome: Phase, failed: bool)
    requires BuildersHeld(s) && id in s.jobs
    ensures BuildersHeld(Ended(s, id, outcome, failed))
  {
    var t := Ended(s, id, outcome, failed);
    assert JobHeld(s, id, s.jobs[id]);
    forall i | i in t.jobs ensures JobHeld(t, i, t.jobs[i]) {
      assert JobHeld(s, i, s.jobs[i]);
    }
    forall n | n in t.m.done ensures NameHeld(t, n, t.m.done[n]) {
      assert NameHeld(s, n, s.m.done[n]);
    }
  }

  lemma EndCloses(s: State, id: Id, outcome: Phase, failed: bool, c: Chan)
    requires id in s.jobs && JobHeld(s, id, s.jobs[id])
    ensures IsClosed(Ended(s, id, outcome, failed), c) <==> IsClosed(s, c) || c == s.jobs[id].chan
  {
    var t := Ended(s, id, outcome, failed);
    assert t.closes == s.closes + [(s.jobs[id].chan, id)];
    if c == s.jobs[id].chan { assert t.closes[|s.closes|].0 == c; }
    if IsClosed(s, c) {
      var i :| 0 <= i < |s.closes| && s.closes[i].0 == c;
      assert t.closes[i].0 == c;
    }
  }

  lemma EndSettlesChannels(s: State, id: Id, outcome: Phase, failed: bool)
    requires ChannelsSettled(s) && id in s.jobs && JobHeld(s, id, s.jobs[id])
    ensures ChannelsSettled(Ended(s, id, outcome, failed))
  {
    var t := Ended(s, id, outcome, failed);
    assert Settled(s, s.jobs[id].chan);
    assert ClosesProper(t);
    forall c | c in t.owner ensures Settled(t, c) {
      EndCloses(s, id, outcome, failed, c);
      assert Settled(s, c);
    }
  }

  lemma LaunchKeeps(s: State, name: Name, id: Id, ch: Chan)
    requires Inv(s) && Fresh(s, id, ch) && name !in s.m.done
    ensures Inv(Launched(s, name, id, ch))
  {
    LaunchHoldsBuilders(s, name, id, ch);
    LaunchSettlesChannels(s, name, id, ch);
  }

  lemma EndKeeps(s: State, id: Id, outcome: Phase, failed: bool)
    requires Inv(s) && id in s.jobs
    ensures Inv(Ended(s, id, outcome, failed))
  {
    assert JobHeld(s, id, s.jobs[id]);
    EndHoldsBuilders(s, id, outcome, failed);
    EndSettlesChannels(s, id, outcome, failed);
  }

  lemma StepKeepsInv(s: State, step: Step)
    requires Inv(s) && Enabled(s, step)
    ensures Inv(Next(s, step))
  {
    match step {
      case Start(name, id, ch) => if name !in s.m.running { LaunchKeeps(s, name, id, ch); }
      case Enter(name, id, ch) =>
        if name in s.m.done {
          assert NameHeld(s, name, s.m.done[name]);
          WaitersDoNotMatter(s, s.waiting[id := s.m.done[name]]);
        } else {
          LaunchKeeps(s, name, id, ch);
        }
      case Report(id) => ReportKeeps(s, id);
      case Finish(id, outcome, failed) => EndKeeps(s, id, outcome, failed);
      case Wake(id) => WaitersDoNotMatter(s, s.waiting - {id});
      case GiveUp(id) => WaitersDoNotMatter(s, s.waiting - {id});
    }
  }

  lemma WaitersDoNotMatter(s: State, waiting: map<Id, Chan>)
    requires Inv(s) && forall id :: id in waiting ==> waiting[id] in s.owner
    ensures Inv(s.(waiting := waiting))
  {
    var t := s.(waiting := waiting);
    assert forall c :: IsClosed(t, c) <==> IsClosed(s, c);
    assert forall c :: c in s.owner ==> Settled(s, c) && Settled(t, c);
    assert forall i, job :: JobHeld(t, i, job) <==> JobHeld(s, i, job);
    assert forall n, c :: NameHeld(t, n, c) <==> NameHeld(s, n, c);
  }

  lemma ReportKeeps(s: State, id: Id)
    requires Inv(s) && id in s.jobs
    ensures Inv(Next(s, Report(id)))
  {
    var t := Next(s, Report(id));
    assert forall c :: IsClosed(t, c) <==> IsClosed(s, c);
    assert forall c :: c in s.owner ==> Settled(s, c) && Settled(t, c);
    assert forall i, job :: JobHeld(t, i, job) <==> JobHeld(s, i, job);
    assert forall n, c :: NameHeld(t, n, c) <==> NameHeld(s, n, c);
  }

  lemma {:induction false} RunKeepsInv(s: State, steps: seq<Step>)
    requires Inv(s) && ValidRun(s, steps)
    ensures Inv(Run(s, steps))
    decreases |steps|
  {
    if steps != [] {
      StepKeepsInv(s, steps[0]);
      RunKeepsInv(Next(s, steps[0]), steps[1..]);
    }
  }

  /** `running` and `done` agree, and each of their keys has exactly one live builder. */
  lemma OneBuilderPerKey(steps: seq<Step>, name: Name)
    requires ValidRun(INITIAL, steps)
    ensures var s := Run(INITIAL, steps);
            && s.m.running == s.m.done.Keys
            && (name in s.m.running <==> exists id :: id in s.jobs && s.jobs[id].name == name)
            && (forall a, b :: a in s.jobs && b in s.jobs && s.jobs[a].name == name && s.jobs[b].name == name ==> a == b)
            && (name in s.m.running ==> name in s.m.statuses && s.m.statuses[name] == Building)
  {
    RunKeepsInv(INITIAL, steps);
    var s := Run(INITIAL, steps);
    if name in s.m.done {
      assert NameHeld(s, name, s.m.done[name]);
      assert s.owner[s.m.done[name]] in s.jobs;
    }
    forall id | id in s.jobs ensures JobHeld(s, id, s.jobs[id]) {
    }
  }

  /** No channel is closed twice, and only its own builder closes it. */
  lemma ClosedOnceByItsBuilder(steps: seq<Step>, i: nat, j: nat)
    requires ValidRun(INITIAL, steps)
    requires i < |Run(INITIAL, steps).closes| && j < |Run(INITIAL, steps).closes|
    ensures var s := Run(INITIAL, steps);
            && (s.closes[i].0 == s.closes[j].0 ==> i == j)
            && s.closes[i].0 in s.owner && s.owner[s.closes[i].0] == s.closes[i].1
  {
    RunKeepsInv(INITIAL, steps);
  }

  /** A waiter can wake, or the builder it waits for is still at work and will close its channel. */
  predicate Attended(s: State, id: Id)
    requires id in s.waiting
  {
    var c := s.waiting[id];
    IsClosed(s, c) || (c in s.owner && s.owner[c] in s.jobs && JobHeld(s, s.owner[c], s.jobs[s.owner[c]]) && s.jobs[s.owner[c]].chan == c)
  }

  lemma NoWaiterIsForgotten(steps: seq<Step>, id: Id)
    requires ValidRun(INITIAL, steps) && id in Run(INITIAL, steps).waiting
    ensures Attended(Run(INITIAL, steps), id)
  {
    RunKeepsInv(INITIAL, steps);
    var s := Run(INITIAL, steps);
    assert Settled(s, s.waiting[id]);
  }

  /** When that builder finishes, whatever came of the build, the waiter can wake. */
  lemma FinishWakes(s: State, id: Id, outcome: Phase, failed: bool)
    requires id in s.waiting && Attended(s, id) && !IsClosed(s, s.waiting[id])
    ensures Enabled(Next(s, Finish(s.owner[s.waiting[id]], outcome, failed)), Wake(id))
  {
    EndCloses(s, s.owner[s.waiting[id]], outcome, failed, s.waiting[id]);
  }

  /** A finished build leaves its name free and its outcome on show; a failed one is shown as failed. */
  lemma FinishShowsOutcome(steps: seq<Step>, id: Id, outcome: Phase, failed: bool)
    requires ValidRun(INITIAL, steps) && Enabled(Run(INITIAL, steps), Finish(id, outcome, failed))
    ensures var s := Run(INITIAL, steps);
            var name := s.jobs[id].name;
            var t := Next(s, Finish(id, outcome, failed));
            && name in s.m.running && name !in t.m.running && name !in t.m.done
            && name in t.m.statuses && t.m.statuses[name] == (if failed then Failed else outcome)
            && t.closes == s.closes + [(s.jobs[id].chan, id)]
            && forall n :: n != name ==> (n in t.m.running <==> n in s.m.running)
  {
    RunKeepsInv(INITIAL, steps);
    var s := Run(INITIAL, steps);
    assert JobHeld(s, id, s.jobs[id]);
  }
}
