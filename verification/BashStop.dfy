/** Stopping a command that may not have been spawned yet.

    Commands run as tasks interleaved at every await; stop requests arrive at any time. An id is
    registered without a process until its spawn completes, and a stop that arrives in between is
    recorded and applied as soon as the process exists. */
module BashStop {
  import opened Wrappers

  type Id = nat
  type Group = nat

  /** `_processes` and `_stop_requests`. */
  datatype Table = Table(processes: map<Id, Option<Group>>, stopRequests: set<Id>)

  function Register(t: Table, id: Id): Table {
    t.(processes := t.processes[id := None])
  }

  /** The spawn has completed; a recorded stop is taken off the record. */
  function Adopt(t: Table, id: Id, g: Group): Table {
    Table(t.processes[id := Some(g)], t.stopRequests - {id})
  }

  /** A stop: recorded while the spawn is pending, otherwise nothing changes here. */
  function Request(t: Table, id: Id): Table {
    if id in t.processes && t.processes[id].None? then t.(stopRequests := t.stopRequests + {id}) else t
  }

  /** The group a stop signals at once. */
  function Target(t: Table, id: Id): Option<Group> {
    if id in t.processes then t.processes[id] else None
  }

  /** The `finally` block. */
  function Forget(t: Table, id: Id): Table {
    Table(t.processes - {id}, t.stopRequests - {id})
  }

  class BashEventService {
    var processes: map<Id, Option<Group>>
    var stopRequests: set<Id>

    function View(): Table
      reads this
    {
      Table(processes, stopRequests)
    }

    constructor ()
      ensures View() == Table(map[], {})
    {
      processes, stopRequests := map[], {};
    }

    method StartBashCommand(id: Id)
      modifies this
      ensures processes == old(processes)[id := None] && stopRequests == old(stopRequests)
      ensures View() == Register(old(View()), id)
    {
      processes := processes[id := None];
    }

    /** The synchronous part of a stop: whether the id is known, and what to signal now. */
    method StopBashCommand(id: Id) returns (known: bool, signal: Option<Group>)
      modifies this
      ensures known == (id in old(processes))
      ensures signal == if id in old(processes) then old(processes)[id] else None
      ensures processes == old(processes)
      ensures stopRequests ==
              if id in old(processes) && old(processes)[id].None? then old(stopRequests) + {id} else old(stopRequests)
      ensures signal == Target(old(View()), id) && View() == Request(old(View()), id)
    {
      if id !in processes {
        return false, None;
      }
      if processes[id].None? {
        stopRequests := stopRequests + {id};
        return true, None;
      }
      return true, processes[id];
    }

    /** The task resumes with its process; a stop that came early is applied now. */
    method ProcessSpawned(id: Id, g: Group) returns (signal: Option<Group>)
      modifies this
      ensures processes == old(processes)[id := Some(g)] && stopRequests == old(stopRequests) - {id}
      ensures View() == Adopt(old(View()), id, g)
      ensures signal == if id in old(stopRequests) then Some(g) else None
    {
      processes := processes[id := Some(g)];
      signal := None;
      if id in stopRequests {
        stopRequests := stopRequests - {id};
        var known;
        known, signal := StopBashCommand(id);
      }
      assert stopRequests - {id} == stopRequests;
    }

    method TaskEnded(id: Id)
      modifies this
      ensures processes == old(processes) - {id} && stopRequests == old(stopRequests) - {id}
      ensures View() == Forget(old(View()), id)
    {
      processes := processes - {id};
      stopRequests := stopRequests - {id};
    }
  }

  // ---------------------------------------------------------------------------------------
  // Tasks
  // ---------------------------------------------------------------------------------------

  datatype Task = Created | Spawning | Stopping | Reading | Failing | Ended | NeverRan

  datatype Signal = Signal(id: Id, group: Group)

  /** `spawned`, `signals`, `early` and `asked` are history: each command's process group, every
      signal a stop has sent, the ids stopped while their spawn was pending, and all ids stopped. */
  datatype State = State(
    table: Table,
    tasks: map<Id, Task>,
    spawned: map<Id, Group>,
    signals: set<Signal>,
    early: set<Id>,
    asked: set<Id>)

  datatype Action =
    | Start(id: Id)
    | Begin(id: Id)
    | Spawned(id: Id, group: Group)
    | SpawnFailed(id: Id)
    | StopApplied(id: Id)
    | Finish(id: Id)
    | Cancel(id: Id)
    | CancelUnstarted(id: Id)
    | Stop(id: Id)
    | Escalate(id: Id)

  const Empty: State := State(Table(map[], {}), map[], map[], {}, {}, {})

  predicate Enabled(s: State, a: Action) {
    match a
    case Start(id) => id !in s.tasks
    case Begin(id) => id in s.tasks && s.tasks[id].Created?
    case Spawned(id, g) => id in s.tasks && s.tasks[id].Spawning? && g !in s.spawned.Values
    case SpawnFailed(id) => id in s.tasks && s.tasks[id].Spawning?
    case StopApplied(id) => id in s.tasks && s.tasks[id].Stopping?
    case Finish(id) => id in s.tasks && (s.tasks[id].Reading? || s.tasks[id].Failing?)
    case Cancel(id) => id in s.tasks && !s.tasks[id].Created? && !s.tasks[id].Ended? && !s.tasks[id].NeverRan?
    case CancelUnstarted(id) => id in s.tasks && s.tasks[id].Created?
    case Stop(_) => true
    case Escalate(id) => id in s.spawned && Signal(id, s.spawned[id]) in s.signals
  }

  function Send(s: State, id: Id, g: Group): State {
    s.(signals := s.signals + {Signal(id, g)})
  }

  function Apply(s: State, a: Action): State
    requires Enabled(s, a)
  {
    match a
    case Start(id) => s.(table := Register(s.table, id), tasks := s.tasks[id := Created])
    case Begin(id) => s.(tasks := s.tasks[id := Spawning])
    case Spawned(id, g) =>
      var s' := s.(table := Adopt(s.table, id, g), spawned := s.spawned[id := g]);
      if id in s.table.stopRequests then Send(s', id, g).(tasks := s.tasks[id := Stopping])
      else s'.(tasks := s.tasks[id := Reading])
    case SpawnFailed(id) => s.(tasks := s.tasks[id := Failing])
    case StopApplied(id) => s.(tasks := s.tasks[id := Reading])
    case Finish(id) => s.(table := Forget(s.table, id), tasks := s.tasks[id := Ended])
    case Cancel(id) => s.(table := Forget(s.table, id), tasks := s.tasks[id := Ended])
    case CancelUnstarted(id) => s.(tasks := s.tasks[id := NeverRan])
    case Stop(id) =>
      var s' := s.(table := Request(s.table, id), asked := s.asked + {id},
                   early := if id in s.table.processes && s.table.processes[id].None? then s.early + {id} else s.early);
      if Target(s.table, id).Some? then Send(s', id, Target(s.table, id).value) else s'
    case Escalate(id) => Send(s, id, s.spawned[id])
  }

  predicate AwaitsProcess(t: Task) {
    t.Created? || t.Spawning? || t.Failing? || t.NeverRan?
  }

  /** How the table, the task and the history of one command fit together. */
  predicate Coherent(s: State, id: Id) {
    && (id in s.table.stopRequests ==> id in s.table.processes && s.table.processes[id].None? && id in s.asked)
    && (id in s.table.processes || id in s.spawned || id in s.early ==> id in s.tasks)
    && (id in s.tasks && AwaitsProcess(s.tasks[id]) ==>
          && id in s.table.processes && s.table.processes[id].None? && id !in s.spawned
          && (id in s.early ==> id in s.table.stopRequests))
    && (id in s.tasks && (s.tasks[id].Stopping? || s.tasks[id].Reading?) ==>
          id in s.table.processes && id in s.spawned && s.table.processes[id] == Some(s.spawned[id]))
    && (id in s.tasks && s.tasks[id].Ended? ==> id !in s.table.processes && id !in s.table.stopRequests)
    && (id in s.early && id in s.spawned ==> Signal(id, s.spawned[id]) in s.signals)
  }

  /** A signal went to the group of a command that was asked to stop. */
  predicate Justified(s: State, x: Signal) {
    x.id in s.asked && x.id in s.spawned && s.spawned[x.id] == x.group
  }

  ghost predicate DistinctGroups(s: State) {
    forall i, j :: i in s.spawned && j in s.spawned && s.spawned[i] == s.spawned[j] ==> i == j
  }

  ghost predicate Inv(s: State) {
    && (forall id :: Coherent(s, id))
    && (forall x :: x in s.signals ==> Justified(s, x))
    && DistinctGroups(s)
  }

  lemma StepKeepsCoherent(s: State, a: Action, id: Id)
    requires Enabled(s, a) && Coherent(s, id)
    ensures Coherent(Apply(s, a), id)
  {
  }

  lemma StepKeepsJustified(s: State, a: Action, x: Signal)
    requires Enabled(s, a) && Coherent(s, x.id) && (x in s.signals ==> Justified(s, x)) && x in Apply(s, a).signals
    ensures Justified(Apply(s, a), x)
  {
  }

  lemma StepKeepsInv(s: State, a: Action)
    requires Inv(s) && Enabled(s, a)
    ensures Inv(Apply(s, a))
  {
    var t := Apply(s, a);
    forall id ensures Coherent(t, id) {
      assert Coherent(s, id);
      StepKeepsCoherent(s, a, id);
    }
    forall x | x in t.signals ensures Justified(t, x) {
      assert Coherent(s, x.id);
      StepKeepsJustified(s, a, x);
    }
    assert forall i :: i in s.spawned ==> s.spawned[i] in s.spawned.Values;
  }

  datatype Run = Run(states: seq<State>, actions: seq<Action>)

  predicate IsStep(s: State, a: Action, t: State) {
    Enabled(s, a) && t == Apply(s, a)
  }

  predicate IsRun(r: Run) {
    && |r.states| == |r.actions| + 1
    && r.states[0] == Empty
    && forall i :: 0 <= i < |r.actions| ==> IsStep(r.states[i], r.actions[i], r.states[i + 1])
  }

  lemma {:induction false} RunKeepsInv(r: Run, i: nat)
    requires IsRun(r) && i < |r.states|
    ensures Inv(r.states[i])
  {
    if i > 0 {
      RunKeepsInv(r, i - 1);
      assert IsStep(r.states[i - 1], r.actions[i - 1], r.states[i]);
      StepKeepsInv(r.states[i - 1], r.actions[i - 1]);
    }
  }

  lemma {:induction false} EarlyPersists(r: Run, i: nat, j: nat, id: Id)
    requires IsRun(r) && i <= j < |r.states| && id in r.states[i].early
    ensures id in r.states[j].early
  {
    if i < j {
      EarlyPersists(r, i, j - 1, id);
      assert IsStep(r.states[j - 1], r.actions[j - 1], r.states[j]);
    }
  }

  /** At every await the recorded stops are among the ids registered without a process, and an id
      whose task body has ended is in neither structure. */
  lemma RecordedStopsArePending(r: Run, i: nat, id: Id)
    requires IsRun(r) && i < |r.states|
    ensures var s := r.states[i];
            && (id in s.table.stopRequests ==> id in s.table.processes && s.table.processes[id].None?)
            && (id in s.tasks && s.tasks[id].Ended? ==> id !in s.table.processes && id !in s.table.stopRequests)
  {
    RunKeepsInv(r, i);
    assert Coherent(r.states[i], id);
  }

  /** No stop is lost in the spawn race: a stop accepted while the spawn is pending has signalled
      that command's process group by the time its output is read. */
  lemma NoStopLost(r: Run, i: nat, j: nat, id: Id)
    requires IsRun(r) && i < j < |r.states|
    requires r.actions[i] == Stop(id) && id in r.states[i].table.processes && r.states[i].table.processes[id].None?
    requires id in r.states[j].tasks && r.states[j].tasks[id].Reading?
    ensures id in r.states[j].spawned && Signal(id, r.states[j].spawned[id]) in r.states[j].signals
    ensures forall x :: x in r.states[i + 1].signals ==> x.id != id
  {
    assert IsStep(r.states[i], r.actions[i], r.states[i + 1]);
    EarlyPersists(r, i + 1, j, id);
    RunKeepsInv(r, j);
    RunKeepsInv(r, i);
    assert Coherent(r.states[j], id) && Coherent(r.states[i], id);
  }

  /** A stop may come at any time, also for an unknown id; and a task may be cancelled wherever it stands. */
  lemma StopsComeAnyTime(s: State, id: Id)
    ensures Enabled(s, Stop(id))
    ensures id !in s.tasks ==> Enabled(s, Start(id))
    ensures id in s.tasks && s.tasks[id].Created? ==> Enabled(s, Begin(id)) && Enabled(s, CancelUnstarted(id))
    ensures id in s.tasks && s.tasks[id].Spawning? ==> Enabled(s, SpawnFailed(id)) && Enabled(s, Cancel(id))
    ensures id in s.tasks && s.tasks[id].Spawning? ==>
              forall g: Group :: g !in s.spawned.Values ==> Enabled(s, Spawned(id, g))
    ensures id in s.tasks && s.tasks[id].Stopping? ==> Enabled(s, StopApplied(id)) && Enabled(s, Cancel(id))
    ensures id in s.tasks && s.tasks[id].Reading? ==> Enabled(s, Finish(id)) && Enabled(s, Cancel(id))
  {
  }

  /** A stop of a command whose process exists signals its group at once. */
  lemma StopSignalsRunning(r: Run, i: nat, id: Id)
    requires IsRun(r) && i < |r.actions| && r.actions[i] == Stop(id)
    requires id in r.states[i].tasks && (r.states[i].tasks[id].Reading? || r.states[i].tasks[id].Stopping?)
    ensures id in r.states[i].spawned && Signal(id, r.states[i].spawned[id]) in r.states[i + 1].signals
  {
    assert IsStep(r.states[i], r.actions[i], r.states[i + 1]);
    RunKeepsInv(r, i);
    assert Coherent(r.states[i], id);
  }

  /** A stop of a command whose spawn is pending is recorded, and signals nothing yet; a stop of an unknown
      or ended one does nothing. */
  lemma StopOtherwise(r: Run, i: nat, id: Id)
    requires IsRun(r) && i < |r.actions| && r.actions[i] == Stop(id)
    requires id !in r.states[i].tasks || !(r.states[i].tasks[id].Reading? || r.states[i].tasks[id].Stopping?)
    ensures r.states[i + 1].signals == r.states[i].signals
    ensures r.states[i + 1].table.processes == r.states[i].table.processes
    ensures r.states[i + 1].table.stopRequests ==
            if id in r.states[i].tasks && !r.states[i].tasks[id].Ended?
            then r.states[i].table.stopRequests + {id} else r.states[i].table.stopRequests
  {
    assert IsStep(r.states[i], r.actions[i], r.states[i + 1]);
    RunKeepsInv(r, i);
    assert Coherent(r.states[i], id);
  }

  /** The process of a stopped command is signalled in the very step in which it appears. */
  lemma EarlyStopSignalsAtSpawn(r: Run, i: nat, id: Id, g: Group)
    requires IsRun(r) && i < |r.actions| && r.actions[i] == Spawned(id, g)
    ensures id in r.states[i + 1].tasks && id in r.states[i + 1].spawned && r.states[i + 1].spawned[id] == g
    ensures id in r.states[i].table.stopRequests ==>
              Signal(id, g) in r.states[i + 1].signals && r.states[i + 1].tasks[id].Stopping?
    ensures id !in r.states[i].table.stopRequests ==>
              r.states[i + 1].signals == r.states[i].signals && r.states[i + 1].tasks[id].Reading?
  {
    assert IsStep(r.states[i], r.actions[i], r.states[i + 1]);
  }

  /** Stops signal nobody else: every group ever signalled is the group of a command that was asked
      to stop, and of no other command. */
  lemma OnlyTheStoppedAreSignalled(r: Run, i: nat, x: Signal)
    requires IsRun(r) && i < |r.states| && x in r.states[i].signals
    ensures x.id in r.states[i].asked
    ensures x.id in r.states[i].spawned && r.states[i].spawned[x.id] == x.group
    ensures forall other :: other in r.states[i].spawned && r.states[i].spawned[other] == x.group ==> other == x.id
  {
    RunKeepsInv(r, i);
  }
}
