/** The lease protocol at full grain: any number of server instances share the lease file,
    its temporary file and the file lock, and interleave one file-system or clock access at a
    time. An instance may crash at any point, which frees the lock; a later process may run
    under the same owner id. Outside interference may destroy the lease file at any time. */
module LeaseProtocol {
  import opened Wrappers
  import opened LeaseRecord

  datatype Op = Claim | Renew(generation: int) | Guard(generation: int) | Release(generation: int)

  /** Where an instance stands. Every phase but `Idle` holds the lock. */
  datatype Phase =
    | Idle
    | Entered(op: Op)                                            // lock taken, nothing read
    | Timed(now: real)                                           // claim: clock read
    | Confirmed(generation: int)                                 // renew: ownership verified
    | Deciding(claim: bool, generation: int, expiresAt: real)    // about to open the temporary file
    | Opened(claim: bool, generation: int, expiresAt: real)      // temporary file partly written
    | Flushed(claim: bool, generation: int, expiresAt: real)     // temporary file complete
    | InBody(generation: int)                                    // guarded write: body running
    | Unlinking(generation: int)                                 // release: about to unlink
    | Leaving                                                    // about to unlock

  datatype Instance = Instance(host: string, pid: int, ttl: real, phase: Phase)

  datatype State = State(
    file: Option<Document>,
    tmp: Option<Document>,
    lock: Option<string>,
    clock: real,
    live: map<string, Instance>)

  datatype Action =
    | Start(o: string, host: string, pid: int, ttl: real)
    | Crash(o: string)
    | Tick(time: real)
    | Damage(left: Option<Document>)
    | Acquire(o: string, op: Op)
    | ReadClock(o: string, reading: real)
    | Inspect(o: string, probe: Probe)
    | Open(o: string)
    | Flush(o: string)
    | Replace(o: string)
    | Body(o: string)
    | LeaveBody(o: string)
    | Unlink(o: string)
    | Unlock(o: string)

  predicate Init(s: State) {
    s.lock == None && s.live == map[]
  }

  predicate Enabled(s: State, a: Action) {
    match a
    case Start(o, _, pid, _) => o !in s.live && pid > 0
    case Crash(o) => o in s.live
    case Tick(time) => s.clock <= time
    case Damage(left) => ReadPayload(left).None?
    case Acquire(o, _) => o in s.live && s.live[o].phase.Idle? && s.lock == None
    case ReadClock(o, _) => o in s.live && (s.live[o].phase == Entered(Claim) || s.live[o].phase.Confirmed?)
    case Inspect(o, _) =>
      o in s.live && (s.live[o].phase.Timed? || (s.live[o].phase.Entered? && s.live[o].phase.op != Claim))
    case Open(o) => o in s.live && s.live[o].phase.Deciding?
    case Flush(o) => o in s.live && s.live[o].phase.Opened?
    case Replace(o) => o in s.live && s.live[o].phase.Flushed? && s.tmp.Some?
    case Body(o) => o in s.live && s.live[o].phase.InBody?
    case LeaveBody(o) => o in s.live && s.live[o].phase.InBody?
    case Unlink(o) => o in s.live && s.live[o].phase.Unlinking?
    case Unlock(o) => o in s.live && s.live[o].phase.Leaving?
  }

  function Goto(s: State, o: string, phase: Phase): State
    requires o in s.live
  {
    s.(live := s.live[o := s.live[o].(phase := phase)])
  }

  /** The phase an instance reaches by reading the lease file and deciding on what it read. */
  function AfterInspect(s: State, o: string, probe: Probe): Phase
    requires Enabled(s, Inspect(o, probe))
  {
    var me := s.live[o];
    var seen := ReadPayload(s.file);
    match me.phase
    case Timed(now) =>
      (match DecideClaim(seen, o, now, me.host, me.pid, probe)
       case Held(_, _) => Leaving
       case Granted(generation, _) => Deciding(true, generation, now + me.ttl))
    case Entered(Renew(generation)) => if Owns(seen, o, generation) then Confirmed(generation) else Leaving
    case Entered(Guard(generation)) => if Owns(seen, o, generation) then InBody(generation) else Leaving
    case Entered(Release(generation)) => if Owns(seen, o, generation) then Unlinking(generation) else Leaving
    case _ => Leaving
  }

  function Apply(s: State, a: Action): State
    requires Enabled(s, a)
  {
    match a
    case Start(o, host, pid, ttl) => s.(live := s.live[o := Instance(host, pid, ttl, Idle)])
    case Crash(o) => s.(live := s.live - {o}, lock := if s.lock == Some(o) then None else s.lock)
    case Tick(time) => s.(clock := time)
    case Damage(left) => s.(file := left)
    case Acquire(o, op) => Goto(s, o, Entered(op)).(lock := Some(o))
    case ReadClock(o, reading) =>
      var me := s.live[o];
      Goto(s, o, if me.phase.Confirmed? then Deciding(false, me.phase.generation, reading + me.ttl) else Timed(reading))
    case Inspect(o, probe) => Goto(s, o, AfterInspect(s, o, probe))
    case Open(o) =>
      var ph := s.live[o].phase;
      Goto(s, o, Opened(ph.claim, ph.generation, ph.expiresAt)).(tmp := Some(Torn))
    case Flush(o) =>
      var ph := s.live[o].phase;
      Goto(s, o, Flushed(ph.claim, ph.generation, ph.expiresAt))
      .(tmp := Some(WritePayload(o, ph.generation, ph.expiresAt, s.live[o].host, s.live[o].pid)))
    case Replace(o) => Goto(s, o, Leaving).(file := s.tmp, tmp := None)
    case Body(o) => s
    case LeaveBody(o) => Goto(s, o, Leaving)
    case Unlink(o) => Goto(s, o, Leaving).(file := None)
    case Unlock(o) => Goto(s, o, Idle).(lock := None)
  }

  /** The instance that takes a step; none for the clock and for outside interference. */
  function Actor(a: Action): Option<string> {
    match a
    case Tick(_) => None
    case Damage(_) => None
    case _ => Some(a.o)
  }

  // ---------------------------------------------------------------------------------------
  // Runs
  // ---------------------------------------------------------------------------------------

  datatype Run = Run(states: seq<State>, actions: seq<Action>)

  predicate IsStep(s: State, a: Action, t: State) {
    Enabled(s, a) && t == Apply(s, a)
  }

  predicate IsRun(r: Run) {
    && |r.states| == |r.actions| + 1
    && Init(r.states[0])
    && forall i :: 0 <= i < |r.actions| ==> IsStep(r.states[i], r.actions[i], r.states[i + 1])
  }

  predicate Writes(ph: Phase) {
    ph.Deciding? || ph.Opened? || ph.Flushed?
  }

  predicate Renewing(ph: Phase) {
    ph.Confirmed? || (Writes(ph) && !ph.claim)
  }

  /** What an instance past its check does next fits the lease now on disk, if there is one: a pending
      claim writes the generation that follows from it, a renewal, a guarded body and a release are on
      the instance's own lease. */
  predicate FitsLease(o: string, ph: Phase, seen: Option<Payload>) {
    && (Writes(ph) && ph.claim && seen.Some? ==>
          ph.generation == if seen.value.owner == o then seen.value.generation else seen.value.generation + 1)
    && ((Renewing(ph) || ph.InBody? || ph.Unlinking?) && seen.Some? ==> Owns(seen, o, ph.generation))
  }

  /** What holds of one live instance. */
  predicate InstanceOk(s: State, o: string)
    requires o in s.live
  {
    var me := s.live[o];
    && me.pid > 0
    && (!me.phase.Idle? ==> s.lock == Some(o))
    && (me.phase.Flushed? ==> s.tmp == Some(WritePayload(o, me.phase.generation, me.phase.expiresAt, me.host, me.pid)))
    && FitsLease(o, me.phase, ReadPayload(s.file))
  }

  predicate Inv(s: State) {
    && (s.lock.Some? ==> s.lock.value in s.live && !s.live[s.lock.value].phase.Idle?)
    && (forall o :: o in s.live ==> InstanceOk(s, o))
  }

  lemma StepKeepsInstance(s: State, a: Action, o: string)
    requires Inv(s) && Enabled(s, a) && o in Apply(s, a).live
    ensures InstanceOk(Apply(s, a), o)
  {
    assert o in s.live ==> InstanceOk(s, o);
    if a.Replace? {
      assert InstanceOk(s, a.o);
      var me := s.live[a.o];
      ReadBack(a.o, me.phase.generation, me.phase.expiresAt, me.host, me.pid);
    }
  }

  lemma StepKeepsInv(s: State, a: Action)
    requires Inv(s) && Enabled(s, a)
    ensures Inv(Apply(s, a))
  {
    forall o | o in Apply(s, a).live ensures InstanceOk(Apply(s, a), o) {
      StepKeepsInstance(s, a, o);
    }
  }

  lemma {:induction false} RunKeepsInv(r: Run, i: nat)
    requires IsRun(r) && i < |r.states|
    ensures Inv(r.states[i])
  {
    if i > 0 {
      RunKeepsInv(r, i - 1);
      assert IsStep(r.states[i - 1], r.actions[i - 1], r.states[i]);
      StepKeepsInv(r.states[i - 1], r.actions[i - 1]);
    }
  }
}
