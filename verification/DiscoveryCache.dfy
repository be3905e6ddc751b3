/** The single-flight cache for ACP model discovery, as steps of many callers and runs on one
    event loop. Time is the loop's monotonic clock. */
module DiscoveryCache {
  import opened Wrappers

  type Key = string
  type RunId = nat
  type CallId = nat

  datatype Discovery = Discovery(models: seq<string>, error: Option<string>)

  datatype Entry = Entry(expiry: real, value: Discovery)

  const CACHE_TTL_SECONDS: real := 300.0
  const MAX_CONCURRENT_DISCOVERIES: nat := 2

  datatype Cache = Cache(results: map<Key, Entry>, inFlight: map<Key, RunId>)

  /** A stored result that may be used at time `now`. */
  function Usable(c: Cache, key: Key, now: real): Option<Discovery> {
    if key in c.results && c.results[key].expiry > now then Some(c.results[key].value) else None
  }

  /** What a run stores when its discovery returns: errors are not kept. */
  function Store(c: Cache, key: Key, now: real, result: Discovery): Cache {
    Cache(
      if result.error.None? then c.results[key := Entry(now + CACHE_TTL_SECONDS, result)] else c.results,
      c.inFlight - {key})
  }

  datatype Answer = Cached(value: Discovery) | Join(run: RunId) | Launch(run: RunId)

  class DiscoveryCacheObject {
    var results: map<Key, Entry>
    var inFlight: map<Key, RunId>

    function View(): Cache
      reads this
    {
      Cache(results, inFlight)
    }

    constructor ()
      ensures View() == Cache(map[], map[])
    {
      results, inFlight := map[], map[];
    }

    /** `get` up to its await. It is answered from the cache exactly when it may be and a stored result
        has not expired. Otherwise it waits for a run, which is then the one listed for its key: the one
        listed before, if any, else the new one. Nothing stored and no other key is touched. */
    method Get(key: Key, refresh: bool, now: real, newRun: RunId) returns (a: Answer)
      modifies this
      ensures a.Cached? <==> !refresh && key in old(results) && now < old(results)[key].expiry
      ensures a.Cached? ==> a.value == old(results)[key].value && inFlight == old(inFlight)
      ensures !a.Cached? ==> key in inFlight && inFlight[key] == a.run
      ensures a.Join? ==> inFlight == old(inFlight)
      ensures a.Launch? ==> key !in old(inFlight) && a.run == newRun && inFlight - {key} == old(inFlight)
      ensures results == old(results)
      ensures a == Decide(old(View()), key, refresh, now, newRun) && View() == AfterGet(old(View()), key, a)
    {
      if !refresh && key in results && results[key].expiry > now {
        return Cached(results[key].value);
      }
      if key in inFlight {
        return Join(inFlight[key]);
      }
      inFlight := inFlight[key := newRun];
      return Launch(newRun);
    }

    /** `_run` after `discover()` has returned. The key is no longer listed. A success answers calls
        for the time-to-live and no longer, an error leaves what was stored; other keys are untouched. */
    method Finished(key: Key, now: real, result: Discovery)
      modifies this
      ensures key !in inFlight
      ensures forall k :: k != key ==> (k in inFlight <==> k in old(inFlight)) && (k in results <==> k in old(results))
      ensures forall k :: k != key && k in inFlight ==> inFlight[k] == old(inFlight)[k]
      ensures forall k :: k != key && k in results ==> results[k] == old(results)[k]
      ensures result.error.Some? ==> results == old(results)
      ensures result.error.None? ==>
                forall t :: Usable(View(), key, t) == if t < now + CACHE_TTL_SECONDS then Some(result) else None
      ensures View() == Store(old(View()), key, now, result)
    {
      if result.error.None? {
        results := results[key := Entry(now + CACHE_TTL_SECONDS, result)];
      }
      inFlight := inFlight - {key};
    }
  }

  function Decide(c: Cache, key: Key, refresh: bool, now: real, newRun: RunId): Answer {
    if !refresh && Usable(c, key, now).Some? then Cached(Usable(c, key, now).value)
    else if key in c.inFlight then Join(c.inFlight[key])
    else Launch(newRun)
  }

  function AfterGet(c: Cache, key: Key, a: Answer): Cache {
    if a.Launch? then c.(inFlight := c.inFlight[key := a.run]) else c
  }

  // ---------------------------------------------------------------------------------------
  // Callers and runs
  // ---------------------------------------------------------------------------------------

  /** `Returned` remembers when; `Stillborn` is a run cancelled before its first step, whose
      `finally` never executes. */
  datatype Phase = Scheduled | AwaitingSlot | Executing | Returned(result: Discovery, at: real) | Raised | Stillborn

  predicate Unfinished(p: Phase) {
    p.Scheduled? || p.AwaitingSlot? || p.Executing?
  }

  datatype Flight = Flight(key: Key, phase: Phase)

  /** A call answered from the cache remembers, as history, when it asked and when that entry expires. */
  datatype Call =
    | Waiting(key: Key, run: RunId)
    | FromCache(key: Key, value: Discovery, at: real, expiry: real)
    | FromRun(key: Key, run: RunId, value: Discovery, at: real)
    | Failed(key: Key, run: RunId)
    | Abandoned(key: Key)

  datatype State = State(
    cache: Cache,
    flights: map<RunId, Flight>,
    calls: map<CallId, Call>,
    slots: nat,
    executing: set<RunId>,
    clock: real)

  datatype Action =
    | Get(call: CallId, key: Key, refresh: bool, newRun: RunId)
    | Begin(run: RunId)
    | TakeSlot(run: RunId)
    | Discovered(run: RunId, result: Discovery)
    | Fail(run: RunId)
    | CancelUnstarted(run: RunId)
    | Wake(call: CallId)
    | CancelCall(call: CallId)
    | Tick(time: real)

  const Empty: State := State(Cache(map[], map[]), map[], map[], MAX_CONCURRENT_DISCOVERIES, {}, 0.0)

  predicate Enabled(s: State, a: Action) {
    match a
    case Get(call, _, _, newRun) => call !in s.calls && newRun !in s.flights
    case Begin(run) => run in s.flights && s.flights[run].phase.Scheduled?
    case TakeSlot(run) => run in s.flights && s.flights[run].phase.AwaitingSlot? && s.slots > 0
    case Discovered(run, _) => run in s.flights && s.flights[run].phase.Executing?
    case Fail(run) => run in s.flights && (s.flights[run].phase.AwaitingSlot? || s.flights[run].phase.Executing?)
    case CancelUnstarted(run) => run in s.flights && s.flights[run].phase.Scheduled?
    case Wake(call) =>
      && call in s.calls && s.calls[call].Waiting? && s.calls[call].run in s.flights
      && !Unfinished(s.flights[s.calls[call].run].phase)
    case CancelCall(call) => call in s.calls && s.calls[call].Waiting?
    case Tick(time) => s.clock <= time
  }

  function Goto(s: State, run: RunId, phase: Phase): State
    requires run in s.flights
  {
    s.(flights := s.flights[run := s.flights[run].(phase := phase)])
  }

  function LeaveSlot(s: State, run: RunId): State {
    if run in s.executing then s.(slots := s.slots + 1, executing := s.executing - {run}) else s
  }

  function Apply(s: State, a: Action): State
    requires Enabled(s, a)
  {
    match a
    case Get(call, key, refresh, newRun) =>
      var answer := Decide(s.cache, key, refresh, s.clock, newRun);
      var s' := s.(cache := AfterGet(s.cache, key, answer));
      (match answer
       case Cached(v) => s'.(calls := s.calls[call := FromCache(key, v, s.clock, s.cache.results[key].expiry)])
       case Join(run) => s'.(calls := s.calls[call := Waiting(key, run)])
       case Launch(run) =>
         s'.(calls := s.calls[call := Waiting(key, run)], flights := s.flights[run := Flight(key, Scheduled)]))
    case Begin(run) => Goto(s, run, AwaitingSlot)
    case TakeSlot(run) => Goto(s, run, Executing).(slots := s.slots - 1, executing := s.executing + {run})
    case Discovered(run, result) =>
      LeaveSlot(Goto(s, run, Returned(result, s.clock)), run)
      .(cache := Store(s.cache, s.flights[run].key, s.clock, result))
    case Fail(run) =>
      LeaveSlot(Goto(s, run, Raised), run).(cache := s.cache.(inFlight := s.cache.inFlight - {s.flights[run].key}))
    case CancelUnstarted(run) => Goto(s, run, Stillborn)
    case Wake(call) =>
      var c := s.calls[call];
      var phase := s.flights[c.run].phase;
      var woken := if phase.Returned? then FromRun(c.key, c.run, phase.result, phase.at) else Failed(c.key, c.run);
      s.(calls := s.calls[call := woken])
    case CancelCall(call) => s.(calls := s.calls[call := Abandoned(s.calls[call].key)])
    case Tick(time) => s.(clock := time)
  }

  // ---------------------------------------------------------------------------------------
  // Invariants
  // ---------------------------------------------------------------------------------------

  /** The run that stored an entry returned its value exactly one time-to-live before it expires. */
  function Stored(key: Key, e: Entry): Flight {
    Flight(key, Returned(e.value, e.expiry - CACHE_TTL_SECONDS))
  }

  /** A run and the table of runs in flight: an unfinished run is the one listed for its key. */
  predicate FlightOk(s: State, run: RunId) {
    run in s.flights ==>
      && (Unfinished(s.flights[run].phase) ==>
            s.flights[run].key in s.cache.inFlight && s.cache.inFlight[s.flights[run].key] == run)
      && (run in s.executing <==> s.flights[run].phase.Executing?)
  }

  /** The listed run of a key is unfinished, or was cancelled before it started. */
  predicate ListedOk(s: State, key: Key) {
    key in s.cache.inFlight ==>
      && s.cache.inFlight[key] in s.flights
      && s.flights[s.cache.inFlight[key]].key == key
      && (Unfinished(s.flights[s.cache.inFlight[key]].phase) || s.flights[s.cache.inFlight[key]].phase.Stillborn?)
  }

  /** Results stored for a key are successes that some run for that key returned. */
  ghost predicate StoredOk(s: State, key: Key) {
    key in s.cache.results ==>
      && s.cache.results[key].value.error.None?
      && s.cache.results[key].expiry - CACHE_TTL_SECONDS <= s.clock
      && exists run :: run in s.flights && s.flights[run] == Stored(key, s.cache.results[key])
  }

  ghost predicate KeyOk(s: State, key: Key) {
    ListedOk(s, key) && StoredOk(s, key)
  }

  /** A call waits for, or got its value from, a run for its own key; or it was answered from the
      cache with a result that had not expired when it asked. */
  ghost predicate CallOk(s: State, call: CallId) {
    call in s.calls ==>
      var c := s.calls[call];
      && (c.Waiting? ==> c.run in s.flights && s.flights[c.run].key == c.key)
      && (c.FromRun? ==> c.run in s.flights && s.flights[c.run] == Flight(c.key, Returned(c.value, c.at)))
      && (c.FromCache? ==>
            && c.value.error.None? && c.expiry - CACHE_TTL_SECONDS <= c.at < c.expiry
            && exists run :: run in s.flights && s.flights[run] == Stored(c.key, Entry(c.expiry, c.value)))
  }

  ghost predicate Inv(s: State) {
    && SlotsOk(s)
    && (forall run :: FlightOk(s, run))
    && (forall key :: KeyOk(s, key))
    && (forall call :: CallOk(s, call))
  }

  /** What a step needs to know of the run it ends, or of the key it asks for. */
  predicate StepOk(s: State, a: Action) {
    && (a.Discovered? || a.Fail? || a.TakeSlot? ==> FlightOk(s, a.run))
    && (a.Get? ==> ListedOk(s, a.key) && a.newRun !in s.executing)
  }

  lemma StepKeepsFlight(s: State, a: Action, run: RunId)
    requires Enabled(s, a) && StepOk(s, a) && FlightOk(s, run)
    ensures FlightOk(Apply(s, a), run)
  {
  }

  /** A finished run stays as it is. */
  lemma FinishedStays(s: State, a: Action, run: RunId)
    requires Enabled(s, a) && run in s.flights
    ensures run in Apply(s, a).flights && Apply(s, a).flights[run].key == s.flights[run].key
    ensures !Unfinished(s.flights[run].phase) ==> Apply(s, a).flights[run] == s.flights[run]
  {
  }

  lemma StepKeepsListed(s: State, a: Action, key: Key)
    requires Enabled(s, a) && StepOk(s, a) && ListedOk(s, key)
    ensures ListedOk(Apply(s, a), key)
  {
  }

  lemma StepKeepsStored(s: State, a: Action, key: Key)
    requires StoredOk(s, key) && Enabled(s, a)
    ensures StoredOk(Apply(s, a), key)
  {
    var t := Apply(s, a);
    if key in s.cache.results && key in t.cache.results && t.cache.results[key] == s.cache.results[key] {
      var run :| run in s.flights && s.flights[run] == Stored(key, s.cache.results[key]);
      FinishedStays(s, a, run);
      assert t.flights[run] == Stored(key, t.cache.results[key]);
    }
    if a.Discovered? {
      assert t.flights[a.run] == Flight(s.flights[a.run].key, Returned(a.result, s.clock));
    }
  }

  /** What holds of a call keeps holding. */
  lemma CallStays(s: State, a: Action, call: CallId)
    requires Enabled(s, a) && CallOk(s, call) && call in s.calls
    ensures CallOk(Apply(s, a), call)
  {
    var t, c := Apply(s, a), s.calls[call];
    if c.Waiting? || c.FromRun? {
      FinishedStays(s, a, c.run);
    }
    if c.FromCache? {
      var run :| run in s.flights && s.flights[run] == Stored(c.key, Entry(c.expiry, c.value));
      FinishedStays(s, a, run);
      assert t.flights[run] == Stored(c.key, Entry(c.expiry, c.value));
    }
  }

  /** A new call waits for a run for its key, or has a stored result that has not expired. */
  lemma NewCallOk(s: State, call: CallId, key: Key, refresh: bool, newRun: RunId)
    requires Enabled(s, Get(call, key, refresh, newRun)) && KeyOk(s, key)
    ensures CallOk(Apply(s, Get(call, key, refresh, newRun)), call)
  {
    var t := Apply(s, Get(call, key, refresh, newRun));
    if t.calls[call].FromCache? {
      var e := s.cache.results[key];
      var run :| run in s.flights && s.flights[run] == Stored(key, e);
      assert t.flights[run] == Stored(key, Entry(e.expiry, e.value));
    }
  }

  lemma StepKeepsCall(s: State, a: Action, call: CallId)
    requires Inv(s) && Enabled(s, a)
    ensures CallOk(Apply(s, a), call)
  {
    assert CallOk(s, call);
    if call in s.calls {
      CallStays(s, a, call);
    } else if a.Get? && a.call == call {
      assert KeyOk(s, a.key);
      NewCallOk(s, call, a.key, a.refresh, a.newRun);
    }
  }

  predicate SlotsOk(s: State) {
    s.slots + |s.executing| == MAX_CONCURRENT_DISCOVERIES && s.executing <= s.flights.Keys
  }

  lemma GotoKeepsSlots(s: State, run: RunId, phase: Phase)
    requires run in s.flights && SlotsOk(s)
    ensures SlotsOk(Goto(s, run, phase))
  {
  }

  lemma LeavingKeepsSlots(s: State, run: RunId)
    requires SlotsOk(s)
    ensures SlotsOk(LeaveSlot(s, run))
  {
  }

  lemma StepKeepsSlots(s: State, a: Action)
    requires Enabled(s, a) && StepOk(s, a) && SlotsOk(s)
    ensures SlotsOk(Apply(s, a))
  {
    match a
    case TakeSlot(run) => assert run !in s.executing;
    case Discovered(run, result) =>
      GotoKeepsSlots(s, run, Returned(result, s.clock));
      LeavingKeepsSlots(Goto(s, run, Returned(result, s.clock)), run);
    case Fail(run) =>
      GotoKeepsSlots(s, run, Raised);
      LeavingKeepsSlots(Goto(s, run, Raised), run);
    case _ =>
  }

  lemma InvStepOk(s: State, a: Action)
    requires Inv(s) && Enabled(s, a)
    ensures StepOk(s, a)
  {
    if a.Discovered? || a.Fail? || a.TakeSlot? { assert FlightOk(s, a.run); }
    if a.Get? { assert KeyOk(s, a.key); }
  }

  lemma StepKeepsInv(s: State, a: Action)
    requires Inv(s) && Enabled(s, a)
    ensures Inv(Apply(s, a))
  {
    var t := Apply(s, a);
    InvStepOk(s, a);
    forall run ensures FlightOk(t, run) {
      assert FlightOk(s, run);
      StepKeepsFlight(s, a, run);
    }
    forall key ensures KeyOk(t, key) {
      assert KeyOk(s, key);
      StepKeepsListed(s, a, key);
      StepKeepsStored(s, a, key);
    }
    forall call ensures CallOk(t, call) { StepKeepsCall(s, a, call); }
    StepKeepsSlots(s, a);
  }

  // ---------------------------------------------------------------------------------------
  // Whole executions
  // ---------------------------------------------------------------------------------------

  datatype Execution = Execution(states: seq<State>, actions: seq<Action>)

  predicate IsStep(s: State, a: Action, t: State) {
    Enabled(s, a) && t == Apply(s, a)
  }

  predicate IsExecution(x: Execution) {
    && |x.states| == |x.actions| + 1
    && x.states[0] == Empty
    && forall i :: 0 <= i < |x.actions| ==> IsStep(x.states[i], x.actions[i], x.states[i + 1])
  }

  lemma {:induction false} ExecutionKeepsInv(x: Execution, i: nat)
    requires IsExecution(x) && i < |x.states|
    ensures Inv(x.states[i])
  {
    if i > 0 {
      ExecutionKeepsInv(x, i - 1);
      assert IsStep(x.states[i - 1], x.actions[i - 1], x.states[i]);
      StepKeepsInv(x.states[i - 1], x.actions[i - 1]);
    }
  }

  /** Single flight: two unfinished runs for one key are the same run, and it is the one listed. */
  lemma SingleFlight(x: Execution, i: nat, r1: RunId, r2: RunId)
    requires IsExecution(x) && i < |x.states|
    requires r1 in x.states[i].flights && Unfinished(x.states[i].flights[r1].phase)
    requires r2 in x.states[i].flights && Unfinished(x.states[i].flights[r2].phase)
    requires x.states[i].flights[r1].key == x.states[i].flights[r2].key
    ensures r1 == r2
    ensures x.states[i].flights[r1].key in x.states[i].cache.inFlight
    ensures x.states[i].cache.inFlight[x.states[i].flights[r1].key] == r1
  {
    ExecutionKeepsInv(x, i);
    assert FlightOk(x.states[i], r1) && FlightOk(x.states[i], r2);
  }

  /** At most two discoveries execute at once. */
  lemma BoundedConcurrency(x: Execution, i: nat, rs: set<RunId>)
    requires IsExecution(x) && i < |x.states|
    requires forall r :: r in rs ==> r in x.states[i].flights && x.states[i].flights[r].phase.Executing?
    ensures |rs| <= 2
  {
    ExecutionKeepsInv(x, i);
    forall r | r in rs ensures r in x.states[i].executing {
      assert FlightOk(x.states[i], r);
    }
    SubsetSize(rs, x.states[i].executing);
  }

  /** A run that waits for a slot can take one exactly if fewer than two discoveries execute. */
  lemma TwoSlots(x: Execution, i: nat, run: RunId)
    requires IsExecution(x) && i < |x.states|
    requires run in x.states[i].flights && x.states[i].flights[run].phase.AwaitingSlot?
    ensures var executing := set r | r in x.states[i].flights && x.states[i].flights[r].phase.Executing?;
            Enabled(x.states[i], TakeSlot(run)) <==> |executing| < 2
  {
    ExecutionKeepsInv(x, i);
    var executing := set r | r in x.states[i].flights && x.states[i].flights[r].phase.Executing?;
    forall r ensures r in executing <==> r in x.states[i].executing {
      assert FlightOk(x.states[i], r);
    }
    assert executing == x.states[i].executing;
  }

  lemma {:induction false} SubsetSize(a: set<RunId>, b: set<RunId>)
    requires a <= b
    ensures |a| <= |b|
  {
    if a != {} {
      var r :| r in a;
      SubsetSize(a - {r}, b - {r});
    }
  }

  predicate RunReturned(s: State, run: RunId, key: Key, value: Discovery, at: real) {
    run in s.flights && s.flights[run] == Flight(key, Returned(value, at))
  }

  /** Stored results are successes, and what a call returns is the result of a run for its key, or
      a success for its key that a run returned less than the time-to-live before it asked. */
  lemma ReturnedValuesAreSound(x: Execution, i: nat, call: CallId, key: Key)
    requires IsExecution(x) && i < |x.states|
    ensures key in x.states[i].cache.results ==> x.states[i].cache.results[key].value.error.None?
    ensures call in x.states[i].calls ==>
              var c := x.states[i].calls[call];
              && (c.FromRun? ==> RunReturned(x.states[i], c.run, c.key, c.value, c.at))
              && (c.FromCache? ==>
                    && c.value.error.None?
                    && exists run, t :: RunReturned(x.states[i], run, c.key, c.value, t)
                                        && t <= c.at < t + CACHE_TTL_SECONDS)
  {
    ExecutionKeepsInv(x, i);
    assert CallOk(x.states[i], call) && KeyOk(x.states[i], key);
    if call in x.states[i].calls && x.states[i].calls[call].FromCache? {
      var c := x.states[i].calls[call];
      var run :| run in x.states[i].flights && x.states[i].flights[run] == Stored(c.key, Entry(c.expiry, c.value));
      assert RunReturned(x.states[i], run, c.key, c.value, c.expiry - CACHE_TTL_SECONDS);
    }
  }

  /** The run a call waits for is the one launched by the call itself or already in flight for its
      key when it asked, and the call keeps to it. */
  lemma {:induction false} WaitsForRunInFlight(x: Execution, i: nat, call: CallId)
    requires IsExecution(x) && i < |x.states| && call in x.states[i].calls
    requires x.states[i].calls[call].Waiting? || x.states[i].calls[call].FromRun?
    ensures exists k :: 0 <= k < i && x.actions[k].Get? && x.actions[k].call == call
                        && x.actions[k].key == x.states[i].calls[call].key
                        && x.actions[k].key in x.states[k + 1].cache.inFlight
                        && x.states[k + 1].cache.inFlight[x.actions[k].key] == x.states[i].calls[call].run
  {
    assert IsStep(x.states[i - 1], x.actions[i - 1], x.states[i]);
    if call in x.states[i - 1].calls {
      WaitsForRunInFlight(x, i - 1, call);
    }
  }

  lemma {:induction false} StillbornMeansCancelledUnstarted(x: Execution, i: nat, run: RunId)
    requires IsExecution(x) && i < |x.states| && run in x.states[i].flights
    ensures x.states[i].flights[run].phase.Stillborn? <==>
            exists k :: 0 <= k < i && x.actions[k] == CancelUnstarted(run)
  {
    if i > 0 {
      var s, a := x.states[i - 1], x.actions[i - 1];
      assert IsStep(s, a, x.states[i]);
      if run in s.flights {
        StillbornMeansCancelledUnstarted(x, i - 1, run);
        FinishedStays(s, a, run);
      } else {
        NoActionBeforeLaunch(x, i - 1, run);
      }
    }
  }

  lemma {:induction false} NoActionBeforeLaunch(x: Execution, i: nat, run: RunId)
    requires IsExecution(x) && i < |x.states| && run !in x.states[i].flights
    ensures forall k :: 0 <= k < i ==> x.actions[k] != CancelUnstarted(run)
  {
    if i > 0 {
      assert IsStep(x.states[i - 1], x.actions[i - 1], x.states[i]);
      NoActionBeforeLaunch(x, i - 1, run);
    }
  }

  /** The run listed for a key is a run for that key, and it is unfinished exactly if it was not
      cancelled before its first step. */
  lemma ListedRunIsUnfinished(x: Execution, i: nat, key: Key)
    requires IsExecution(x) && i < |x.states| && key in x.states[i].cache.inFlight
    ensures var run := x.states[i].cache.inFlight[key];
            && run in x.states[i].flights && x.states[i].flights[run].key == key
            && (Unfinished(x.states[i].flights[run].phase) <==>
                !exists k :: 0 <= k < i && x.actions[k] == CancelUnstarted(run))
  {
    ExecutionKeepsInv(x, i);
    assert KeyOk(x.states[i], key);
    StillbornMeansCancelledUnstarted(x, i, x.states[i].cache.inFlight[key]);
  }

  /** The run listed for the key was cancelled before it started. */
  predicate ListsStillborn(s: State, key: Key, run: RunId) {
    && key in s.cache.inFlight && s.cache.inFlight[key] == run
    && run in s.flights && s.flights[run] == Flight(key, Stillborn)
  }

  lemma StillbornStays(s: State, a: Action, key: Key, run: RunId)
    requires Enabled(s, a) && StepOk(s, a) && ListsStillborn(s, key, run)
    ensures ListsStillborn(Apply(s, a), key, run)
  {
    FinishedStays(s, a, run);
  }

  /** An entry whose run was cancelled before it started is never removed. */
  lemma {:induction false} StillbornSticks(x: Execution, i: nat, j: nat, key: Key, run: RunId)
    requires IsExecution(x) && i <= j < |x.states| && ListsStillborn(x.states[i], key, run)
    ensures ListsStillborn(x.states[j], key, run)
  {
    if i < j {
      StillbornSticks(x, i, j - 1, key, run);
      ExecutionKeepsInv(x, j - 1);
      assert IsStep(x.states[j - 1], x.actions[j - 1], x.states[j]);
      InvStepOk(x.states[j - 1], x.actions[j - 1]);
      StillbornStays(x.states[j - 1], x.actions[j - 1], key, run);
    }
  }

  /** From then on no call for that key launches a run: each is answered from the cache or waits for the
      cancelled run. And no call ever gets a value by waiting for that run. */
  lemma StillbornServesNobody(x: Execution, i: nat, j: nat, key: Key, run: RunId, call: CallId)
    requires IsExecution(x) && i <= j < |x.states| && ListsStillborn(x.states[i], key, run)
    ensures j < |x.actions| && x.actions[j].Get? && x.actions[j].key == key ==>
              && x.states[j + 1].flights == x.states[j].flights
              && x.actions[j].call in x.states[j + 1].calls
              && (x.states[j + 1].calls[x.actions[j].call].FromCache?
                  || x.states[j + 1].calls[x.actions[j].call] == Waiting(key, run))
    ensures call in x.states[j].calls && x.states[j].calls[call].FromRun? ==> x.states[j].calls[call].run != run
  {
    StillbornSticks(x, i, j, key, run);
    ExecutionKeepsInv(x, j);
    assert CallOk(x.states[j], call);
    if j < |x.actions| {
      assert IsStep(x.states[j], x.actions[j], x.states[j + 1]);
    }
  }

  /** An execution that gets there: a call launches a run, the run is cancelled before its first step,
      and a second call waits for it and fails. */
  lemma StillbornHappens(key: Key, refresh: bool) returns (x: Execution)
    ensures IsExecution(x)
    ensures x.actions == [Get(0, key, false, 0), CancelUnstarted(0), Get(1, key, refresh, 1), Wake(1)]
    ensures ListsStillborn(x.states[2], key, 0)
    ensures x.states[3].calls == map[0 := Waiting(key, 0), 1 := Waiting(key, 0)]
    ensures x.states[4].calls == map[0 := Waiting(key, 0), 1 := Failed(key, 0)]
  {
    var a := [Get(0, key, false, 0), CancelUnstarted(0), Get(1, key, refresh, 1), Wake(1)];
    var s1 := Apply(Empty, a[0]);
    var s2 := Apply(s1, a[1]);
    var s3 := Apply(s2, a[2]);
    var s4 := Apply(s3, a[3]);
    x := Execution([Empty, s1, s2, s3, s4], a);
  }

  // ---------------------------------------------------------------------------------------
  // What each step of a call and of a run brings about
  // ---------------------------------------------------------------------------------------

  /** A call that wakes gets the value its run returned, and fails exactly if the run raised or was
      cancelled before its first step. */
  lemma WakeDelivers(x: Execution, i: nat, call: CallId)
    requires IsExecution(x) && i < |x.actions| && x.actions[i] == Wake(call)
    ensures call in x.states[i].calls && x.states[i].calls[call].Waiting?
    ensures x.states[i].calls[call].run in x.states[i].flights && call in x.states[i + 1].calls
    ensures var c := x.states[i].calls[call];
            var flight := x.states[i].flights[c.run];
            && flight.key == c.key
            && (forall v, t :: flight.phase == Returned(v, t) ==>
                                 x.states[i + 1].calls[call] == FromRun(c.key, c.run, v, t))
            && (x.states[i + 1].calls[call] == Failed(c.key, c.run) <==>
                flight.phase.Raised? || flight.phase.Stillborn?)
            && (x.states[i + 1].calls[call].FromRun? || x.states[i + 1].calls[call].Failed?)
  {
    assert IsStep(x.states[i], x.actions[i], x.states[i + 1]);
    ExecutionKeepsInv(x, i);
    assert CallOk(x.states[i], call);
  }

  /** A call is answered from the cache exactly when no refresh was asked for and an unexpired result is
      stored. Otherwise it waits: for the run listed for its key, or for the new one it launches. */
  lemma GetAnswers(x: Execution, i: nat, call: CallId, key: Key, refresh: bool, newRun: RunId)
    requires IsExecution(x) && i < |x.actions| && x.actions[i] == Get(call, key, refresh, newRun)
    ensures var s, t := x.states[i], x.states[i + 1];
            && t.cache.results == s.cache.results
            && call in t.calls
            && t.calls[call] ==
               (if !refresh && key in s.cache.results && s.clock < s.cache.results[key].expiry
                then FromCache(key, s.cache.results[key].value, s.clock, s.cache.results[key].expiry)
                else if key in s.cache.inFlight then Waiting(key, s.cache.inFlight[key])
                else Waiting(key, newRun))
            && (t.calls[call] == Waiting(key, newRun) && key !in s.cache.inFlight ==>
                  && key in t.cache.inFlight && t.cache.inFlight[key] == newRun
                  && newRun in t.flights && t.flights[newRun] == Flight(key, Scheduled))
  {
    assert IsStep(x.states[i], x.actions[i], x.states[i + 1]);
    ExecutionKeepsInv(x, i);
    assert KeyOk(x.states[i], key);
  }

  /** A run whose discovery returns is delisted; a success is stored for 300 seconds, an error is not. */
  lemma RunStores(x: Execution, i: nat, run: RunId, v: Discovery)
    requires IsExecution(x) && i < |x.actions| && x.actions[i] == Discovered(run, v)
    ensures run in x.states[i].flights
    ensures var s, t := x.states[i], x.states[i + 1];
            var key := s.flights[run].key;
            && run in t.flights && t.flights[run] == Flight(key, Returned(v, s.clock))
            && key !in t.cache.inFlight
            && (v.error.None? ==> key in t.cache.results && t.cache.results[key] == Entry(s.clock + 300.0, v))
            && (v.error.Some? ==> t.cache.results == s.cache.results)
            && (forall k :: k != key ==> (k in t.cache.results <==> k in s.cache.results))
            && (forall k :: k != key && k in t.cache.results ==> t.cache.results[k] == s.cache.results[k])
  {
    assert IsStep(x.states[i], x.actions[i], x.states[i + 1]);
  }

  /** Calls come at any time, runs go on, fail or are cancelled before they start, and a call wakes as soon
      as its run has ended. */
  lemma CallsComeAnyTime(s: State, call: CallId, key: Key, refresh: bool, run: RunId, v: Discovery)
    ensures call !in s.calls && run !in s.flights ==> Enabled(s, Get(call, key, refresh, run))
    ensures run in s.flights && s.flights[run].phase.Scheduled? ==>
              Enabled(s, Begin(run)) && Enabled(s, CancelUnstarted(run))
    ensures run in s.flights && s.flights[run].phase.AwaitingSlot? ==> Enabled(s, Fail(run))
    ensures run in s.flights && s.flights[run].phase.Executing? ==>
              Enabled(s, Discovered(run, v)) && Enabled(s, Fail(run))
    ensures call in s.calls && s.calls[call].Waiting? ==>
              && Enabled(s, CancelCall(call))
              && (s.calls[call].run in s.flights ==>
                    var phase := s.flights[s.calls[call].run].phase;
                    Enabled(s, Wake(call)) <==> phase.Returned? || phase.Raised? || phase.Stillborn?)
  {
  }

  /** A run that fails stores nothing and is delisted. */
  lemma RunFails(x: Execution, i: nat, run: RunId)
    requires IsExecution(x) && i < |x.actions| && x.actions[i] == Fail(run)
    ensures run in x.states[i].flights && run in x.states[i + 1].flights
    ensures x.states[i + 1].flights[run] == Flight(x.states[i].flights[run].key, Raised)
    ensures x.states[i + 1].cache.results == x.states[i].cache.results
    ensures x.states[i].flights[run].key !in x.states[i + 1].cache.inFlight
  {
    assert IsStep(x.states[i], x.actions[i], x.states[i + 1]);
  }

  /** A caller that is cancelled gives up alone: cache and runs stay as they are. */
  lemma CancelledCallerGivesUpAlone(x: Execution, i: nat, call: CallId)
    requires IsExecution(x) && i < |x.actions| && x.actions[i] == CancelCall(call)
    ensures call in x.states[i].calls && call in x.states[i + 1].calls
    ensures x.states[i + 1].calls[call] == Abandoned(x.states[i].calls[call].key)
    ensures x.states[i + 1].cache == x.states[i].cache && x.states[i + 1].flights == x.states[i].flights
  {
    assert IsStep(x.states[i], x.actions[i], x.states[i + 1]);
  }

  /** Nothing else changes what is stored or listed, and only its own steps change a call. */
  lemma OthersChangeNothing(x: Execution, i: nat, call: CallId)
    requires IsExecution(x) && i < |x.actions|
    ensures !x.actions[i].Discovered? ==> x.states[i + 1].cache.results == x.states[i].cache.results
    ensures !x.actions[i].Get? && !x.actions[i].Discovered? && !x.actions[i].Fail? ==>
              x.states[i + 1].cache.inFlight == x.states[i].cache.inFlight
    ensures call in x.states[i].calls && x.actions[i] != Wake(call) && x.actions[i] != CancelCall(call) ==>
              call in x.states[i + 1].calls && x.states[i + 1].calls[call] == x.states[i].calls[call]
    ensures x.states[i + 1].clock == if x.actions[i].Tick? then x.actions[i].time else x.states[i].clock
  {
    assert IsStep(x.states[i], x.actions[i], x.states[i + 1]);
  }

  /** The first call on an empty cache gets what discovery finds, and a success is stored. */
  lemma FirstCallIsServed(key: Key, v: Discovery) returns (s1: State, s2: State, s3: State, s4: State, t: State)
    ensures IsStep(Empty, Get(0, key, false, 0), s1) && IsStep(s1, Begin(0), s2) && IsStep(s2, TakeSlot(0), s3)
    ensures IsStep(s3, Discovered(0, v), s4) && IsStep(s4, Wake(0), t)
    ensures t.calls == map[0 := FromRun(key, 0, v, 0.0)]
    ensures t.cache.results == if v.error.None? then map[key := Entry(300.0, v)] else map[]
  {
    s1 := Apply(Empty, Get(0, key, false, 0));
    s2 := Apply(s1, Begin(0));
    s3 := Apply(s2, TakeSlot(0));
    s4 := Apply(s3, Discovered(0, v));
    t := Apply(s4, Wake(0));
  }
}
