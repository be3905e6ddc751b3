/** What the lease protocol guarantees over whole runs. */
module LeaseTheorems {
  import opened Wrappers
  import opened LeaseRecord
  import opened LeaseProtocol

  // ---------------------------------------------------------------------------------------
  // Events of a run
  // ---------------------------------------------------------------------------------------

  /** Step `k` makes a claim by `o` with generation `g` visible on disk. */
  ghost predicate CommitsClaim(r: Run, k: int, o: string, g: int)
    requires IsRun(r)
  {
    && 0 <= k < |r.actions|
    && r.actions[k] == Replace(o)
    && IsStep(r.states[k], r.actions[k], r.states[k + 1])
    && r.states[k].live[o].phase.claim
    && r.states[k].live[o].phase.generation == g
  }

  predicate CommitStep(s: State, a: Action)
    requires Enabled(s, a)
  {
    a.Replace? && s.live[a.o].phase.claim
  }

  /** Interference that lands inside a renewal is overwritten by that renewal. */
  predicate Shielded(s: State) {
    s.lock.Some? && s.lock.value in s.live && Renewing(s.live[s.lock.value].phase)
  }

  /** A step after which the previous claim no longer stands: another claim is committed, the
      lease is released, or the file is destroyed outside a renewal. */
  predicate EndsClaim(s: State, a: Action)
    requires Enabled(s, a)
  {
    CommitStep(s, a) || a.Unlink? || (a.Damage? && !Shielded(s))
  }

  ghost predicate NoEndBetween(r: Run, j: int, i: int)
    requires IsRun(r) && i < |r.states|
  {
    forall k :: j < k < i && 0 <= k ==>
                  IsStep(r.states[k], r.actions[k], r.states[k + 1]) && !EndsClaim(r.states[k], r.actions[k])
  }

  /** `(o, g)` was claimed by step `j` (or was on disk at the start, for `j == -1`) and nothing
      has ended that claim before step `i`. */
  ghost predicate ClaimedAt(r: Run, j: int, i: int, o: string, g: int)
    requires IsRun(r) && i < |r.states|
  {
    && -1 <= j < i
    && (if j == -1 then Owns(ReadPayload(r.states[0].file), o, g) else CommitsClaim(r, j, o, g))
    && NoEndBetween(r, j, i)
  }

  /** Step `i` is a `guarded_write(g)` or `renew(g)` by `o` whose ownership check succeeds. */
  ghost predicate PassesGuard(r: Run, i: int, o: string, g: int)
    requires IsRun(r)
  {
    && 0 <= i < |r.actions|
    && r.actions[i].Inspect? && r.actions[i].o == o
    && o in r.states[i].live && o in r.states[i + 1].live
    && (r.states[i].live[o].phase == Entered(Guard(g)) || r.states[i].live[o].phase == Entered(Renew(g)))
    && !r.states[i + 1].live[o].phase.Leaving?
  }

  // ---------------------------------------------------------------------------------------
  // Fencing
  // ---------------------------------------------------------------------------------------

  /** The claim in force, computed from the actions alone. */
  ghost function Token(r: Run, i: nat): Option<(string, int)>
    requires IsRun(r) && i < |r.states|
  {
    if i == 0 then
      (match ReadPayload(r.states[0].file)
       case Some(p) => Some((p.owner, p.generation))
       case None => None)
    else
      var s, a := r.states[i - 1], r.actions[i - 1];
      assert IsStep(s, a, r.states[i]);
      NextToken(s, a, Token(r, i - 1))
  }

  predicate TokenFitsFile(file: Option<Document>, token: Option<(string, int)>) {
    ReadPayload(file).Some? ==> token == Some((ReadPayload(file).value.owner, ReadPayload(file).value.generation))
  }

  ghost predicate TokenFits(s: State, token: Option<(string, int)>) {
    && TokenFitsFile(s.file, token)
    && (forall o :: o in s.live && Renewing(s.live[o].phase) ==> token == Some((o, s.live[o].phase.generation)))
  }

  /** The claim in force after one step. */
  function NextToken(s: State, a: Action, token: Option<(string, int)>): Option<(string, int)>
    requires Enabled(s, a)
  {
    if CommitStep(s, a) then Some((a.o, s.live[a.o].phase.generation))
    else if EndsClaim(s, a) then None
    else token
  }

  lemma StepFitsFile(s: State, a: Action, token: Option<(string, int)>)
    requires Inv(s) && Enabled(s, a) && TokenFits(s, token)
    ensures TokenFitsFile(Apply(s, a).file, NextToken(s, a, token))
  {
    if a.Replace? {
      assert InstanceOk(s, a.o);
      var me := s.live[a.o];
      ReadBack(a.o, me.phase.generation, me.phase.expiresAt, me.host, me.pid);
    }
  }

  lemma StepKeepsTokenFit(s: State, a: Action, token: Option<(string, int)>)
    requires Inv(s) && Enabled(s, a) && TokenFits(s, token)
    ensures TokenFits(Apply(s, a), NextToken(s, a, token))
  {
    var t := Apply(s, a);
    StepFitsFile(s, a, token);
    forall o | o in t.live && Renewing(t.live[o].phase)
      ensures NextToken(s, a, token) == Some((o, t.live[o].phase.generation))
    {
      assert InstanceOk(s, o);
    }
  }

  /** Whatever the disk shows, and whatever a renewal is about to write, is the claim in force. */
  lemma {:induction false} DiskShowsToken(r: Run, i: nat)
    requires IsRun(r) && i < |r.states|
    ensures TokenFits(r.states[i], Token(r, i))
  {
    if i > 0 {
      DiskShowsToken(r, i - 1);
      RunKeepsInv(r, i - 1);
      assert IsStep(r.states[i - 1], r.actions[i - 1], r.states[i]);
      StepKeepsTokenFit(r.states[i - 1], r.actions[i - 1], Token(r, i - 1));
    }
  }

  lemma {:induction false} TokenTracesToClaim(r: Run, i: nat, o: string, g: int) returns (j: int)
    requires IsRun(r) && i < |r.states| && Token(r, i) == Some((o, g))
    ensures ClaimedAt(r, j, i, o, g)
  {
    if i == 0 {
      j := -1;
    } else {
      var s, a := r.states[i - 1], r.actions[i - 1];
      assert IsStep(s, a, r.states[i]);
      if CommitStep(s, a) {
        j := i - 1;
      } else {
        j := TokenTracesToClaim(r, i - 1, o, g);
      }
    }
  }

  lemma GuardReadsOwner(r: Run, i: nat, o: string, g: int)
    requires IsRun(r)
    ensures PassesGuard(r, i, o, g) ==> Owns(ReadPayload(r.states[i].file), o, g)
  {
    if PassesGuard(r, i, o, g) {
      assert IsStep(r.states[i], r.actions[i], r.states[i + 1]);
    }
  }

  /** Fencing: an ownership check that succeeds is covered by the latest claim that anyone
      committed, and that claim has not been released, superseded or lost since. */
  lemma Fencing(r: Run, i: nat, o: string, g: int)
    requires IsRun(r) && PassesGuard(r, i, o, g)
    ensures exists j :: ClaimedAt(r, j, i, o, g)
  {
    GuardReadsOwner(r, i, o, g);
    DiskShowsToken(r, i);
    var j := TokenTracesToClaim(r, i, o, g);
  }

  /** Step `i` is a write inside the body of a `guarded_write(g)` by `o`. */
  ghost predicate RunsBody(r: Run, i: int, o: string, g: int)
    requires IsRun(r)
  {
    && 0 <= i < |r.actions|
    && r.actions[i] == Body(o) && o in r.states[i].live && r.states[i].live[o].phase == InBody(g)
  }

  /** Step `m` neither commits a claim nor releases the lease. */
  ghost predicate LeavesLease(r: Run, m: nat)
    requires IsRun(r) && m < |r.actions|
  {
    && IsStep(r.states[m], r.actions[m], r.states[m + 1])
    && !CommitStep(r.states[m], r.actions[m]) && !r.actions[m].Unlink?
  }

  /** From step `k` up to step `i` nobody commits a claim or releases the lease. */
  ghost predicate Undisturbed(r: Run, k: int, i: int)
    requires IsRun(r) && i < |r.states|
  {
    forall m :: k <= m < i && 0 <= m ==> LeavesLease(r, m)
  }

  lemma BodyStep(s: State, a: Action, o: string, g: int)
    requires Inv(s) && Enabled(s, a) && o in Apply(s, a).live && Apply(s, a).live[o].phase == InBody(g)
    ensures !CommitStep(s, a) && !a.Unlink? && o in s.live
    ensures s.live[o].phase == InBody(g) || (a.Inspect? && a.o == o && s.live[o].phase == Entered(Guard(g)))
  {
    assert o in s.live && InstanceOk(s, o);
  }

  /** An instance in its body has passed its check, and nothing but outside interference has touched
      the lease since. */
  lemma {:induction false} BodyWasChecked(r: Run, i: nat, o: string, g: int) returns (k: nat)
    requires IsRun(r) && i < |r.states| && o in r.states[i].live && r.states[i].live[o].phase == InBody(g)
    ensures k < i && PassesGuard(r, k, o, g) && Undisturbed(r, k, i)
  {
    var s, a := r.states[i - 1], r.actions[i - 1];
    assert IsStep(s, a, r.states[i]);
    RunKeepsInv(r, i - 1);
    BodyStep(s, a, o, g);
    if s.live[o].phase == InBody(g) {
      k := BodyWasChecked(r, i - 1, o, g);
    } else {
      k := i - 1;
    }
  }

  /** Fencing of the writes themselves: whatever happens between the check and the write, when a
      guarded body writes, the latest claim committed by anyone is `(o, g)` and no one has released
      the lease since. */
  lemma BodyIsFenced(r: Run, i: nat, o: string, g: int) returns (j: int)
    requires IsRun(r) && RunsBody(r, i, o, g)
    ensures -1 <= j < i && Undisturbed(r, j + 1, i)
    ensures if j == -1 then Owns(ReadPayload(r.states[0].file), o, g) else CommitsClaim(r, j, o, g)
  {
    var k := BodyWasChecked(r, i, o, g);
    Fencing(r, k, o, g);
    j :| ClaimedAt(r, j, k, o, g);
    forall m | j + 1 <= m < i && 0 <= m ensures LeavesLease(r, m) {
    }
  }

  /** If moreover the lease is still readable when the body writes, that claim was never lost either. */
  lemma BodyOverReadableLease(r: Run, i: nat, o: string, g: int)
    requires IsRun(r) && RunsBody(r, i, o, g) && ReadPayload(r.states[i].file).Some?
    ensures Owns(ReadPayload(r.states[i].file), o, g)
    ensures exists j :: ClaimedAt(r, j, i, o, g)
  {
    RunKeepsInv(r, i);
    assert InstanceOk(r.states[i], o);
    DiskShowsToken(r, i);
    var j := TokenTracesToClaim(r, i, o, g);
  }

  /** Step `i` replaces the lease file with the record of a `renew(g)` by `o`. */
  ghost predicate CommitsRenewal(r: Run, i: int, o: string, g: int)
    requires IsRun(r)
  {
    && 0 <= i < |r.actions|
    && r.actions[i] == Replace(o)
    && IsStep(r.states[i], r.actions[i], r.states[i + 1])
    && !r.states[i].live[o].phase.claim
    && r.states[i].live[o].phase.generation == g
  }

  /** A renewal that reaches the disk extends the claim in force, even if the file was damaged meanwhile. */
  lemma RenewalIsFenced(r: Run, i: nat, o: string, g: int)
    requires IsRun(r) && CommitsRenewal(r, i, o, g)
    ensures exists j :: ClaimedAt(r, j, i, o, g)
  {
    DiskShowsToken(r, i);
    assert Renewing(r.states[i].live[o].phase);
    var j := TokenTracesToClaim(r, i, o, g);
  }

  /** A release never removes another owner's lease, nor its own owner's later one. */
  lemma ReleaseRemovesOwnLease(r: Run, i: nat, o: string)
    requires IsRun(r) && i < |r.actions| && r.actions[i] == Unlink(o)
    ensures o in r.states[i].live && r.states[i].live[o].phase.Unlinking?
    ensures ReadPayload(r.states[i].file).Some? ==>
              Owns(ReadPayload(r.states[i].file), o, r.states[i].live[o].phase.generation)
  {
    assert IsStep(r.states[i], r.actions[i], r.states[i + 1]);
    RunKeepsInv(r, i);
    assert InstanceOk(r.states[i], o);
  }

  /** An instance that was taken over passes no check and writes nothing until it has claimed again. */
  lemma TakenOverMustReclaim(r: Run, j: nat, o': string, g': int, i: nat, o: string, g: int)
    requires IsRun(r) && CommitsClaim(r, j, o', g') && o' != o
    requires j < i && (PassesGuard(r, i, o, g) || RunsBody(r, i, o, g) || CommitsRenewal(r, i, o, g))
    ensures exists k :: j < k < i && CommitsClaim(r, k, o, g)
  {
    assert CommitStep(r.states[j], r.actions[j]) && EndsClaim(r.states[j], r.actions[j]);
    if RunsBody(r, i, o, g) {
      var k := BodyIsFenced(r, i, o, g);
      assert k < j ==> LeavesLease(r, j);
    } else {
      if PassesGuard(r, i, o, g) {
        Fencing(r, i, o, g);
      } else {
        RenewalIsFenced(r, i, o, g);
      }
      var k :| ClaimedAt(r, k, i, o, g);
      assert !(k < j);
    }
  }

  // ---------------------------------------------------------------------------------------
  // The lock is a critical section, and a crash never tears the lease
  // ---------------------------------------------------------------------------------------

  /** While one instance is past the lock, no step of any other changes the lease, the temporary
      file, the lock or that instance's own progress. */
  lemma CriticalSection(r: Run, i: nat, o: string)
    requires IsRun(r) && i < |r.actions|
    requires o in r.states[i].live && !r.states[i].live[o].phase.Idle?
    requires Actor(r.actions[i]) != Some(o) && !r.actions[i].Damage?
    ensures r.states[i + 1].file == r.states[i].file
    ensures r.states[i + 1].tmp == r.states[i].tmp
    ensures r.states[i + 1].lock == Some(o)
    ensures o in r.states[i + 1].live && r.states[i + 1].live[o] == r.states[i].live[o]
  {
    RunKeepsInv(r, i);
    assert IsStep(r.states[i], r.actions[i], r.states[i + 1]);
  }

  lemma BodiesNeverOverlap(r: Run, i: nat, o: string, q: string)
    requires IsRun(r) && i < |r.states|
    requires o in r.states[i].live && r.states[i].live[o].phase.InBody?
    requires q in r.states[i].live && !r.states[i].live[q].phase.Idle?
    ensures o == q
  {
    RunKeepsInv(r, i);
  }

  /** Every step, a crash included, leaves the old lease, no lease, or the complete record of
      the instance that moved: never a partial one. */
  lemma LeaseChangesAtomically(r: Run, i: nat)
    requires IsRun(r) && i < |r.actions|
    ensures r.actions[i].Crash? ==> r.states[i + 1].file == r.states[i].file
    ensures !r.actions[i].Damage? && r.states[i + 1].file != r.states[i].file ==>
              || (r.actions[i].Unlink? && r.states[i + 1].file == None)
              || (&& r.actions[i].Replace?
                  && r.actions[i].o in r.states[i].live
                  && var me := r.states[i].live[r.actions[i].o];
                     && me.phase.Flushed?
                     && ReadPayload(r.states[i + 1].file)
                     == Some(Payload(r.actions[i].o, me.phase.generation, me.phase.expiresAt,
                                     if me.host == "" then None else Some(me.host), Some(me.pid))))
  {
    RunKeepsInv(r, i);
    var s, a := r.states[i], r.actions[i];
    assert IsStep(s, a, r.states[i + 1]);
    if a.Replace? {
      var me := s.live[a.o];
      ReadBack(a.o, me.phase.generation, me.phase.expiresAt, me.host, me.pid);
    }
  }

  predicate ClaimPending(s: State, o: string) {
    o in s.live && Writes(s.live[o].phase) && s.live[o].phase.claim
  }

  /** In `s` the instance `o` reads the lease and grants itself what it is writing as `me`. */
  predicate Decides(s: State, a: Action, o: string, me: Instance)
    requires Writes(me.phase)
  {
    && a.Inspect? && a.o == o && o in s.live && s.live[o].phase.Timed?
    && s.live[o].host == me.host && s.live[o].pid == me.pid && s.live[o].ttl == me.ttl
    && me.phase.expiresAt == s.live[o].phase.now + me.ttl
    && var decided := DecideClaim(ReadPayload(s.file), o, s.live[o].phase.now, me.host, me.pid, a.probe);
       decided.Granted? && decided.generation == me.phase.generation
  }

  /** Step `i` is where `o` decided the claim it is writing in state `j`, on a lease that nothing but
      outside interference has changed since. */
  ghost predicate DecidedAt(r: Run, i: int, j: nat, o: string)
    requires IsRun(r) && j < |r.states| && ClaimPending(r.states[j], o)
  {
    && 0 <= i < j
    && Decides(r.states[i], r.actions[i], o, r.states[j].live[o])
    && ((forall k :: i <= k < j ==> !r.actions[k].Damage?) ==> r.states[j].file == r.states[i].file)
  }

  lemma PendingStep(s: State, a: Action, o: string)
    requires Inv(s) && Enabled(s, a) && ClaimPending(Apply(s, a), o)
    ensures a.Inspect? && a.o == o ==> Decides(s, a, o, Apply(s, a).live[o])
    ensures !(a.Inspect? && a.o == o) ==>
              && ClaimPending(s, o)
              && s.live[o].host == Apply(s, a).live[o].host && s.live[o].pid == Apply(s, a).live[o].pid
              && s.live[o].ttl == Apply(s, a).live[o].ttl
              && s.live[o].phase.generation == Apply(s, a).live[o].phase.generation
              && s.live[o].phase.expiresAt == Apply(s, a).live[o].phase.expiresAt
    ensures !a.Damage? ==> Apply(s, a).file == s.file
  {
    assert o in s.live && InstanceOk(s, o);
  }

  lemma {:induction false} PendingClaimWasDecided(r: Run, j: nat, o: string) returns (i: nat)
    requires IsRun(r) && j < |r.states| && ClaimPending(r.states[j], o)
    ensures DecidedAt(r, i, j, o)
  {
    var s, a := r.states[j - 1], r.actions[j - 1];
    assert IsStep(s, a, r.states[j]);
    RunKeepsInv(r, j - 1);
    PendingStep(s, a, o);
    if a.Inspect? && a.o == o {
      i := j - 1;
    } else {
      i := PendingClaimWasDecided(r, j - 1, o);
    }
  }

  /** A claim takes effect at once although it reads and writes the file in separate steps: the
      record committed is the one decided on a lease that, outside interference aside, is still the
      lease on disk at the moment of the commit. */
  lemma ClaimTakesEffectAtOnce(r: Run, j: nat, o: string, g: int)
    requires IsRun(r) && CommitsClaim(r, j, o, g)
    ensures exists i :: DecidedAt(r, i, j, o)
    ensures Owns(ReadPayload(r.states[j + 1].file), o, g)
    ensures ReadPayload(r.states[j + 1].file).value.expiresAt == r.states[j].live[o].phase.expiresAt
  {
    RunKeepsInv(r, j);
    assert InstanceOk(r.states[j], o);
    var i := PendingClaimWasDecided(r, j, o);
    var me := r.states[j].live[o];
    ReadBack(o, me.phase.generation, me.phase.expiresAt, me.host, me.pid);
  }

  // ---------------------------------------------------------------------------------------
  // Generations within an epoch
  // ---------------------------------------------------------------------------------------

  /** From state `a` to state `b` the file neither disappears nor is destroyed. */
  ghost predicate Epoch(r: Run, a: nat, b: nat)
    requires IsRun(r)
  {
    && a <= b < |r.states|
    && ReadPayload(r.states[a].file).Some?
    && forall k :: a <= k < b ==> !r.actions[k].Unlink? && !r.actions[k].Damage?
  }

  predicate ChangesOwner(s: State, a: Action)
    requires Enabled(s, a)
  {
    CommitStep(s, a) && ReadPayload(s.file).Some? && ReadPayload(s.file).value.owner != a.o
  }

  /** How many ownership changes are committed by the steps from `a` up to `b`. */
  ghost function OwnershipChanges(r: Run, a: nat, b: nat): nat
    requires IsRun(r) && a <= b < |r.states|
  {
    if a == b then 0
    else
      assert IsStep(r.states[b - 1], r.actions[b - 1], r.states[b]);
      OwnershipChanges(r, a, b - 1) + if ChangesOwner(r.states[b - 1], r.actions[b - 1]) then 1 else 0
  }

  lemma StepGeneration(s: State, a: Action)
    requires Inv(s) && Enabled(s, a) && ReadPayload(s.file).Some? && !a.Unlink? && !a.Damage?
    ensures var p, p' := ReadPayload(s.file), ReadPayload(Apply(s, a).file);
            && p'.Some?
            && p'.value.generation == p.value.generation + (if ChangesOwner(s, a) then 1 else 0)
            && (ChangesOwner(s, a) <==> p'.value.owner != p.value.owner)
  {
    if a.Replace? {
      var me := s.live[a.o];
      ReadBack(a.o, me.phase.generation, me.phase.expiresAt, me.host, me.pid);
    }
  }

  /** Within an epoch the generation is the starting one plus the number of ownership changes,
      and with no change of owner the owner is still the same. */
  lemma {:induction false} GenerationCountsOwnershipChanges(r: Run, a: nat, b: nat)
    requires IsRun(r) && Epoch(r, a, b)
    ensures ReadPayload(r.states[b].file).Some?
    ensures ReadPayload(r.states[b].file).value.generation
         == ReadPayload(r.states[a].file).value.generation + OwnershipChanges(r, a, b)
    ensures OwnershipChanges(r, a, b) == 0 ==>
              ReadPayload(r.states[b].file).value.owner == ReadPayload(r.states[a].file).value.owner
  {
    if a < b {
      GenerationCountsOwnershipChanges(r, a, b - 1);
      RunKeepsInv(r, b - 1);
      assert IsStep(r.states[b - 1], r.actions[b - 1], r.states[b]);
      StepGeneration(r.states[b - 1], r.actions[b - 1]);
    }
  }

  lemma EpochSuffix(r: Run, a: nat, m: nat, b: nat)
    requires IsRun(r) && Epoch(r, a, b) && a <= m <= b
    ensures Epoch(r, a, m) && Epoch(r, m, b)
  {
    GenerationCountsOwnershipChanges(r, a, m);
  }

  /** Each generation has exactly one owner in an epoch. */
  lemma OneOwnerPerGeneration(r: Run, a: nat, m: nat, b: nat)
    requires IsRun(r) && Epoch(r, a, b) && a <= m <= b
    requires ReadPayload(r.states[m].file).Some? && ReadPayload(r.states[b].file).Some?
    requires ReadPayload(r.states[m].file).value.generation == ReadPayload(r.states[b].file).value.generation
    ensures ReadPayload(r.states[m].file).value.owner == ReadPayload(r.states[b].file).value.owner
  {
    EpochSuffix(r, a, m, b);
    GenerationCountsOwnershipChanges(r, m, b);
  }

  /** A superseded owner and generation never pass the check again in the same epoch. */
  lemma SupersededNeverPasses(r: Run, a: nat, m: nat, b: nat, o: string, g: int)
    requires IsRun(r) && Epoch(r, a, b) && a <= m <= b
    requires Owns(ReadPayload(r.states[a].file), o, g)
    requires ReadPayload(r.states[m].file).Some? && ReadPayload(r.states[m].file).value.owner != o
    ensures !PassesGuard(r, b, o, g)
  {
    EpochSuffix(r, a, m, b);
    GenerationCountsOwnershipChanges(r, a, m);
    GenerationCountsOwnershipChanges(r, m, b);
    GuardReadsOwner(r, b, o, g);
  }

  ghost predicate Undamaged(r: Run, i: nat) {
    forall k :: 0 <= k < i && k < |r.actions| ==> !r.actions[k].Damage?
  }

  lemma {:induction false} FreshClaimIsOne(r: Run, i: nat)
    requires IsRun(r) && i < |r.states| && Undamaged(r, i)
    ensures ReadPayload(r.states[i].file).None? ==>
              forall o :: ClaimPending(r.states[i], o) ==> r.states[i].live[o].phase.generation == 1
  {
    if i > 0 {
      FreshClaimIsOne(r, i - 1);
      RunKeepsInv(r, i - 1);
      assert IsStep(r.states[i - 1], r.actions[i - 1], r.states[i]);
      var s, a := r.states[i - 1], r.actions[i - 1];
      if a.Replace? {
        var me := s.live[a.o];
        ReadBack(a.o, me.phase.generation, me.phase.expiresAt, me.host, me.pid);
      }
    }
  }

  lemma CommitShows(r: Run, c: nat, o: string, g: int)
    requires IsRun(r) && CommitsClaim(r, c, o, g)
    ensures Owns(ReadPayload(r.states[c + 1].file), o, g)
  {
    RunKeepsInv(r, c);
    var me := r.states[c].live[o];
    ReadBack(o, me.phase.generation, me.phase.expiresAt, me.host, me.pid);
  }

  lemma FreshCommitIsOne(r: Run, c: nat, b: nat, o: string, g: int)
    requires IsRun(r) && c < b && Undamaged(r, b) && CommitsClaim(r, c, o, g) && ReadPayload(r.states[c].file).None?
    ensures g == 1
  {
    assert Undamaged(r, c);
    FreshClaimIsOne(r, c);
    assert ClaimPending(r.states[c], o);
  }

  ghost predicate Unreleased(r: Run, a: nat, b: nat) {
    forall k :: a <= k < b && k < |r.actions| ==> !r.actions[k].Unlink?
  }

  lemma EpochFrom(r: Run, a: nat, b: nat)
    requires IsRun(r) && a <= b < |r.states| && ReadPayload(r.states[a].file).Some? && Undamaged(r, b)
    requires Unreleased(r, a, b)
    ensures Epoch(r, a, b)
  {
  }

  /** With no outside interference, an epoch opens at generation 1, so that every committed
      generation is 1 plus the number of ownership changes since the lease last appeared. */
  lemma GenerationIsOnePlusChanges(r: Run, c: nat, b: nat, o: string, g: int)
    requires IsRun(r) && Undamaged(r, b)
    requires CommitsClaim(r, c, o, g) && ReadPayload(r.states[c].file).None?
    requires c < b < |r.states| && Unreleased(r, c + 1, b)
    ensures g == 1
    ensures ReadPayload(r.states[b].file).Some?
    ensures ReadPayload(r.states[b].file).value.generation == 1 + OwnershipChanges(r, c + 1, b)
  {
    CommitShows(r, c, o, g);
    FreshCommitIsOne(r, c, b, o, g);
    EpochFrom(r, c + 1, b);
    GenerationCountsOwnershipChanges(r, c + 1, b);
  }

  // ---------------------------------------------------------------------------------------
  // A live owner keeps its lease
  // ---------------------------------------------------------------------------------------

  /** Clock readings are the shared clock, and a process is reported gone only if it is gone. */
  predicate Honest(s: State, a: Action)
    requires Enabled(s, a)
  {
    && (a.ReadClock? ==> a.reading == s.clock)
    && (a.Inspect? && a.probe.NoSuchProcess? && ReadPayload(s.file).Some? ==>
          forall q :: q in s.live && s.live[q].host == s.live[a.o].host ==>
                        ReadPayload(s.file).value.pid != Some(s.live[q].pid))
  }

  /** The record names this process, or (as older servers wrote it) no process at all. */
  predicate NamesProcess(p: Payload, me: Instance) {
    p.host.None? || p.pid.None? || (p.host == Some(me.host) && p.pid == Some(me.pid))
  }

  /** `o` owns the lease on disk and nobody else is about to write or remove it. */
  predicate Secure(s: State, o: string, g: int) {
    && o in s.live
    && Owns(ReadPayload(s.file), o, g)
    && NamesProcess(ReadPayload(s.file).value, s.live[o])
    && (forall q :: q in s.live && q != o ==>
          && !Writes(s.live[q].phase) && !s.live[q].phase.Confirmed? && !s.live[q].phase.Unlinking?
          && (s.live[q].phase.Timed? ==> s.live[q].phase.now <= s.clock))
  }

  /** A step that the owner survives: no crash or release of its own, no outside interference,
      and its lease is not yet expired. */
  predicate OwnerKeepsUp(s: State, a: Action, o: string) {
    && Enabled(s, a)
    && a != Crash(o) && a != Unlink(o) && !a.Damage?
    && Honest(s, a)
    && (ReadPayload(s.file).Some? ==> s.clock < ReadPayload(s.file).value.expiresAt)
  }

  lemma StepKeepsSecure(s: State, a: Action, o: string, g: int)
    requires Inv(s) && Enabled(s, a) && Secure(s, o, g) && OwnerKeepsUp(s, a, o)
    ensures Secure(Apply(s, a), o, g)
  {
    if a.Replace? {
      var me := s.live[a.o];
      ReadBack(a.o, me.phase.generation, me.phase.expiresAt, me.host, me.pid);
    }
  }

  ghost predicate KeepsUp(r: Run, j: nat, n: nat, o: string)
    requires IsRun(r) && n < |r.states|
  {
    forall k :: j <= k < n ==> OwnerKeepsUp(r.states[k], r.actions[k], o)
  }

  lemma KeepsUpPrefix(r: Run, j: nat, n: nat, o: string)
    requires IsRun(r) && j < n < |r.states| && KeepsUp(r, j, n, o)
    ensures KeepsUp(r, j, n - 1, o) && OwnerKeepsUp(r.states[n - 1], r.actions[n - 1], o)
  {
  }

  lemma RunStepKeepsSecure(r: Run, k: nat, o: string, g: int)
    requires IsRun(r) && k < |r.actions| && Secure(r.states[k], o, g) && OwnerKeepsUp(r.states[k], r.actions[k], o)
    ensures Secure(r.states[k + 1], o, g)
  {
    RunKeepsInv(r, k);
    assert IsStep(r.states[k], r.actions[k], r.states[k + 1]);
    StepKeepsSecure(r.states[k], r.actions[k], o, g);
  }

  /** An owner that stays alive and renews before each expiry is never displaced, whatever the
      other instances do, on this host or on others. */
  lemma {:induction false} LiveOwnerKeepsLease(r: Run, j: nat, n: nat, o: string, g: int)
    requires IsRun(r) && j <= n < |r.states|
    requires Secure(r.states[j], o, g)
    requires KeepsUp(r, j, n, o)
    ensures Secure(r.states[n], o, g)
  {
    if j < n {
      KeepsUpPrefix(r, j, n, o);
      LiveOwnerKeepsLease(r, j, n - 1, o, g);
      RunStepKeepsSecure(r, n - 1, o, g);
    }
  }

  /** The claim that starts such a tenure leaves its owner secure. */
  lemma ClaimMakesSecure(r: Run, k: nat, o: string, g: int)
    requires IsRun(r) && CommitsClaim(r, k, o, g)
    ensures Secure(r.states[k + 1], o, g)
  {
    RunKeepsInv(r, k);
    var me := r.states[k].live[o];
    ReadBack(o, me.phase.generation, me.phase.expiresAt, me.host, me.pid);
  }
}
