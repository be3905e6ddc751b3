/** What an instance decides on what it reads, and that an operation which nobody holds up goes through. */
module LeaseProgress {
  import opened Wrappers
  import opened LeaseRecord
  import opened LeaseProtocol

  /** A claim that read the clock as `now` is refused exactly while another owner's lease is unexpired and
      that owner is not known to be dead. So a lease at or past its expiry is always granted, with the
      same generation to its owner and the next one to anybody else. */
  lemma ClaimDecision(r: Run, i: nat, o: string, now: real, probe: Probe)
    requires IsRun(r) && i < |r.actions| && r.actions[i] == Inspect(o, probe)
    requires o in r.states[i].live && r.states[i].live[o].phase == Timed(now)
    ensures o in r.states[i + 1].live && r.states[i + 1].file == r.states[i].file
    ensures var me, seen := r.states[i].live[o], ReadPayload(r.states[i].file);
            r.states[i + 1].live[o].phase ==
            if && seen.Some? && seen.value.owner != o && seen.value.expiresAt > now
               && !(&& seen.value.host == Some(me.host) && seen.value.pid.Some? && seen.value.pid.value != me.pid
                    && (seen.value.pid.value <= 0 || probe == NoSuchProcess))
            then Leaving
            else Deciding(true,
                          if seen.None? then 1
                          else if seen.value.owner == o then seen.value.generation
                          else seen.value.generation + 1,
                          now + me.ttl)
  {
    assert IsStep(r.states[i], r.actions[i], r.states[i + 1]);
  }

  lemma ExpiredIsGranted(r: Run, i: nat, o: string, now: real, probe: Probe)
    requires IsRun(r) && i < |r.actions| && r.actions[i] == Inspect(o, probe)
    requires o in r.states[i].live && r.states[i].live[o].phase == Timed(now)
    requires ReadPayload(r.states[i].file).Some? && ReadPayload(r.states[i].file).value.expiresAt <= now
    ensures o in r.states[i + 1].live && r.states[i + 1].live[o].phase.Deciding?
    ensures r.states[i + 1].live[o].phase.claim
    ensures r.states[i + 1].live[o].phase.expiresAt == now + r.states[i].live[o].ttl
  {
    ClaimDecision(r, i, o, now, probe);
  }

  /** A renewal, a guarded write and a release go on exactly if the disk shows their owner and generation. */
  lemma GuardDecision(r: Run, i: nat, o: string, g: int, probe: Probe)
    requires IsRun(r) && i < |r.actions| && r.actions[i] == Inspect(o, probe) && o in r.states[i].live
    ensures var seen := ReadPayload(r.states[i].file);
            var owned := seen.Some? && seen.value.owner == o && seen.value.generation == g;
            && o in r.states[i + 1].live && r.states[i + 1].file == r.states[i].file
            && (r.states[i].live[o].phase == Entered(Renew(g)) ==>
                  r.states[i + 1].live[o].phase == if owned then Confirmed(g) else Leaving)
            && (r.states[i].live[o].phase == Entered(Guard(g)) ==>
                  r.states[i + 1].live[o].phase == if owned then InBody(g) else Leaving)
            && (r.states[i].live[o].phase == Entered(Release(g)) ==>
                  r.states[i + 1].live[o].phase == if owned then Unlinking(g) else Leaving)
  {
    assert IsStep(r.states[i], r.actions[i], r.states[i + 1]);
  }

  // ---------------------------------------------------------------------------------------
  // Operations that nobody holds up
  // ---------------------------------------------------------------------------------------

  /** From a decision the record is written and the lock freed, in four steps. */
  lemma WriteGoesThrough(s: State, o: string) returns (s1: State, s2: State, s3: State, t: State)
    requires o in s.live && s.live[o].phase.Deciding?
    ensures IsStep(s, Open(o), s1) && IsStep(s1, Flush(o), s2) && IsStep(s2, Replace(o), s3) && IsStep(s3, Unlock(o), t)
    ensures t.lock == None
    ensures var me := s.live[o];
            ReadPayload(t.file) == Some(Payload(o, me.phase.generation, me.phase.expiresAt,
                                                if me.host == "" then None else Some(me.host), Some(me.pid)))
  {
    var me := s.live[o];
    s1 := Apply(s, Open(o));
    s2 := Apply(s1, Flush(o));
    s3 := Apply(s2, Replace(o));
    t := Apply(s3, Unlock(o));
    ReadBack(o, me.phase.generation, me.phase.expiresAt, me.host, me.pid);
  }

  /** A claim on no lease, on an expired one or on its own goes through: lock, clock and file are read and
      the decision is made, from which `WriteGoesThrough` leads to its record on disk. */
  lemma ClaimGoesThrough(s: State, o: string, now: real, probe: Probe)
    returns (s1: State, s2: State, s3: State, s4: State, s5: State, s6: State, t: State)
    requires Inv(s) && s.lock == None && o in s.live && s.live[o].phase.Idle?
    requires var seen := ReadPayload(s.file); seen.Some? ==> seen.value.owner == o || seen.value.expiresAt <= now
    ensures IsStep(s, Acquire(o, Claim), s1) && IsStep(s1, ReadClock(o, now), s2) && IsStep(s2, Inspect(o, probe), s3)
    ensures IsStep(s3, Open(o), s4) && IsStep(s4, Flush(o), s5) && IsStep(s5, Replace(o), s6)
    ensures IsStep(s6, Unlock(o), t) && t.lock == None
    ensures var me, seen := s.live[o], ReadPayload(s.file);
            ReadPayload(t.file) ==
            Some(Payload(o,
                         if seen.None? then 1
                         else if seen.value.owner == o then seen.value.generation
                         else seen.value.generation + 1,
                         now + me.ttl, if me.host == "" then None else Some(me.host), Some(me.pid)))
  {
    s1 := Apply(s, Acquire(o, Claim));
    s2 := Apply(s1, ReadClock(o, now));
    s3 := Apply(s2, Inspect(o, probe));
    s4, s5, s6, t := WriteGoesThrough(s3, o);
  }

  /** A renewal of the lease on disk goes through: it keeps the generation and moves the expiry. */
  lemma RenewalGoesThrough(s: State, o: string, g: int, now: real, probe: Probe)
    returns (s1: State, s2: State, s3: State, s4: State, s5: State, s6: State, t: State)
    requires Inv(s) && s.lock == None && o in s.live && s.live[o].phase.Idle?
    requires var seen := ReadPayload(s.file); seen.Some? && seen.value.owner == o && seen.value.generation == g
    ensures IsStep(s, Acquire(o, Renew(g)), s1) && IsStep(s1, Inspect(o, probe), s2)
    ensures IsStep(s2, ReadClock(o, now), s3)
    ensures IsStep(s3, Open(o), s4) && IsStep(s4, Flush(o), s5) && IsStep(s5, Replace(o), s6)
    ensures IsStep(s6, Unlock(o), t) && t.lock == None
    ensures var me := s.live[o];
            ReadPayload(t.file) ==
            Some(Payload(o, g, now + me.ttl, if me.host == "" then None else Some(me.host), Some(me.pid)))
  {
    s1 := Apply(s, Acquire(o, Renew(g)));
    s2 := Apply(s1, Inspect(o, probe));
    s3 := Apply(s2, ReadClock(o, now));
    s4, s5, s6, t := WriteGoesThrough(s3, o);
  }

  /** A release of the lease on disk goes through: afterwards there is none. */
  lemma ReleaseGoesThrough(s: State, o: string, g: int, probe: Probe)
    returns (s1: State, s2: State, s3: State, t: State)
    requires Inv(s) && s.lock == None && o in s.live && s.live[o].phase.Idle?
    requires var seen := ReadPayload(s.file); seen.Some? && seen.value.owner == o && seen.value.generation == g
    ensures IsStep(s, Acquire(o, Release(g)), s1) && IsStep(s1, Inspect(o, probe), s2)
    ensures IsStep(s2, Unlink(o), s3) && IsStep(s3, Unlock(o), t)
    ensures t.lock == None && t.file == None
  {
    s1 := Apply(s, Acquire(o, Release(g)));
    s2 := Apply(s1, Inspect(o, probe));
    s3 := Apply(s2, Unlink(o));
    t := Apply(s3, Unlock(o));
  }

  /** A guarded write on the lease on disk goes through and leaves the lease and the lock as they were. */
  lemma GuardGoesThrough(s: State, o: string, g: int, probe: Probe)
    returns (s1: State, s2: State, s3: State, s4: State, t: State)
    requires Inv(s) && s.lock == None && o in s.live && s.live[o].phase.Idle?
    requires var seen := ReadPayload(s.file); seen.Some? && seen.value.owner == o && seen.value.generation == g
    ensures IsStep(s, Acquire(o, Guard(g)), s1) && IsStep(s1, Inspect(o, probe), s2)
    ensures IsStep(s2, Body(o), s3) && IsStep(s3, LeaveBody(o), s4) && IsStep(s4, Unlock(o), t)
    ensures t == s
  {
    s1 := Apply(s, Acquire(o, Guard(g)));
    s2 := Apply(s1, Inspect(o, probe));
    s3 := Apply(s2, Body(o));
    s4 := Apply(s3, LeaveBody(o));
    t := Apply(s4, Unlock(o));
    assert t.live == s.live;
  }

  /** A process that starts can claim: with no lease on disk, or one that has expired, its record goes there. */
  lemma NewcomerClaims(s: State, o: string, host: string, pid: int, ttl: real, now: real, probe: Probe)
    returns (s0: State, s1: State, s2: State, s3: State, s4: State, s5: State, s6: State, t: State)
    requires Inv(s) && s.lock == None && o !in s.live && pid > 0
    requires var seen := ReadPayload(s.file); seen.Some? ==> seen.value.expiresAt <= now
    ensures IsStep(s, Start(o, host, pid, ttl), s0)
    ensures IsStep(s0, Acquire(o, Claim), s1) && IsStep(s1, ReadClock(o, now), s2) && IsStep(s2, Inspect(o, probe), s3)
    ensures IsStep(s3, Open(o), s4) && IsStep(s4, Flush(o), s5) && IsStep(s5, Replace(o), s6)
    ensures IsStep(s6, Unlock(o), t) && t.lock == None
    ensures ReadPayload(t.file).Some?
    ensures var p := ReadPayload(t.file).value;
            && p.owner == o && p.expiresAt == now + ttl && p.pid == Some(pid)
            && p.host == if host == "" then None else Some(host)
  {
    s0 := Apply(s, Start(o, host, pid, ttl));
    StepKeepsInv(s, Start(o, host, pid, ttl));
    s1, s2, s3, s4, s5, s6, t := ClaimGoesThrough(s0, o, now, probe);
  }

  /** A process can crash wherever it stands; that frees its lock and leaves the lease as it is. The file can
      be destroyed at any time, and the clock moves on. */
  lemma AnythingCanGoWrong(s: State, o: string, left: Option<Document>, time: real)
    ensures o in s.live ==>
              && Enabled(s, Crash(o))
              && Apply(s, Crash(o)).file == s.file && o !in Apply(s, Crash(o)).live
              && Apply(s, Crash(o)).lock == if s.lock == Some(o) then None else s.lock
    ensures ReadPayload(left) == None ==> Enabled(s, Damage(left)) && Apply(s, Damage(left)) == s.(file := left)
    ensures s.clock <= time ==> Enabled(s, Tick(time)) && Apply(s, Tick(time)) == s.(clock := time)
  {
  }
}
