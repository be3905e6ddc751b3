/** The conversation lease file: its record, how it is read and written, and the
    decisions that claim, renew, guarded_write and release take on what they read.

    Expiry times are reals. A lease document is the parsed JSON text; `Torn` stands for
    text that does not parse. */
module LeaseRecord {
  import opened Wrappers

  datatype Json = JNull | JBool(b: bool) | JInt(i: int) | JFloat(r: real) | JString(s: string) | JOther

  datatype Document = Torn | NotAnObject | Object(fields: map<string, Json>)

  datatype Payload = Payload(
    owner: string,
    generation: int,
    expiresAt: real,
    host: Option<string>,
    pid: Option<int>)

  function Field(d: map<string, Json>, key: string): Json {
    if key in d then d[key] else JNull
  }

  /** `isinstance(x, int)`: JSON booleans are integers in Python. */
  function AsInt(j: Json): Option<int> {
    match j
    case JInt(i) => Some(i)
    case JBool(b) => Some(if b then 1 else 0)
    case _ => None
  }

  /** `isinstance(x, int | float)`, then `float(x)`. */
  function AsNumber(j: Json): Option<real> {
    match j
    case JInt(i) => Some(i as real)
    case JBool(b) => Some(if b then 1.0 else 0.0)
    case JFloat(r) => Some(r)
    case _ => None
  }

  /** A missing, torn or ill-typed file reads as no lease at all. Host and pid are optional. */
  function ReadPayload(file: Option<Document>): Option<Payload> {
    match file
    case Some(Object(d)) =>
      var owner := Field(d, "owner_instance_id");
      var generation := AsInt(Field(d, "generation"));
      var expiresAt := AsNumber(Field(d, "expires_at"));
      var host := Field(d, "owner_host");
      if owner.JString? && generation.Some? && expiresAt.Some? then
        Some(Payload(
               owner.s, generation.value, expiresAt.value,
               if host.JString? && host.s != "" then Some(host.s) else None,
               AsInt(Field(d, "owner_pid"))))
      else
        None
    case _ => None
  }

  /** What is read, on the raw fields. Owner, generation and expiry must be there and well typed (a JSON
      boolean counts as an integer, an integer as a number). A host must be a non-empty string, a pid an
      integer; otherwise the record has none. */
  lemma ReadMeans(file: Option<Document>, p: Payload)
    ensures ReadPayload(file) == Some(p) <==>
            && file.Some? && file.value.Object?
            && var d := file.value.fields;
            && "owner_instance_id" in d && d["owner_instance_id"] == JString(p.owner)
            && "generation" in d
            && (|| d["generation"] == JInt(p.generation)
                || (d["generation"] == JBool(true) && p.generation == 1)
                || (d["generation"] == JBool(false) && p.generation == 0))
            && "expires_at" in d
            && (|| d["expires_at"] == JFloat(p.expiresAt)
                || (d["expires_at"].JInt? && d["expires_at"].i as real == p.expiresAt)
                || (d["expires_at"] == JBool(true) && p.expiresAt == 1.0)
                || (d["expires_at"] == JBool(false) && p.expiresAt == 0.0))
            && (if "owner_host" in d && d["owner_host"].JString? && d["owner_host"].s != ""
                then p.host == Some(d["owner_host"].s) else p.host == None)
            && (if "owner_pid" in d && d["owner_pid"].JInt? then p.pid == Some(d["owner_pid"].i)
                else if "owner_pid" in d && d["owner_pid"].JBool? then p.pid == Some(if d["owner_pid"].b then 1 else 0)
                else p.pid == None)
  {
  }

  function WritePayload(owner: string, generation: int, expiresAt: real, host: string, pid: int): Document {
    Object(map[
             "owner_instance_id" := JString(owner),
             "generation" := JInt(generation),
             "expires_at" := JFloat(expiresAt),
             "owner_host" := JString(host),
             "owner_pid" := JInt(pid)])
  }

  /** What one instance writes, every instance reads back; only an empty host name is dropped. */
  lemma ReadBack(owner: string, generation: int, expiresAt: real, host: string, pid: int)
    ensures ReadPayload(Some(WritePayload(owner, generation, expiresAt, host, pid)))
         == Some(Payload(owner, generation, expiresAt, if host == "" then None else Some(host), Some(pid)))
  {
    var d := WritePayload(owner, generation, expiresAt, host, pid).fields;
    assert Field(d, "owner_instance_id") == JString(owner);
    assert Field(d, "generation") == JInt(generation);
    assert Field(d, "expires_at") == JFloat(expiresAt);
    assert Field(d, "owner_host") == JString(host);
    assert Field(d, "owner_pid") == JInt(pid);
  }

  /** The outcome of `os.kill(pid, 0)`. */
  datatype Probe = Delivered | NoSuchProcess | NotPermitted | OtherError

  predicate IsPidAlive(pid: int, probe: Probe) {
    pid > 0 && probe != NoSuchProcess
  }

  predicate OwnerIsDead(p: Payload, myHost: string, myPid: int, probe: Probe) {
    p.host.Some? && p.pid.Some? && p.host.value == myHost && p.pid.value != myPid
    && !IsPidAlive(p.pid.value, probe)
  }

  datatype ClaimOutcome = Held(owner: string, expiresAt: real) | Granted(generation: int, takeover: bool)

  function DecideClaim(seen: Option<Payload>, me: string, now: real, myHost: string, myPid: int, probe: Probe)
    : ClaimOutcome
  {
    match seen
    case None => Granted(1, false)
    case Some(p) =>
      if p.owner != me && p.expiresAt > now && !OwnerIsDead(p, myHost, myPid, probe) then
        Held(p.owner, p.expiresAt)
      else if p.owner == me then
        Granted(p.generation, false)
      else
        Granted(p.generation + 1, true)
  }

  /** The ownership test of `_assert_owner_locked` and of `release`; expiry plays no part. */
  predicate Owns(seen: Option<Payload>, me: string, generation: int) {
    seen.Some? && seen.value.owner == me && seen.value.generation == generation
  }

  /** The directory that all instances share. */
  class LeaseDirectory {
    var file: Option<Document>
    var tmp: Option<Document>

    constructor ()
      ensures file == None && tmp == None
    {
      file, tmp := None, None;
    }
  }

  class ConversationLease {
    const dir: LeaseDirectory
    const owner: string
    const ttl: real
    const host: string
    const pid: int

    constructor (dir: LeaseDirectory, owner: string, ttl: real, host: string, pid: int)
      ensures this.dir == dir && this.owner == owner && this.ttl == ttl && this.host == host && this.pid == pid
    {
      this.dir, this.owner, this.ttl, this.host, this.pid := dir, owner, ttl, host, pid;
    }

    function Record(generation: int, expiresAt: real): (p: Payload) {
      Payload(owner, generation, expiresAt, if host == "" then None else Some(host), Some(pid))
    }

    /** Write the temporary file, then move it over the lease. */
    method WriteLease(generation: int, expiresAt: real)
      modifies dir
      ensures ReadPayload(dir.file) == Some(Record(generation, expiresAt))
    {
      dir.tmp := Some(WritePayload(owner, generation, expiresAt, host, pid));
      dir.file := dir.tmp;
      dir.tmp := None;
      ReadBack(owner, generation, expiresAt, host, pid);
    }

    /** Refused exactly while another owner's lease is unexpired and that owner is not known to be dead:
        recorded on this host under another pid that is no process. Otherwise granted, with generation 1
        when there was no lease, the same generation to the same owner, and the next one on a takeover. */
    method Claim(now: real, probe: Probe) returns (r: ClaimOutcome)
      modifies dir
      ensures var seen := ReadPayload(old(dir.file));
              r.Held? <==>
              && seen.Some? && seen.value.owner != owner && seen.value.expiresAt > now
              && !(&& seen.value.host == Some(host) && seen.value.pid.Some? && seen.value.pid.value != pid
                   && (seen.value.pid.value <= 0 || probe == NoSuchProcess))
      ensures var seen := ReadPayload(old(dir.file));
              && (r.Held? ==> seen.Some? && r == Held(seen.value.owner, seen.value.expiresAt))
              && (r.Granted? ==>
                    r == if seen.None? then Granted(1, false)
                         else if seen.value.owner == owner then Granted(seen.value.generation, false)
                         else Granted(seen.value.generation + 1, true))
      ensures r.Held? ==> dir.file == old(dir.file)
      ensures r.Granted? ==>
                ReadPayload(dir.file) ==
                Some(Payload(owner, r.generation, now + ttl, if host == "" then None else Some(host), Some(pid)))
      ensures r == DecideClaim(ReadPayload(old(dir.file)), owner, now, host, pid, probe)
    {
      var seen := ReadPayload(dir.file);
      if seen.Some? {
        var p := seen.value;
        var sameOwner := p.owner == owner;
        if !sameOwner && p.expiresAt > now && !OwnerIsDead(p, host, pid, probe) {
          return Held(p.owner, p.expiresAt);
        }
        var generation := if sameOwner then p.generation else p.generation + 1;
        WriteLease(generation, now + ttl);
        r := Granted(generation, !sameOwner);
      } else {
        WriteLease(1, now + ttl);
        r := Granted(1, false);
      }
    }

    method Renew(generation: int, now: real) returns (lost: bool)
      modifies dir
      ensures var seen := ReadPayload(old(dir.file));
              lost <==> seen.None? || seen.value.owner != owner || seen.value.generation != generation
      ensures lost ==> dir.file == old(dir.file)
      ensures !lost ==>
                ReadPayload(dir.file) ==
                Some(Payload(owner, generation, now + ttl, if host == "" then None else Some(host), Some(pid)))
    {
      lost := !Owns(ReadPayload(dir.file), owner, generation);
      if !lost {
        WriteLease(generation, now + ttl);
      }
    }

    /** The check that `guarded_write` makes before its body runs; the lease is left as it is. */
    method EnterGuard(generation: int) returns (lost: bool)
      ensures lost <==> (ReadPayload(dir.file).None? || ReadPayload(dir.file).value.owner != owner
                         || ReadPayload(dir.file).value.generation != generation)
    {
      lost := !Owns(ReadPayload(dir.file), owner, generation);
    }

    method Release(generation: int)
      modifies dir
      ensures var seen := ReadPayload(old(dir.file));
              if seen.Some? && seen.value.owner == owner && seen.value.generation == generation
              then dir.file == None else dir.file == old(dir.file)
    {
      var seen := ReadPayload(dir.file);
      if seen.None? {
        return;
      }
      if seen.value.owner != owner || seen.value.generation != generation {
        return;
      }
      dir.file := None;
    }
  }
}
