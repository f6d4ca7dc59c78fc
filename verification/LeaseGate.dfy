/** The lease and fencing gate: its transition functions, and the state object that runs them. */
module LeaseGate {
  import opened Options

  // ---------- values ----------

  /** A request argument that should be an integer (booleans are not). */
  datatype IntArg = IntArg(value: int) | NotInt
  datatype TextArg = TextArg(text: string) | NotText

  datatype Identity = Identity(instance: string, epoch: int, token: string)

  /** The contents of a lease record. */
  datatype Grant = Grant(
    holder: string, token: string, epoch: int, deadline: int, ttl: int,
    expected: Option<int>, revoked: bool)

  /** The guarded state. */
  datatype Gate = Gate(
    instance: string, minTtl: int, maxTtl: int,
    epoch: int, lease: Option<Grant>, inFlight: Option<Identity>)

  datatype Code =
    | InvalidHolder | InvalidTtl | InvalidExpected
    | ComputeInFlight | LeaseHeld
    | WrongInstance | NoLease | StaleEpoch | WrongToken | LeaseRevoked | LeaseExpired
    | InvalidToken        // the token factory misbehaved
    | UncomparableToken   // the digest comparison takes ASCII text only
    | IdentityCorruption

  datatype Reply =
    | Leased(epoch: int, token: string, holder: string, ttl: int, expected: Option<int>, remainingMs: int)
    | Released(pending: bool)
    | Began
    | Finished(authorized: bool)
    | Status(atEpoch: int, active: bool, expired: bool, heldBy: Option<string>, leftMs: Option<int>, inFlight: bool)
    | Refused(code: Code)

  datatype Outcome = Outcome(gate: Gate, reply: Reply)

  const NANOS := 1_000_000

  function Fresh(instance: string, minTtl: int, maxTtl: int): Gate {
    Gate(instance, minTtl, maxTtl, 0, None, None)
  }

  predicate ValidConfig(instance: string, minTtl: int, maxTtl: int) {
    0 < minTtl <= maxTtl && |instance| >= 16
  }

  function IdentityOf(g: Gate, lease: Grant): Identity {
    Identity(g.instance, lease.epoch, lease.token)
  }

  // ---------- argument checks ----------

  function Utf8Length(s: string): nat {
    if s == [] then 0
    else
      var c := s[0] as int;
      (if c < 0x80 then 1 else if c < 0x800 then 2 else if c < 0x10000 then 3 else 4) + Utf8Length(s[1..])
  }

  predicate ValidHolder(holder: TextArg) {
    && holder.TextArg?
    && 0 < |holder.text| && Utf8Length(holder.text) <= 256
    && forall i :: 0 <= i < |holder.text| ==> 0x20 <= holder.text[i] as int != 0x7F
  }

  predicate ValidTtl(g: Gate, ttl: IntArg) {
    ttl.IntArg? && g.minTtl <= ttl.value <= g.maxTtl
  }

  predicate ValidExpected(expected: Option<IntArg>) {
    expected.Some? ==> expected.value.IntArg? && expected.value.value >= 0
  }

  function ExpectedValue(expected: Option<IntArg>): Option<int>
    requires ValidExpected(expected)
  {
    if expected.None? then None else Some(expected.value.value)
  }

  predicate Ascii(s: string) {
    forall i :: 0 <= i < |s| ==> s[i] as int < 0x80
  }

  // ---------- transitions ----------

  predicate Alive(lease: Grant, now: int) {
    !lease.revoked && now < lease.deadline
  }

  predicate Active(g: Gate, now: int) {
    g.lease.Some? && Alive(g.lease.value, now)
  }

  function Remaining(lease: Grant, now: int): int {
    var ms := (lease.deadline - now + 999_999) / NANOS;
    if ms > 0 then ms else 0
  }

  function LeaseReply(lease: Grant, now: int): Reply {
    Leased(lease.epoch, lease.token, lease.holder, lease.ttl, lease.expected, Remaining(lease, now))
  }

  /** Without work in flight a dead lease is dropped. */
  function Cleaned(g: Gate, now: int): Gate {
    if g.inFlight.None? && !Active(g, now) then g.(lease := None) else g
  }

  /** Why an identity is refused, if it is. */
  function IdentityFault(g: Gate, id: Identity): Option<Code> {
    if id.instance != g.instance then Some(WrongInstance)
    else if g.lease.None? then Some(NoLease)
    else if g.lease.value.epoch != id.epoch then Some(StaleEpoch)
    else if !Ascii(g.lease.value.token) || !Ascii(id.token) then Some(UncomparableToken)
    else if g.lease.value.token != id.token then Some(WrongToken)
    else None
  }

  /** The same, for operations that need a live lease. */
  function LiveFault(g: Gate, id: Identity, now: int): Option<Code> {
    if IdentityFault(g, id).Some? then IdentityFault(g, id)
    else if g.lease.Some? && g.lease.value.revoked then Some(LeaseRevoked)
    else if g.lease.Some? && now >= g.lease.value.deadline then Some(LeaseExpired)
    else None
  }

  /** A refused identity; seeing an expired idle lease drops it. */
  function AfterFault(g: Gate, code: Code): Gate {
    if code == LeaseExpired && g.inFlight.None? then g.(lease := None) else g
  }

  function Acquired(g: Gate, holder: TextArg, ttl: IntArg, expected: Option<IntArg>, token: TextArg,
                    now: int): Outcome {
    if !ValidHolder(holder) then Outcome(g, Refused(InvalidHolder))
    else if !ValidTtl(g, ttl) then Outcome(g, Refused(InvalidTtl))
    else if !ValidExpected(expected) then Outcome(g, Refused(InvalidExpected))
    else
      var c := Cleaned(g, now);
      if c.inFlight.Some? then Outcome(c, Refused(ComputeInFlight))
      else if c.lease.Some? then Outcome(c, Refused(LeaseHeld))
      else if token.NotText? || |token.text| < 32 then
        Outcome(c.(epoch := c.epoch + 1), Refused(InvalidToken))
      else
        var lease := Grant(holder.text, token.text, c.epoch + 1, now + ttl.value * NANOS, ttl.value,
                           ExpectedValue(expected), false);
        Outcome(c.(epoch := c.epoch + 1, lease := Some(lease)), LeaseReply(lease, now))
  }

  function Renewed(g: Gate, id: Identity, ttl: IntArg, now: int): Outcome {
    if !ValidTtl(g, ttl) then Outcome(g, Refused(InvalidTtl))
    else
      match LiveFault(g, id, now)
      case Some(code) => Outcome(AfterFault(g, code), Refused(code))
      case None =>
        var lease := g.lease.value.(ttl := ttl.value, deadline := now + ttl.value * NANOS);
        Outcome(g.(lease := Some(lease)), LeaseReply(lease, now))
  }

  function ReleasedBy(g: Gate, id: Identity, now: int): Outcome {
    match IdentityFault(g, id)
    case Some(code) => Outcome(g, Refused(code))
    case None =>
      if g.inFlight.None? then Outcome(g.(lease := None), Released(false))
      else
        var held := g.lease.value;
        var lease := held.(revoked := true, deadline := if now < held.deadline then now else held.deadline);
        Outcome(g.(lease := Some(lease)), Released(true))
  }

  function Begun(g: Gate, id: Identity, now: int): Outcome {
    match LiveFault(g, id, now)
    case Some(code) => Outcome(AfterFault(g, code), Refused(code))
    case None =>
      if g.inFlight.Some? then Outcome(g, Refused(ComputeInFlight))
      else Outcome(g.(inFlight := Some(id)), Began)
  }

  function Concluded(g: Gate, id: Identity, ready: bool, now: int): Outcome {
    if g.inFlight != Some(id) then Outcome(g, Refused(IdentityCorruption))
    else if ready && IdentityFault(g, id) == Some(UncomparableToken) then Outcome(g, Refused(UncomparableToken))
    else
      var done := g.(inFlight := None, lease := if Active(g, now) then g.lease else None);
      Outcome(done, Finished(ready && LiveFault(g, id, now) == None))
  }

  function Reported(g: Gate, now: int): Outcome {
    var c := Cleaned(g, now);
    Outcome(c,
      match c.lease
      case None => Status(c.epoch, false, false, None, None, c.inFlight.Some?)
      case Some(lease) =>
        Status(lease.epoch, Alive(lease, now), !lease.revoked && now >= lease.deadline,
               Some(lease.holder), Some(Remaining(lease, now)), c.inFlight.Some?))
  }

  // ---------- the state object ----------

  class Lease {
    const holder: string
    const token: string
    const epoch: int
    const expected: Option<int>
    var deadline: int
    var ttl: int
    var revoked: bool

    constructor (holder: string, token: string, epoch: int, deadline: int, ttl: int, expected: Option<int>)
      ensures Contents() == Grant(holder, token, epoch, deadline, ttl, expected, false)
    {
      this.holder, this.token, this.epoch, this.expected := holder, token, epoch, expected;
      this.deadline, this.ttl, this.revoked := deadline, ttl, false;
    }

    function Contents(): Grant
      reads this
    {
      Grant(holder, token, epoch, deadline, ttl, expected, revoked)
    }
  }

  datatype Checked = Passed(lease: Lease) | Failed(code: Code)

  datatype Comparison = Equal | Different | Uncomparable

  class LeaseState {
    const instanceId: string
    const minTtl: int
    const maxTtl: int
    var epoch: int
    var lease: Lease?
    var inFlight: Option<Identity>

    constructor (instance: string, minTtl: int, maxTtl: int)
      requires ValidConfig(instance, minTtl, maxTtl)
      ensures State() == Fresh(instance, minTtl, maxTtl)
    {
      instanceId, this.minTtl, this.maxTtl := instance, minTtl, maxTtl;
      epoch, lease, inFlight := 0, null, None;
    }

    /** The gate value this object holds. */
    function State(): Gate
      reads this, lease
    {
      Gate(instanceId, minTtl, maxTtl, epoch,
           if lease == null then None else Some(lease.Contents()), inFlight)
    }

    method LeaseActiveLocked(now: int) returns (r: bool)
      ensures r == Active(State(), now)
    {
      r := lease != null && !lease.revoked && now < lease.deadline;
    }

    method CleanupExpiredIfIdleLocked(now: int)
      modifies this`lease
      ensures State() == Cleaned(old(State()), now)
      ensures lease == null || lease == old(lease)
    {
      if inFlight == None && lease != null {
        if lease.revoked || now >= lease.deadline {
          lease := null;
        }
      }
    }

    /** `secrets.compare_digest`. */
    method CompareDigest(a: string, b: string) returns (r: Comparison)
      ensures r == if !Ascii(a) || !Ascii(b) then Uncomparable else if a == b then Equal else Different
    {
      if !Ascii(a) || !Ascii(b) { return Uncomparable; }
      r := if a == b then Equal else Different;
    }

    method Acquire(holder: TextArg, ttl: IntArg, expected: Option<IntArg>, token: TextArg, now: int)
    returns (r: Reply)
      modifies this
      ensures Outcome(State(), r) == Acquired(old(State()), holder, ttl, expected, token, now)
    {
      if !ValidHolder(holder) { return Refused(InvalidHolder); }
      if ttl.NotInt? || ttl.value < minTtl || ttl.value > maxTtl { return Refused(InvalidTtl); }
      if !ValidExpected(expected) { return Refused(InvalidExpected); }
      CleanupExpiredIfIdleLocked(now);
      if inFlight != None { return Refused(ComputeInFlight); }
      var active := LeaseActiveLocked(now);
      if active { return Refused(LeaseHeld); }
      lease := null;
      epoch := epoch + 1;
      if token.NotText? || |token.text| < 32 { return Refused(InvalidToken); }
      lease := new Lease(holder.text, token.text, epoch, now + ttl.value * NANOS, ttl.value, ExpectedValue(expected));
      r := LeaseReply(lease.Contents(), now);
    }

    method ValidateIdentityLocked(id: Identity, now: int) returns (r: Checked)
      modifies this`lease
      ensures match LiveFault(old(State()), id, now)
              case None => lease != null && lease == old(lease) && r == Passed(lease) && State() == old(State())
              case Some(code) => r == Failed(code) && State() == AfterFault(old(State()), code)
    {
      if id.instance != instanceId { return Failed(WrongInstance); }
      if lease == null { return Failed(NoLease); }
      if lease.epoch != id.epoch { return Failed(StaleEpoch); }
      var same := CompareDigest(lease.token, id.token);
      if same == Uncomparable { return Failed(UncomparableToken); }
      if same == Different { return Failed(WrongToken); }
      if lease.revoked { return Failed(LeaseRevoked); }
      if now >= lease.deadline {
        if inFlight == None { lease := null; }
        return Failed(LeaseExpired);
      }
      r := Passed(lease);
    }

    method Renew(id: Identity, ttl: IntArg, now: int) returns (r: Reply)
      modifies this, lease
      ensures Outcome(State(), r) == Renewed(old(State()), id, ttl, now)
    {
      if ttl.NotInt? || ttl.value < minTtl || ttl.value > maxTtl { return Refused(InvalidTtl); }
      var checked := ValidateIdentityLocked(id, now);
      match checked
      case Failed(code) => r := Refused(code);
      case Passed(held) =>
        held.ttl := ttl.value;
        held.deadline := now + ttl.value * NANOS;
        r := LeaseReply(held.Contents(), now);
    }

    method Release(id: Identity, now: int) returns (r: Reply)
      modifies this, lease
      ensures Outcome(State(), r) == ReleasedBy(old(State()), id, now)
    {
      if id.instance != instanceId { return Refused(WrongInstance); }
      if lease == null { return Refused(NoLease); }
      if lease.epoch != id.epoch { return Refused(StaleEpoch); }
      var same := CompareDigest(lease.token, id.token);
      if same == Uncomparable { return Refused(UncomparableToken); }
      if same == Different { return Refused(WrongToken); }
      lease.revoked := true;
      lease.deadline := if now < lease.deadline then now else lease.deadline;
      var pending := inFlight != None;
      if !pending { lease := null; }
      r := Released(pending);
    }

    method BeginCompute(id: Identity, now: int) returns (r: Reply)
      modifies this
      ensures Outcome(State(), r) == Begun(old(State()), id, now)
    {
      var checked := ValidateIdentityLocked(id, now);
      match checked
      case Failed(code) => r := Refused(code);
      case Passed(_) =>
        if inFlight != None { return Refused(ComputeInFlight); }
        inFlight := Some(id);
        r := Began;
    }

    method FinishCompute(id: Identity, ready: bool, now: int) returns (r: Reply)
      modifies this
      ensures Outcome(State(), r) == Concluded(old(State()), id, ready, now)
    {
      if inFlight == None || inFlight != Some(id) { return Refused(IdentityCorruption); }
      var authorized := false;
      if ready && lease != null && id.instance == instanceId && lease.epoch == id.epoch {
        var same := CompareDigest(lease.token, id.token);
        if same == Uncomparable { return Refused(UncomparableToken); }
        authorized := same == Equal && !lease.revoked && now < lease.deadline;
      }
      inFlight := None;
      if lease != null && (lease.revoked || now >= lease.deadline) { lease := null; }
      r := Finished(authorized);
    }

    method StatusReport(now: int) returns (r: Reply)
      modifies this`lease
      ensures Outcome(State(), r) == Reported(old(State()), now)
    {
      CleanupExpiredIfIdleLocked(now);
      var active := LeaseActiveLocked(now);
      var expired := lease != null && !lease.revoked && now >= lease.deadline;
      var remaining, holder, at := None, None, epoch;
      if lease != null {
        holder := Some(lease.holder);
        remaining := Some(Remaining(lease.Contents(), now));
        at := lease.epoch;
      }
      r := Status(at, active, expired, holder, remaining, inFlight != None);
    }
  }
}
