/** Whole runs of the lease gate: any interleaving of calls by any number of callers. */
module LeaseRuns {
  import opened Options
  import opened LeaseGate

  datatype Call =
    | Acquire(holder: TextArg, acquireTtl: IntArg, expected: Option<IntArg>, token: TextArg)
    | Renew(id: Identity, renewTtl: IntArg)
    | Release(id: Identity)
    | Begin(id: Identity)
    | Finish(id: Identity, ready: bool)
    | GetStatus

  /** A call and the clock it reads under the mutex. */
  datatype Entry = Entry(call: Call, now: int)

  function Step(g: Gate, e: Entry): Outcome {
    match e.call
    case Acquire(holder, ttl, expected, token) => Acquired(g, holder, ttl, expected, token, e.now)
    case Renew(id, ttl) => Renewed(g, id, ttl, e.now)
    case Release(id) => ReleasedBy(g, id, e.now)
    case Begin(id) => Begun(g, id, e.now)
    case Finish(id, ready) => Concluded(g, id, ready, e.now)
    case GetStatus => Reported(g, e.now)
  }

  /** The gate before entry `i` of a run. */
  function GateAt(g0: Gate, run: seq<Entry>, i: nat): Gate
    requires i <= |run|
  {
    if i == 0 then g0 else Step(GateAt(g0, run, i - 1), run[i - 1]).gate
  }

  function ReplyAt(g0: Gate, run: seq<Entry>, i: nat): Reply
    requires i < |run|
  {
    Step(GateAt(g0, run, i), run[i]).reply
  }

  /** Entry `i` grants a lease. */
  predicate Grants(g0: Gate, run: seq<Entry>, i: nat)
    requires i < |run|
  {
    run[i].call.Acquire? && ReplyAt(g0, run, i).Leased?
  }

  /** The identity that a grant hands out. */
  function GrantedIdentity(g0: Gate, run: seq<Entry>, i: nat): Identity
    requires i < |run| && Grants(g0, run, i)
  {
    Identity(g0.instance, ReplyAt(g0, run, i).epoch, ReplyAt(g0, run, i).token)
  }

  predicate Presents(e: Entry, id: Identity) {
    !e.call.Acquire? && !e.call.GetStatus? && e.call.id == id
  }

  predicate Initial(g: Gate) {
    g.epoch == 0 && g.lease == None && g.inFlight == None
  }

  // ---------- what every call keeps ----------

  /** A stored lease has the newest epoch, and work in flight carries the identity of the stored lease. */
  predicate Consistent(g: Gate) {
    && g.epoch >= 0
    && (g.lease.Some? ==> g.lease.value.epoch == g.epoch > 0)
    && (g.inFlight.Some? ==>
          && g.lease.Some?
          && g.inFlight.value == IdentityOf(g, g.lease.value)
          && Ascii(g.lease.value.token))
  }

  /** What one call does to a consistent gate. */
  lemma {:induction false} StepKeeps(g: Gate, e: Entry)
    requires Consistent(g)
    ensures var next := Step(g, e).gate;
            && Consistent(next)
            && next.instance == g.instance
            && g.epoch <= next.epoch <= g.epoch + 1
            && (next.epoch == g.epoch && next.lease.Some? ==>
                  g.lease.Some? && IdentityOf(next, next.lease.value) == IdentityOf(g, g.lease.value))
            && (next.epoch > g.epoch ==> e.call.Acquire? && g.inFlight.None?)
            && (next.epoch > g.epoch && next.lease.Some? ==> Step(g, e).reply.Leased?)
  {
  }

  lemma {:induction false} GrantStep(g: Gate, e: Entry)
    requires Consistent(g) && e.call.Acquire? && Step(g, e).reply.Leased?
    ensures var next, reply := Step(g, e).gate, Step(g, e).reply;
            && next.epoch == g.epoch + 1 == reply.epoch
            && next.lease.Some? && IdentityOf(next, next.lease.value) == Identity(g.instance, reply.epoch, reply.token)
            && g.inFlight.None? && next.inFlight.None?
            && !Active(g, e.now)
  {
  }

  function Max0(x: int): int { if x > 0 then x else 0 }

  /** When a lease is granted: exactly with valid arguments and token, nothing in flight and no live lease. */
  lemma {:induction false} GrantGuard(g: Gate, holder: TextArg, ttl: IntArg, expected: Option<IntArg>,
                                      token: TextArg, now: int)
    ensures Acquired(g, holder, ttl, expected, token, now).reply.Leased? <==>
              && holder.TextArg? && 1 <= |holder.text| && Utf8Length(holder.text) <= 256
              && (forall i :: 0 <= i < |holder.text| ==> holder.text[i] >= ' ' && holder.text[i] as int != 127)
              && ttl.IntArg? && g.minTtl <= ttl.value <= g.maxTtl
              && (expected.None? || (expected.value.IntArg? && expected.value.value >= 0))
              && g.inFlight.None? && !Active(g, now)
              && token.TextArg? && |token.text| >= 32
    ensures var out := Acquired(g, holder, ttl, expected, token, now);
            out.reply.Leased? ==>
              && out.gate.lease == Some(Grant(holder.text, token.text, g.epoch + 1, now + ttl.value * 1_000_000,
                                              ttl.value, ExpectedValue(expected), false))
              && out.reply == Leased(g.epoch + 1, token.text, holder.text, ttl.value, ExpectedValue(expected),
                                     Max0(ttl.value))
  {
  }

  /** The length counts one to four bytes for each character. */
  lemma {:induction false} Utf8Meaning(s: string, t: string, c: char)
    ensures Utf8Length([]) == 0
    ensures Utf8Length([c]) ==
      if c as int < 128 then 1 else if c as int < 2048 then 2 else if c as int < 65536 then 3 else 4
    ensures Utf8Length(s + t) == Utf8Length(s) + Utf8Length(t)
    decreases |s|
  {
    assert [c][1..] == [];
    if s == [] {
      assert s + t == t;
    } else {
      assert (s + t)[1..] == s[1..] + t && (s + t)[0] == s[0];
      Utf8Meaning(s[1..], t, c);
    }
  }

  /** What each refusal says about the gate and the call. */
  predicate RefusalMeaning(g: Gate, e: Entry, code: Code) {
    match code
    case InvalidHolder => e.call.Acquire? && !ValidHolder(e.call.holder)
    case InvalidTtl => !ValidTtl(g, AskedTtl(e)) && (e.call.Acquire? || e.call.Renew?)
    case InvalidExpected => e.call.Acquire? && !ValidExpected(e.call.expected)
    case ComputeInFlight => g.inFlight.Some? && (e.call.Acquire? || (e.call.Begin? && Owns(g, e.call.id)))
    case LeaseHeld => e.call.Acquire? && g.inFlight.None? && Active(g, e.now)
    case InvalidToken => e.call.Acquire? && (e.call.token.NotText? || |e.call.token.text| < 32)
    case WrongInstance => HasIdentity(e) && e.call.id.instance != g.instance
    case NoLease => HasIdentity(e) && g.lease.None?
    case StaleEpoch => HasIdentity(e) && g.lease.Some? && g.lease.value.epoch != e.call.id.epoch
    case WrongToken =>
      && HasIdentity(e) && g.lease.Some? && g.lease.value.epoch == e.call.id.epoch
      && g.lease.value.token != e.call.id.token
    case UncomparableToken =>
      && (HasIdentity(e) || e.call.Finish?) && g.lease.Some?
      && g.lease.value.epoch == e.call.id.epoch && !(Ascii(g.lease.value.token) && Ascii(e.call.id.token))
    case LeaseRevoked => HasIdentity(e) && Owns(g, e.call.id) && g.lease.value.revoked
    case LeaseExpired =>
      HasIdentity(e) && Owns(g, e.call.id) && !g.lease.value.revoked && e.now >= g.lease.value.deadline
    case IdentityCorruption => e.call.Finish? && g.inFlight != Some(e.call.id)
  }

  /** The call is checked against the stored lease. */
  predicate HasIdentity(e: Entry) {
    e.call.Renew? || e.call.Release? || e.call.Begin?
  }

  /** Every refusal tells the truth, and changes nothing but that a dead idle lease may be dropped, and
      that a misbehaving token factory uses up an epoch. */
  lemma {:induction false} RefusalIsTrue(g: Gate, e: Entry)
    requires Step(g, e).reply.Refused?
    ensures RefusalMeaning(g, e, Step(g, e).reply.code)
    ensures var next, burnt := Step(g, e).gate, Step(g, e).reply.code == InvalidToken;
            && next.(lease := g.lease, epoch := g.epoch) == g
            && next.epoch == (if burnt then g.epoch + 1 else g.epoch)
            && (next.lease == g.lease || (next.lease == None && g.inFlight.None? && !Active(g, e.now)))
  {
  }

  /** A call that sees a dead lease while nothing is in flight leaves none behind. */
  lemma {:induction false} DeadLeaseIsDropped(g: Gate, e: Entry)
    requires Consistent(g) && g.minTtl > 0
    requires var r := Step(g, e).reply;
             r.Finished? || r.Released? || r.Status? || r.Leased?
             || r == Refused(LeaseExpired) || r == Refused(LeaseHeld) || r == Refused(InvalidToken)
    ensures var next := Step(g, e).gate; next.inFlight.None? && next.lease.Some? ==> Active(next, e.now)
    ensures Step(g, e).reply.Finished? ==> Step(g, e).gate.inFlight.None?
  {
  }

  /** When the stored lease answers to an identity. */
  predicate Owns(g: Gate, id: Identity) {
    g.lease.Some? && id == IdentityOf(g, g.lease.value) && Ascii(id.token)
  }

  /** When a holder may renew, begin or release: exactly as the owner, for the first two while the lease
      is alive. */
  lemma {:induction false} OwnerGuard(g: Gate, id: Identity, ttl: IntArg, now: int)
    ensures Renewed(g, id, ttl, now).reply.Leased? <==> ValidTtl(g, ttl) && Owns(g, id) && Active(g, now)
    ensures Begun(g, id, now).reply == Began <==> Owns(g, id) && Active(g, now) && g.inFlight.None?
    ensures ReleasedBy(g, id, now).reply.Released? <==> Owns(g, id)
    ensures Owns(g, id) ==> ReleasedBy(g, id, now).reply == Released(g.inFlight.Some?)
  {
  }

  /** The reported time left is the time to the deadline in milliseconds, rounded up; zero means expired. */
  lemma {:induction false} RemainingRoundsUp(lease: Grant, now: int)
    ensures Remaining(lease, now) == 0 <==> now >= lease.deadline
    ensures now < lease.deadline ==>
              (Remaining(lease, now) - 1) * NANOS < lease.deadline - now <= Remaining(lease, now) * NANOS
  {
    var d := lease.deadline - now + 999_999;
    assert d == d / NANOS * NANOS + d % NANOS;
  }

  /** The status tells whether a lease is live and work in flight, always with the newest epoch; it shows
      an expired lease only while work is in flight. */
  lemma {:induction false} StatusIsTruthful(g: Gate, now: int)
    requires Consistent(g)
    ensures var r := Reported(g, now).reply;
            && r.Status? && (r.active <==> Active(g, now)) && (r.inFlight <==> g.inFlight.Some?)
            && r.atEpoch == g.epoch
            && (r.expired ==> r.inFlight && !r.active)
            && (r.heldBy.Some? <==> Active(g, now) || g.inFlight.Some?) && (r.leftMs.Some? <==> r.heldBy.Some?)
            && (r.heldBy.Some? ==> g.lease.Some? && r.heldBy.value == g.lease.value.holder
                                   && r.leftMs.value == Remaining(g.lease.value, now))
  {
  }

  lemma {:induction false} RunKeeps(g0: Gate, run: seq<Entry>, i: nat)
    requires Initial(g0) && i <= |run|
    ensures Consistent(GateAt(g0, run, i)) && GateAt(g0, run, i).instance == g0.instance
  {
    if i > 0 {
      RunKeeps(g0, run, i - 1);
      StepKeeps(GateAt(g0, run, i - 1), run[i - 1]);
    }
  }

  lemma {:induction false} EpochsGrow(g0: Gate, run: seq<Entry>, i: nat, j: nat)
    requires Initial(g0) && i <= j <= |run|
    ensures GateAt(g0, run, i).epoch <= GateAt(g0, run, j).epoch
    decreases j
  {
    if i < j {
      EpochsGrow(g0, run, i, j - 1);
      RunKeeps(g0, run, j - 1);
      StepKeeps(GateAt(g0, run, j - 1), run[j - 1]);
    }
  }

  // ---------- exclusivity ----------

  /** Granted epochs strictly increase. */
  lemma {:induction false} GrantedEpochsIncrease(g0: Gate, run: seq<Entry>, i: nat, j: nat)
    requires Initial(g0) && i < j < |run| && Grants(g0, run, i) && Grants(g0, run, j)
    ensures ReplyAt(g0, run, i).epoch < ReplyAt(g0, run, j).epoch
  {
    RunKeeps(g0, run, i);
    RunKeeps(g0, run, j);
    GrantStep(GateAt(g0, run, i), run[i]);
    GrantStep(GateAt(g0, run, j), run[j]);
    EpochsGrow(g0, run, i + 1, j);
  }

  /** After a grant, no call with an older epoch gets anything but a refusal: no renew, no release, no
      begin, and no commit. */
  lemma {:induction false} OlderEpochsAreRefused(g0: Gate, run: seq<Entry>, i: nat, j: nat, id: Identity)
    requires Initial(g0) && i < j < |run| && Grants(g0, run, i)
    requires Presents(run[j], id) && id.epoch < ReplyAt(g0, run, i).epoch
    ensures ReplyAt(g0, run, j).Refused?
  {
    RunKeeps(g0, run, i);
    GrantStep(GateAt(g0, run, i), run[i]);
    EpochsGrow(g0, run, i + 1, j);
    RunKeeps(g0, run, j);
  }

  /** The successful computation of `id` begins at `b` and has not finished before `m`. */
  ghost predicate RunningSince(g0: Gate, run: seq<Entry>, b: nat, m: nat, id: Identity)
    requires b < m <= |run|
  {
    && run[b].call == Begin(id) && ReplyAt(g0, run, b) == Began
    && forall k :: b < k < m ==> !(run[k].call.Finish? && ReplyAt(g0, run, k).Finished?)
  }

  lemma {:induction false} StaysInFlight(g0: Gate, run: seq<Entry>, b: nat, m: nat, id: Identity)
    requires Initial(g0) && b < m <= |run| && RunningSince(g0, run, b, m, id)
    ensures GateAt(g0, run, m).inFlight == Some(id)
    decreases m
  {
    if m > b + 1 {
      StaysInFlight(g0, run, b, m - 1, id);
    }
  }

  /** While a computation runs nothing is granted, nothing else begins and only its own identity can
      finish it. */
  lemma {:induction false} NothingGrantedInFlight(g0: Gate, run: seq<Entry>, b: nat, j: nat, id: Identity)
    requires Initial(g0) && b < j < |run| && RunningSince(g0, run, b, j, id)
    ensures !Grants(g0, run, j) && ReplyAt(g0, run, j) != Began
    ensures run[j].call.Finish? && ReplyAt(g0, run, j).Finished? ==> run[j].call.id == id
  {
    StaysInFlight(g0, run, b, j, id);
  }

  /** A computation in flight was begun earlier and has been running since. */
  lemma {:induction false} InFlightWasBegun(g0: Gate, run: seq<Entry>, m: nat) returns (b: nat)
    requires Initial(g0) && m <= |run| && GateAt(g0, run, m).inFlight.Some?
    ensures b < m && RunningSince(g0, run, b, m, GateAt(g0, run, m).inFlight.value)
  {
    var g := GateAt(g0, run, m - 1);
    if g.inFlight.Some? {
      b := InFlightWasBegun(g0, run, m - 1);
    } else {
      b := m - 1;
    }
  }

  /** A stored lease comes from a grant, and has stayed in place since. */
  lemma {:induction false} LeaseWasGranted(g0: Gate, run: seq<Entry>, m: nat) returns (i: nat)
    requires Initial(g0) && m <= |run| && GateAt(g0, run, m).lease.Some?
    ensures i < m && Grants(g0, run, i)
    ensures GrantedIdentity(g0, run, i) == IdentityOf(GateAt(g0, run, m), GateAt(g0, run, m).lease.value)
    ensures forall k :: i < k < m ==> !Grants(g0, run, k)
  {
    var g := GateAt(g0, run, m - 1);
    RunKeeps(g0, run, m - 1);
    StepKeeps(g, run[m - 1]);
    if GateAt(g0, run, m).epoch == g.epoch {
      i := LeaseWasGranted(g0, run, m - 1);
      if Grants(g0, run, m - 1) { GrantStep(g, run[m - 1]); }
    } else {
      i := m - 1;
      GrantStep(g, run[m - 1]);
    }
  }

  /** Whoever gets anything but a refusal presents exactly the identity of the newest grant. */
  lemma {:induction false} SuccessNeedsNewestGrant(g0: Gate, run: seq<Entry>, j: nat, id: Identity) returns (i: nat)
    requires Initial(g0) && j < |run| && Presents(run[j], id) && !ReplyAt(g0, run, j).Refused?
    ensures i < j && Grants(g0, run, i) && GrantedIdentity(g0, run, i) == id
    ensures forall k :: i < k < j ==> !Grants(g0, run, k)
  {
    RunKeeps(g0, run, j);
    i := LeaseWasGranted(g0, run, j);
  }

  // ---------- no resurrection ----------

  ghost predicate ClockNeverFallsBack(run: seq<Entry>) {
    forall a, b :: 0 <= a <= b < |run| ==> run[a].now <= run[b].now
  }

  /** At call `k` the lease of `id` was stored, not revoked and before its deadline. */
  predicate AliveAt(g0: Gate, run: seq<Entry>, k: nat, id: Identity)
    requires k < |run|
  {
    var g := GateAt(g0, run, k);
    g.lease.Some? && IdentityOf(g, g.lease.value) == id && Alive(g.lease.value, run[k].now)
  }

  /** One call backwards: a lease that is alive now was alive at the call before, or granted by it. */
  lemma {:induction false} AliveBefore(g: Gate, e: Entry, t: int)
    requires Consistent(g) && e.now <= t && Active(Step(g, e).gate, t)
    ensures (e.call.Acquire? && Step(g, e).reply.Leased?)
         || (Active(g, e.now) && !Step(g, e).reply.Released?
             && IdentityOf(g, g.lease.value) == IdentityOf(Step(g, e).gate, Step(g, e).gate.lease.value))
  {
  }

  lemma {:induction false} AliveOneCallBack(g0: Gate, run: seq<Entry>, m: nat, id: Identity)
    requires Initial(g0) && ClockNeverFallsBack(run) && m < |run| && AliveAt(g0, run, m, id)
    ensures m > 0
    ensures if Grants(g0, run, m - 1) then GrantedIdentity(g0, run, m - 1) == id
            else AliveAt(g0, run, m - 1, id) && !ReplyAt(g0, run, m - 1).Released?
  {
    RunKeeps(g0, run, m - 1);
    AliveBefore(GateAt(g0, run, m - 1), run[m - 1], run[m].now);
    if Grants(g0, run, m - 1) {
      GrantStep(GateAt(g0, run, m - 1), run[m - 1]);
    } else {
      StepKeeps(GateAt(g0, run, m - 1), run[m - 1]);
    }
  }

  lemma {:induction false} AliveSinceGrant(g0: Gate, run: seq<Entry>, m: nat, id: Identity) returns (i: nat)
    requires Initial(g0) && ClockNeverFallsBack(run) && m < |run| && AliveAt(g0, run, m, id)
    ensures i < m && Grants(g0, run, i) && GrantedIdentity(g0, run, i) == id
    ensures forall k :: i < k <= m ==> AliveAt(g0, run, k, id)
    ensures forall k :: i < k < m ==> !ReplyAt(g0, run, k).Released? && !Grants(g0, run, k)
  {
    AliveOneCallBack(g0, run, m, id);
    if Grants(g0, run, m - 1) {
      i := m - 1;
    } else {
      i := AliveSinceGrant(g0, run, m - 1, id);
    }
  }

  /** A call that needs a live lease and gets it. */
  predicate UsesLiveLease(g0: Gate, run: seq<Entry>, j: nat)
    requires j < |run|
  {
    match run[j].call
    case Renew(_, _) => ReplyAt(g0, run, j).Leased?
    case Begin(_) => ReplyAt(g0, run, j) == Began
    case Finish(_, _) => ReplyAt(g0, run, j) == Finished(true)
    case _ => false
  }

  /** Under a clock that never falls back, authority once lost never returns: at every call since the
      grant the clock was below the deadline then in force, and nothing was released. */
  lemma {:induction false} NoResurrection(g0: Gate, run: seq<Entry>, j: nat) returns (i: nat)
    requires Initial(g0) && ClockNeverFallsBack(run) && j < |run| && UsesLiveLease(g0, run, j)
    ensures i < j && Grants(g0, run, i) && GrantedIdentity(g0, run, i) == run[j].call.id
    ensures forall k :: i < k <= j ==> AliveAt(g0, run, k, run[j].call.id)
    ensures forall k :: i < k < j ==> !ReplyAt(g0, run, k).Released? && !Grants(g0, run, k)
  {
    RunKeeps(g0, run, j);
    i := AliveSinceGrant(g0, run, j, run[j].call.id);
  }

  // ---------- how long a lease lasts ----------

  /** The time that an entry asks for. */
  function AskedTtl(e: Entry): IntArg {
    match e.call
    case Acquire(_, ttl, _, _) => ttl
    case Renew(_, ttl) => ttl
    case _ => NotInt
  }

  /** The entry is answered with a lease for `id`: a grant or a renewal. */
  predicate Leases(g0: Gate, run: seq<Entry>, m: nat, id: Identity)
    requires m < |run|
  {
    var r := ReplyAt(g0, run, m);
    r.Leased? && id == Identity(g0.instance, r.epoch, r.token)
  }

  /** The entry gives the lease of `id` back. */
  predicate Frees(g0: Gate, run: seq<Entry>, j: nat, id: Identity)
    requires j < |run|
  {
    run[j].call == Release(id) && ReplyAt(g0, run, j).Released?
  }

  /** Entry `m` is the last one before `k` that is answered with a lease for `id`, and the lease has not
      been given back since. */
  ghost predicate LastLeased(g0: Gate, run: seq<Entry>, m: nat, k: nat, id: Identity)
    requires m < k <= |run|
  {
    && Leases(g0, run, m, id)
    && forall j :: m < j < k ==> !Leases(g0, run, j, id) && !Frees(g0, run, j, id)
  }

  /** The asked time has not passed: a million nanoseconds for each of its milliseconds. */
  predicate Within(e: Entry, now: int) {
    AskedTtl(e).IntArg? && now < e.now + AskedTtl(e).value * 1_000_000
  }

  /** The stored lease answers to `id` until the given time. */
  predicate InForce(g: Gate, id: Identity, until: int) {
    g.lease.Some? && IdentityOf(g, g.lease.value) == id && !g.lease.value.revoked && g.lease.value.deadline == until
  }

  /** The lease of `id` is gone for good. */
  predicate Lapsed(g: Gate, id: Identity) {
    id.epoch <= g.epoch && (g.lease.Some? ==> g.lease.value.epoch > id.epoch)
  }

  lemma {:induction false} LeasedStep(g: Gate, e: Entry)
    requires Consistent(g) && Step(g, e).reply.Leased?
    ensures var r := Step(g, e).reply;
            AskedTtl(e).IntArg? && InForce(Step(g, e).gate, Identity(g.instance, r.epoch, r.token),
                                           e.now + AskedTtl(e).value * 1_000_000)
  {
  }

  lemma {:induction false} ForceStep(g: Gate, e: Entry, id: Identity, until: int)
    requires Consistent(g) && InForce(g, id, until)
    requires var r := Step(g, e).reply; r.Leased? ==> id != Identity(g.instance, r.epoch, r.token)
    requires !(e.call == Release(id) && Step(g, e).reply.Released?)
    ensures InForce(Step(g, e).gate, id, until) || (Lapsed(Step(g, e).gate, id) && e.now >= until)
  {
  }

  lemma {:induction false} LapsedStep(g: Gate, e: Entry, id: Identity)
    requires Consistent(g) && Lapsed(g, id)
    ensures Lapsed(Step(g, e).gate, id)
  {
  }

  lemma {:induction false} ForceRun(g0: Gate, run: seq<Entry>, m: nat, k: nat, id: Identity)
    requires Initial(g0) && ClockNeverFallsBack(run) && m < k <= |run| && LastLeased(g0, run, m, k, id)
    ensures AskedTtl(run[m]).IntArg?
    ensures var until := run[m].now + AskedTtl(run[m]).value * 1_000_000;
            InForce(GateAt(g0, run, k), id, until) || (Lapsed(GateAt(g0, run, k), id) && run[k - 1].now >= until)
    decreases k
  {
    RunKeeps(g0, run, k - 1);
    if k == m + 1 {
      LeasedStep(GateAt(g0, run, m), run[m]);
    } else {
      ForceRun(g0, run, m, k - 1, id);
      assert !Leases(g0, run, k - 1, id) && !Frees(g0, run, k - 1, id);
      HoldOn(GateAt(g0, run, k - 1), run[k - 1], id, run[m].now + AskedTtl(run[m]).value * 1_000_000);
    }
  }

  /** One call on: still in force, or gone and the time has passed. */
  lemma {:induction false} HoldOn(g: Gate, e: Entry, id: Identity, until: int)
    requires Consistent(g) && (InForce(g, id, until) || (Lapsed(g, id) && e.now >= until))
    requires var r := Step(g, e).reply; r.Leased? ==> id != Identity(g.instance, r.epoch, r.token)
    requires !(e.call == Release(id) && Step(g, e).reply.Released?)
    ensures InForce(Step(g, e).gate, id, until) || (Lapsed(Step(g, e).gate, id) && e.now >= until)
  {
    if InForce(g, id, until) {
      ForceStep(g, e, id, until);
    } else {
      LapsedStep(g, e, id);
    }
  }

  /** After the last entry that leases, the lease is alive exactly within the time that entry asked for. */
  lemma {:induction false} AliveWithinTtl(g0: Gate, run: seq<Entry>, m: nat, k: nat, id: Identity)
    requires Initial(g0) && ClockNeverFallsBack(run) && m < k < |run| && LastLeased(g0, run, m, k, id)
    ensures AliveAt(g0, run, k, id) <==> Within(run[m], run[k].now)
  {
    ForceRun(g0, run, m, k, id);
  }

  lemma {:induction false} LastExtension(g0: Gate, run: seq<Entry>, i: nat, k: nat, id: Identity) returns (m: nat)
    requires i < k <= |run| && Leases(g0, run, i, id)
    ensures i <= m < k && Leases(g0, run, m, id) && forall j :: m < j < k ==> !Leases(g0, run, j, id)
  {
    m := if Leases(g0, run, k - 1, id) then k - 1 else i;
    if !Leases(g0, run, k - 1, id) { m := LastExtension(g0, run, i, k - 1, id); }
  }

  /** Some entry leased to `id` last, gave it the time until after `k`, and nothing was given back since. */
  ghost predicate Leasing(g0: Gate, run: seq<Entry>, k: nat, id: Identity)
    requires k < |run|
  {
    exists m :: 0 <= m < k && LastLeased(g0, run, m, k, id) && Within(run[m], run[k].now)
  }

  /** Authority from the entries and their answers alone: a lease is alive at a call exactly if the last
      entry answered with it asked for time that has not passed, and it was not given back since. */
  lemma {:induction false} AliveExactly(g0: Gate, run: seq<Entry>, k: nat, id: Identity)
    requires Initial(g0) && ClockNeverFallsBack(run) && k < |run|
    ensures AliveAt(g0, run, k, id) <==> Leasing(g0, run, k, id)
  {
    if AliveAt(g0, run, k, id) {
      var i := AliveSinceGrant(g0, run, k, id);
      var m := LastExtension(g0, run, i, k, id);
      assert LastLeased(g0, run, m, k, id);
      AliveWithinTtl(g0, run, m, k, id);
    } else if Leasing(g0, run, k, id) {
      var m :| 0 <= m < k && LastLeased(g0, run, m, k, id) && Within(run[m], run[k].now);
      AliveWithinTtl(g0, run, m, k, id);
    }
  }

  /** No computation is running at call `k`. */
  ghost predicate Idle(g0: Gate, run: seq<Entry>, k: nat)
    requires k <= |run|
  {
    forall b, other :: 0 <= b < k ==> !RunningSince(g0, run, b, k, other)
  }

  lemma {:induction false} IdleExactly(g0: Gate, run: seq<Entry>, k: nat)
    requires Initial(g0) && k <= |run|
    ensures GateAt(g0, run, k).inFlight.None? <==> Idle(g0, run, k)
  {
    if GateAt(g0, run, k).inFlight.Some? {
      var b := InFlightWasBegun(g0, run, k);
      assert RunningSince(g0, run, b, k, GateAt(g0, run, k).inFlight.value);
    } else if !Idle(g0, run, k) {
      var b, other :| 0 <= b < k && RunningSince(g0, run, b, k, other);
      StaysInFlight(g0, run, b, k, other);
    }
  }

  lemma {:induction false} OwnsAlive(g0: Gate, run: seq<Entry>, k: nat, id: Identity)
    requires Initial(g0) && k < |run|
    ensures var g := GateAt(g0, run, k);
            Owns(g, id) && Active(g, run[k].now) <==> AliveAt(g0, run, k, id) && Ascii(id.token)
  {
  }

  lemma {:induction false} LimitsStay(g0: Gate, run: seq<Entry>, k: nat)
    requires k <= |run|
    ensures GateAt(g0, run, k).minTtl == g0.minTtl && GateAt(g0, run, k).maxTtl == g0.maxTtl
  {
    if k > 0 { LimitsStay(g0, run, k - 1); }
  }

  /** When a begin or a renewal is admitted and when a result is committed, from the entries and their
      answers alone. */
  lemma {:induction false} AdmittedExactly(g0: Gate, run: seq<Entry>, k: nat, id: Identity)
    requires Initial(g0) && ClockNeverFallsBack(run) && k < |run|
    ensures run[k].call == Begin(id) ==>
              (ReplyAt(g0, run, k) == Began <==> Leasing(g0, run, k, id) && Ascii(id.token) && Idle(g0, run, k))
    ensures forall ttl :: run[k].call == Renew(id, ttl) ==>
              (ReplyAt(g0, run, k).Leased? <==>
                 && Leasing(g0, run, k, id) && Ascii(id.token)
                 && ttl.IntArg? && g0.minTtl <= ttl.value <= g0.maxTtl)
    ensures forall ready :: run[k].call == Finish(id, ready) ==>
              (ReplyAt(g0, run, k) == Finished(true) <==>
                 && ready && Leasing(g0, run, k, id)
                 && exists b :: 0 <= b < k && RunningSince(g0, run, b, k, id))
  {
    RunKeeps(g0, run, k);
    AliveExactly(g0, run, k, id);
    IdleExactly(g0, run, k);
    OwnsAlive(g0, run, k, id);
    LimitsStay(g0, run, k);
    var g := GateAt(g0, run, k);
    OwnerGuard(g, id, AskedTtl(run[k]), run[k].now);
    if run[k].call.Finish? && run[k].call.id == id { CommitExactly(g0, run, k, id); }
  }

  lemma {:induction false} CommitExactly(g0: Gate, run: seq<Entry>, k: nat, id: Identity)
    requires Initial(g0) && ClockNeverFallsBack(run) && k < |run| && run[k].call.Finish? && run[k].call.id == id
    ensures ReplyAt(g0, run, k) == Finished(true) <==>
              && run[k].call.ready && AliveAt(g0, run, k, id)
              && exists b :: 0 <= b < k && RunningSince(g0, run, b, k, id)
  {
    RunKeeps(g0, run, k);
    var g := GateAt(g0, run, k);
    if g.inFlight == Some(id) {
      var b := InFlightWasBegun(g0, run, k);
      assert RunningSince(g0, run, b, k, id);
      FinishTestsAreRedundant(g, id, run[k].call.ready, run[k].now);
    } else if b :| 0 <= b < k && RunningSince(g0, run, b, k, id) {
      StaysInFlight(g0, run, b, k, id);
    }
  }

  /** A committed result: granted, then begun, then alone in flight until the commit, the lease alive
      throughout. */
  lemma {:induction false} CommittedWork(g0: Gate, run: seq<Entry>, j: nat) returns (i: nat, b: nat)
    requires Initial(g0) && ClockNeverFallsBack(run) && j < |run|
    requires run[j].call.Finish? && ReplyAt(g0, run, j) == Finished(true)
    ensures i < b < j && Grants(g0, run, i) && GrantedIdentity(g0, run, i) == run[j].call.id
    ensures RunningSince(g0, run, b, j, run[j].call.id)
    ensures forall k :: i < k <= j ==> AliveAt(g0, run, k, run[j].call.id)
  {
    var id := run[j].call.id;
    i := NoResurrection(g0, run, j);
    b := InFlightWasBegun(g0, run, j);
    var n := SuccessNeedsNewestGrant(g0, run, b, id);
    OneGrantEach(g0, run, i, n);
  }

  /** No identity is granted twice. */
  lemma {:induction false} OneGrantEach(g0: Gate, run: seq<Entry>, i: nat, j: nat)
    requires Initial(g0) && i < |run| && j < |run| && Grants(g0, run, i) && Grants(g0, run, j)
    requires GrantedIdentity(g0, run, i) == GrantedIdentity(g0, run, j)
    ensures i == j
  {
    if i < j {
      GrantedEpochsIncrease(g0, run, i, j);
    } else if j < i {
      GrantedEpochsIncrease(g0, run, j, i);
    }
  }

  /** In a consistent gate the identity tests of `finish_compute` always pass: the outcome turns on
      readiness, revocation and the deadline alone. */
  lemma {:induction false} FinishTestsAreRedundant(g: Gate, id: Identity, ready: bool, now: int)
    requires Consistent(g) && g.inFlight == Some(id)
    ensures Concluded(g, id, ready, now).reply == Finished(ready && Active(g, now))
  {
  }

  // ---------- handler threads ----------

  /** Handler threads compute by beginning, running upstream, and finishing once, whatever upstream does. */
  datatype Action =
    | Elsewhere(call: Call)
    | Start(thread: nat, id: Identity)
    | Conclude(thread: nat, ready: bool)

  datatype Timed = Timed(action: Action, at: int)

  datatype System = System(gate: Gate, computing: map<nat, Identity>)

  /** An action that the handlers can take in a state. */
  predicate Enabled(s: System, a: Action) {
    match a
    case Elsewhere(call) => !call.Begin? && !call.Finish?
    case Start(thread, _) => thread !in s.computing
    case Conclude(thread, _) => thread in s.computing
  }

  /** The call that an action makes on the gate. */
  function CallOf(s: System, a: Action): Call
    requires Enabled(s, a)
  {
    match a
    case Elsewhere(call) => call
    case Start(_, id) => Begin(id)
    case Conclude(thread, ready) => Finish(s.computing[thread], ready)
  }

  function Answer(s: System, t: Timed): Reply
    requires Enabled(s, t.action)
  {
    Step(s.gate, Entry(CallOf(s, t.action), t.at)).reply
  }

  function Next(s: System, t: Timed): System
    requires Enabled(s, t.action)
  {
    var out := Step(s.gate, Entry(CallOf(s, t.action), t.at));
    var computing :=
      match t.action
      case Elsewhere(_) => s.computing
      case Start(thread, id) => if out.reply == Began then s.computing[thread := id] else s.computing
      case Conclude(thread, _) => s.computing - {thread};
    System(out.gate, computing)
  }

  ghost predicate Schedule(s: System, actions: seq<Timed>)
    decreases |actions|
  {
    actions != [] ==> Enabled(s, actions[0].action) && Schedule(Next(s, actions[0]), actions[1..])
  }

  ghost function Ends(s: System, actions: seq<Timed>): System
    requires Schedule(s, actions)
    decreases |actions|
  {
    if actions == [] then s else Ends(Next(s, actions[0]), actions[1..])
  }

  /** The threads that compute are exactly the one in flight. */
  ghost predicate Disciplined(s: System) {
    && Consistent(s.gate)
    && (s.gate.inFlight.None? ==> s.computing == map[])
    && (s.gate.inFlight.Some? ==>
          exists thread: nat :: s.computing == map[thread := s.gate.inFlight.value])
  }

  lemma {:induction false} NextKeepsDiscipline(s: System, t: Timed)
    requires Disciplined(s) && Enabled(s, t.action)
    ensures Disciplined(Next(s, t))
    ensures t.action.Conclude? ==> Answer(s, t) == Finished(t.action.ready && Active(s.gate, t.at))
  {
    StepKeeps(s.gate, Entry(CallOf(s, t.action), t.at));
    var next := Next(s, t);
    if t.action.Conclude? {
      assert s.computing.Keys - {t.action.thread} == {};
      assert next.computing == map[];
    } else if t.action.Start? && Answer(s, t) == Began {
      assert next.computing == map[t.action.thread := t.action.id];
    }
  }

  /** In every schedule at most one handler thread computes. */
  lemma {:induction false} AtMostOneComputes(s: System, actions: seq<Timed>)
    requires Disciplined(s) && Schedule(s, actions)
    ensures Disciplined(Ends(s, actions)) && |Ends(s, actions).computing| <= 1
    decreases |actions|
  {
    if actions == [] {
    } else {
      NextKeepsDiscipline(s, actions[0]);
      AtMostOneComputes(Next(s, actions[0]), actions[1..]);
    }
  }

  /** In every schedule a finishing thread is answered: the identity corruption error is unreachable,
      and a failed upstream never commits. */
  lemma {:induction false} FinishNeverCorrupts(s: System, actions: seq<Timed>, t: Timed)
    requires Initial(s.gate) && s.computing == map[] && Schedule(s, actions)
    requires t.action.Conclude? && Enabled(Ends(s, actions), t.action)
    ensures Answer(Ends(s, actions), t).Finished?
    ensures !t.action.ready ==> Answer(Ends(s, actions), t) == Finished(false)
  {
    AtMostOneComputes(s, actions);
    NextKeepsDiscipline(Ends(s, actions), t);
  }
}
