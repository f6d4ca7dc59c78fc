/** Many handler threads at once: every interleaving of the atomic steps of `handle_compute`. */
module Occupancy {
  import opened Options
  import opened MachineInts
  import opened RuntimeCounters

  /** Where a handler thread stands: the atomic step it takes next. `held` says that it still has the
      GPU lock. */
  datatype Phase =
    | New
    | Parsing
    | JoiningQueue
    | JoinedQueue
    | Waiting
    | Leaving(poisoned: bool)
    | Left(poisoned: bool)
    | Starting
    | Started
    | Announcing
    | Computing
    | Unlocking(success: bool)
    | Ending(success: bool, held: bool)
    | Counting(success: bool, held: bool)
    | Clearing(held: bool)
    | Stamping(held: bool)
    | Announced(held: bool)
    | Recording(held: bool)
    | Recorded(held: bool)
    | Releasing
    | Done

  /** What the environment contributes to a step: whether the request parses, how the computation ends
      and the clock. */
  datatype Choice = Choice(thread: nat, parses: bool, verdict: Verdict, now: u64)

  datatype System = System(counters: Counters, lock: Option<nat>, poisoned: bool, phases: seq<Phase>)

  function Start(n: nat): System {
    System(ZEROED, None, false, seq(n, _ => New))
  }

  /** A return unlocks first and ends the active interval afterwards; unwinding ends it with the lock
      still held. */
  function AfterCompute(verdict: Verdict): Phase {
    match verdict
    case Succeeds => Unlocking(true)
    case Fails => Unlocking(false)
    case Panics => Ending(false, true)
  }

  /** What follows the last step of a path: a thread that holds the lock gives it up. */
  function Last(held: bool): Phase { if held then Releasing else Done }

  /** The next phase of the thread that steps. A thread that waits for the lock or is done stays put. */
  function NextPhase(p: Phase, free: bool, poisoned: bool, c: Choice): Phase {
    match p
    case New => Parsing
    case Parsing => if c.parses then JoiningQueue else Recording(false)
    case JoiningQueue => JoinedQueue
    case JoinedQueue => Waiting
    case Waiting => if free then Leaving(poisoned) else Waiting
    case Leaving(p) => Left(p)
    case Left(p) => if p then Recording(true) else Starting
    case Starting => Started
    case Started => Announcing
    case Announcing => Computing
    case Computing => AfterCompute(c.verdict)
    case Unlocking(success) => Ending(success, false)
    case Ending(success, held) => Counting(success, held)
    case Counting(_, held) => Clearing(held)
    case Clearing(held) => Stamping(held)
    case Stamping(held) => Announced(held)
    case Announced(held) => Last(held)
    case Recording(held) => Recorded(held)
    case Recorded(held) => Last(held)
    case Releasing => Done
    case Done => Done
  }

  /** Its effect on the counters. */
  function Effect(p: Phase, c: Choice): Option<Atomic> {
    match p
    case New => Some(CountRequest)
    case JoiningQueue => Some(JoinQueue)
    case JoinedQueue => Some(Bump)
    case Leaving(_) => Some(LeaveQueue)
    case Left(_) => Some(Bump)
    case Starting => Some(Activate)
    case Started => Some(SetCurrent(c.now))
    case Announcing => Some(Bump)
    case Ending(_, _) => Some(Deactivate)
    case Counting(success, _) => Some(if success then CountCompleted else CountFailed)
    case Clearing(_) => Some(ClearCurrent)
    case Stamping(_) => Some(StampFinish(c.now))
    case Announced(_) => Some(Bump)
    case Recording(_) => Some(CountFailed)
    case Recorded(_) => Some(Bump)
    case _ => None
  }

  function LockAfter(p: Phase, lock: Option<nat>, t: nat): Option<nat> {
    match p
    case Waiting => if lock.None? then Some(t) else lock
    case Unlocking(_) => None
    case Releasing => None
    case _ => lock
  }

  /** One atomic step of one thread. */
  function Step(s: System, c: Choice): System
    requires c.thread < |s.phases|
  {
    var p := s.phases[c.thread];
    System(
      match Effect(p, c) case None => s.counters case Some(op) => Apply(s.counters, op),
      LockAfter(p, s.lock, c.thread),
      s.poisoned || (p == Computing && c.verdict == Panics),
      s.phases[c.thread := NextPhase(p, s.lock.None?, s.poisoned, c)])
  }

  /** A schedule names existing threads only. */
  predicate Fits(schedule: seq<Choice>, n: nat) {
    forall i :: 0 <= i < |schedule| ==> schedule[i].thread < n
  }

  function Run(s: System, schedule: seq<Choice>): (r: System)
    requires Fits(schedule, |s.phases|)
    ensures |r.phases| == |s.phases|
    decreases |schedule|
  {
    if schedule == [] then s else Run(Step(s, schedule[0]), schedule[1..])
  }

  // ---------- counting threads ----------

  predicate InProgress(p: Phase) {
    match p
    case New | Clearing(_) | Stamping(_) | Announced(_) | Recorded(_) | Releasing | Done => false
    case _ => true
  }

  predicate Queued(p: Phase) {
    p == JoinedQueue || p == Waiting || p.Leaving?
  }

  predicate Active(p: Phase) {
    p == Started || p == Announcing || p == Computing || p.Unlocking? || p.Ending?
  }

  /** Admitted to the GPU but neither queued nor active. */
  predicate Uncounted(p: Phase) {
    p.Left? || p == Starting
  }

  predicate HoldsLock(p: Phase) {
    match p
    case Leaving(_) | Left(_) | Starting | Started | Announcing | Computing | Unlocking(_) | Releasing => true
    case Ending(_, held) => held
    case Counting(_, held) => held
    case Clearing(held) => held
    case Stamping(held) => held
    case Announced(held) => held
    case Recording(held) => held
    case Recorded(held) => held
    case _ => false
  }

  function Count(p: Phase -> bool, phases: seq<Phase>): (r: nat)
    ensures r <= |phases|
  {
    if phases == [] then 0 else (if p(phases[0]) then 1 else 0) + Count(p, phases[1..])
  }

  function Unit(b: bool): nat { if b then 1 else 0 }

  lemma {:induction false} CountUpdate(p: Phase -> bool, phases: seq<Phase>, i: nat, x: Phase)
    requires i < |phases|
    ensures Count(p, phases[i := x]) + Unit(p(phases[i])) == Count(p, phases) + Unit(p(x))
  {
    if i == 0 {
      assert phases[0 := x][1..] == phases[1..];
    } else {
      assert phases[i := x][1..] == phases[1..][i - 1 := x];
      CountUpdate(p, phases[1..], i - 1, x);
    }
  }

  lemma {:induction false} CountAtLeast(p: Phase -> bool, phases: seq<Phase>, i: nat)
    requires i < |phases| && p(phases[i])
    ensures Count(p, phases) >= 1
  {
    if i > 0 { CountAtLeast(p, phases[1..], i - 1); }
  }

  lemma {:induction false} CountNone(p: Phase -> bool, phases: seq<Phase>)
    ensures Count(p, phases) == 0 <==> forall i :: 0 <= i < |phases| ==> !p(phases[i])
  {
    if phases != [] {
      CountNone(p, phases[1..]);
      assert phases == [phases[0]] + phases[1..];
    }
  }

  // ---------- conservation ----------

  /** The counters tell the truth about the threads. */
  ghost predicate Truthful(s: System) {
    && Conserved(s)
    && s.counters.queued == Count(Queued, s.phases)
    && s.counters.active == Count(Active, s.phases)
  }

  /** The lock has the one holder it names. */
  ghost predicate LockExact(s: System) {
    forall t :: 0 <= t < |s.phases| ==> (HoldsLock(s.phases[t]) <==> s.lock == Some(t))
  }

  lemma {:induction false} HolderStep(p: Phase, lock: Option<nat>, poisoned: bool, c: Choice)
    requires HoldsLock(p) <==> lock == Some(c.thread)
    ensures HoldsLock(NextPhase(p, lock.None?, poisoned, c)) <==> LockAfter(p, lock, c.thread) == Some(c.thread)
    ensures LockAfter(p, lock, c.thread) == lock || LockAfter(p, lock, c.thread) == Some(c.thread)
         || lock == Some(c.thread)
    ensures lock.Some? && lock.value != c.thread ==> LockAfter(p, lock, c.thread) == lock
  {
  }

  lemma {:induction false} LockStep(s: System, c: Choice)
    requires c.thread < |s.phases| && LockExact(s)
    ensures LockExact(Step(s, c))
  {
    HolderStep(s.phases[c.thread], s.lock, s.poisoned, c);
  }

  /** Requests received are requests answered plus requests in progress, modulo the counter width. */
  ghost predicate Conserved(s: System) {
    s.counters.total == Wrapped(s.counters.completed, s.counters.failed, Count(InProgress, s.phases))
  }

  /** A sum that a 64-bit counter shows. */
  function Wrapped(completed: u64, failed: u64, open: nat): nat {
    (completed + failed + open) % U64
  }

  lemma {:induction false} WrappedSteps(completed: u64, failed: u64, open: nat)
    ensures Increment(Wrapped(completed, failed, open)) == Wrapped(completed, failed, open + 1)
    ensures Wrapped(Increment(completed), failed, open) == Wrapped(completed, failed, open + 1)
    ensures Wrapped(completed, Increment(failed), open) == Wrapped(completed, failed, open + 1)
  {
    var x := completed + failed + open;
    var q, r := x / U64, x % U64;
    assert x + 1 == if r == U64 - 1 then (q + 1) * U64 else q * U64 + (r + 1);
  }

  /** How a step moves the thread between the counted groups. */
  lemma {:induction false} PhaseFlow(p: Phase, free: bool, poisoned: bool, c: Choice)
    ensures var next, op := NextPhase(p, free, poisoned, c), Effect(p, c);
            && Unit(Queued(next)) + Unit(op == Some(LeaveQueue)) == Unit(Queued(p)) + Unit(op == Some(JoinQueue))
            && Unit(Active(next)) + Unit(op == Some(Deactivate)) == Unit(Active(p)) + Unit(op == Some(Activate))
            && Unit(InProgress(next)) + Unit(op == Some(CountCompleted) || op == Some(CountFailed))
               == Unit(InProgress(p)) + Unit(op == Some(CountRequest))
  {
  }

  lemma {:induction false} ApplyFields(c: Counters, op: Atomic)
    ensures var d := Apply(c, op);
            && d.total == (if op == CountRequest then Increment(c.total) else c.total)
            && d.queued == (if op == JoinQueue then Increment(c.queued)
                            else if op == LeaveQueue then Decrement(c.queued) else c.queued)
            && d.active == (if op == Activate then Increment(c.active)
                            else if op == Deactivate then Decrement(c.active) else c.active)
            && d.completed == (if op == CountCompleted then Increment(c.completed) else c.completed)
            && d.failed == (if op == CountFailed then Increment(c.failed) else c.failed)
  {
  }

  lemma {:induction false} Booked(c: Counters, op: Atomic, open: nat, next: nat)
    requires c.total == Wrapped(c.completed, c.failed, open)
    requires next + Unit(op == CountCompleted || op == CountFailed) == open + Unit(op == CountRequest)
    ensures Apply(c, op).total == Wrapped(Apply(c, op).completed, Apply(c, op).failed, next)
  {
    if op == CountRequest {
      WrappedSteps(c.completed, c.failed, open);
    } else if op == CountCompleted || op == CountFailed {
      WrappedSteps(c.completed, c.failed, next);
    }
  }

  lemma {:induction false} ConservedStep(s: System, c: Choice)
    requires c.thread < |s.phases| && Conserved(s)
    ensures Conserved(Step(s, c))
  {
    var p, free := s.phases[c.thread], s.lock.None?;
    var q := NextPhase(p, free, s.poisoned, c);
    var before, after := Count(InProgress, s.phases), Count(InProgress, s.phases[c.thread := q]);
    CountUpdate(InProgress, s.phases, c.thread, q);
    PhaseFlow(p, free, s.poisoned, c);
    if Effect(p, c).Some? {
      Booked(s.counters, Effect(p, c).value, before, after);
    } else {
      assert before == after;
    }
  }

  lemma {:induction false} TruthfulStep(s: System, c: Choice)
    requires c.thread < |s.phases| < U64 && Truthful(s)
    ensures Truthful(Step(s, c))
  {
    ConservedStep(s, c);
    var p := s.phases[c.thread];
    var next := NextPhase(p, s.lock.None?, s.poisoned, c);
    CountUpdate(Queued, s.phases, c.thread, next);
    CountUpdate(Active, s.phases, c.thread, next);
    PhaseFlow(p, s.lock.None?, s.poisoned, c);
    if Effect(p, c).Some? { ApplyFields(s.counters, Effect(p, c).value); }
  }

  lemma {:induction false} StartIsTruthful(n: nat)
    requires n < U64
    ensures Truthful(Start(n)) && LockExact(Start(n))
  {
    CountNone(InProgress, Start(n).phases);
    CountNone(Queued, Start(n).phases);
    CountNone(Active, Start(n).phases);
  }

  lemma {:induction false} RunKeeps(s: System, schedule: seq<Choice>)
    requires |s.phases| < U64 && Fits(schedule, |s.phases|) && Truthful(s) && LockExact(s)
    ensures Truthful(Run(s, schedule)) && LockExact(Run(s, schedule))
    decreases |schedule|
  {
    if schedule != [] {
      TruthfulStep(s, schedule[0]);
      LockStep(s, schedule[0]);
      RunKeeps(Step(s, schedule[0]), schedule[1..]);
    }
  }

  /** What holds at every moment of every run. */
  ghost predicate Sound(s: System) {
    Truthful(s) && LockExact(s) && (s.lock.Some? ==> s.lock.value < |s.phases|)
  }

  lemma {:induction false} RunIsSound(n: nat, schedule: seq<Choice>)
    requires n < U64 && Fits(schedule, n)
    ensures Sound(Run(Start(n), schedule))
  {
    StartIsTruthful(n);
    RunKeeps(Start(n), schedule);
    HolderBound(Start(n), schedule);
  }

  lemma {:induction false} HolderBound(s: System, schedule: seq<Choice>)
    requires Fits(schedule, |s.phases|) && (s.lock.Some? ==> s.lock.value < |s.phases|)
    ensures Run(s, schedule).lock.Some? ==> Run(s, schedule).lock.value < |s.phases|
    decreases |schedule|
  {
    if schedule != [] { HolderBound(Step(s, schedule[0]), schedule[1..]); }
  }

  /** Conservation in every interleaving: the counters are exact at every moment. */
  lemma {:induction false} CountersAreExact(n: nat, schedule: seq<Choice>)
    requires n < U64 && Fits(schedule, n)
    ensures var s := Run(Start(n), schedule);
            && s.counters.total == Wrapped(s.counters.completed, s.counters.failed, Count(InProgress, s.phases))
            && s.counters.queued == Count(Queued, s.phases)
            && s.counters.active == Count(Active, s.phases)
  {
    RunIsSound(n, schedule);
  }

  /** No decrement ever meets a zero. */
  lemma {:induction false} NothingUnderflows(n: nat, schedule: seq<Choice>, c: Choice)
    requires n < U64 && Fits(schedule, n) && c.thread < n
    ensures var s := Run(Start(n), schedule);
            && (Effect(s.phases[c.thread], c) == Some(LeaveQueue) ==> s.counters.queued > 0)
            && (Effect(s.phases[c.thread], c) == Some(Deactivate) ==> s.counters.active > 0)
  {
    RunIsSound(n, schedule);
    var s := Run(Start(n), schedule);
    if Queued(s.phases[c.thread]) { CountAtLeast(Queued, s.phases, c.thread); }
    if Active(s.phases[c.thread]) { CountAtLeast(Active, s.phases, c.thread); }
  }

  /** At most one thread computes, and at most one is admitted but counted nowhere; such a thread holds
      the lock. */
  lemma {:induction false} OneHolder(n: nat, schedule: seq<Choice>, t: nat, u: nat)
    requires n < U64 && Fits(schedule, n) && t < n && u < n
    ensures var s := Run(Start(n), schedule);
            && (HoldsLock(s.phases[t]) && HoldsLock(s.phases[u]) ==> t == u)
            && (s.phases[t] == Computing && s.phases[u] == Computing ==> t == u)
            && (Uncounted(s.phases[t]) && (Uncounted(s.phases[u]) || s.phases[u] == Computing) ==> t == u)
            && (Uncounted(s.phases[t]) ==> s.lock == Some(t))
  {
    RunIsSound(n, schedule);
  }

  // ---------- the idle report ----------

  /** The reader of the status loads the active count and then the queued count; other threads step in
      between. */
  predicate ReadsIdle(first: System, second: System) {
    first.counters.active == 0 && second.counters.queued == 0
  }

  lemma {:induction false} NothingCounted(s: System)
    requires Sound(s)
    ensures s.counters.queued == 0 <==> forall t :: 0 <= t < |s.phases| ==> !Queued(s.phases[t])
    ensures s.counters.active == 0 <==> forall t :: 0 <= t < |s.phases| ==> !Active(s.phases[t])
  {
    CountNone(Queued, s.phases);
    CountNone(Active, s.phases);
  }

  /** What an idle report says: no thread was active at the first load and none queued at the second. */
  lemma {:induction false} IdleReport(n: nat, before: seq<Choice>, between: seq<Choice>)
    requires n < U64 && Fits(before, n) && Fits(between, n)
    ensures var first := Run(Start(n), before); var second := Run(first, between);
            ReadsIdle(first, second) <==>
              forall t :: 0 <= t < n ==> !Active(first.phases[t]) && !Queued(second.phases[t])
  {
    RunIsSound(n, before);
    RunConcat(Start(n), before, between);
    RunIsSound(n, before + between);
    NothingCounted(Run(Start(n), before));
    NothingCounted(Run(Run(Start(n), before), between));
  }

  lemma {:induction false} QuietState(s: System)
    requires Sound(s) && forall t :: 0 <= t < |s.phases| ==> s.phases[t] == Done
    ensures s.counters.total == Wrapped(s.counters.completed, s.counters.failed, 0)
    ensures s.counters.queued == 0 && s.counters.active == 0 && s.lock == None
  {
    CountNone(InProgress, s.phases);
    CountNone(Queued, s.phases);
    CountNone(Active, s.phases);
  }

  // ---------- what the outcome counters count ----------

  /** A computation ends well in this step. */
  predicate Succeeded(p: Phase, c: Choice) {
    p == Computing && c.verdict == Succeeds
  }

  /** A computation ends badly in this step, or a request is turned away: its text is not a request, or
      it meets a poisoned lock. */
  predicate Unsuccessful(p: Phase, c: Choice) {
    || (p == Computing && c.verdict != Succeeds)
    || (p == Parsing && !c.parses)
    || p == Left(true)
  }

  /** The computation ended well and is not yet counted. */
  predicate OwesSuccess(p: Phase) {
    match p
    case Unlocking(success) => success
    case Ending(success, _) => success
    case Counting(success, _) => success
    case _ => false
  }

  /** The request failed and is not yet counted. */
  predicate OwesFailure(p: Phase) {
    match p
    case Unlocking(success) => !success
    case Ending(success, _) => !success
    case Counting(success, _) => !success
    case Recording(_) => true
    case _ => false
  }

  /** How many steps of a run are events of the kind. */
  function Events(kind: (Phase, Choice) -> bool, s: System, schedule: seq<Choice>): nat
    requires Fits(schedule, |s.phases|)
    decreases |schedule|
  {
    if schedule == [] then 0
    else
      var c := schedule[0];
      Unit(kind(s.phases[c.thread], c)) + Events(kind, Step(s, c), schedule[1..])
  }

  /** A step either makes a thread owe an outcome or counts one that is owed. */
  lemma {:induction false} OutcomeFlow(p: Phase, free: bool, poisoned: bool, c: Choice)
    ensures var next, op := NextPhase(p, free, poisoned, c), Effect(p, c);
            && Unit(OwesSuccess(next)) + Unit(op == Some(CountCompleted))
               == Unit(OwesSuccess(p)) + Unit(Succeeded(p, c))
            && Unit(OwesFailure(next)) + Unit(op == Some(CountFailed))
               == Unit(OwesFailure(p)) + Unit(Unsuccessful(p, c))
  {
  }

  /** One step; `w` and `x` say which counter wrapped around. */
  lemma {:induction false} OutcomeStep(s: System, c: Choice) returns (w: nat, x: nat)
    requires c.thread < |s.phases|
    ensures var r, p := Step(s, c), s.phases[c.thread];
            && r.counters.completed + Count(OwesSuccess, r.phases) + w * U64
               == s.counters.completed + Count(OwesSuccess, s.phases) + Unit(Succeeded(p, c))
            && r.counters.failed + Count(OwesFailure, r.phases) + x * U64
               == s.counters.failed + Count(OwesFailure, s.phases) + Unit(Unsuccessful(p, c))
  {
    var p := s.phases[c.thread];
    var next := NextPhase(p, s.lock.None?, s.poisoned, c);
    OutcomeFlow(p, s.lock.None?, s.poisoned, c);
    CountUpdate(OwesSuccess, s.phases, c.thread, next);
    CountUpdate(OwesFailure, s.phases, c.thread, next);
    if Effect(p, c).Some? { ApplyFields(s.counters, Effect(p, c).value); }
    w := Unit(Effect(p, c) == Some(CountCompleted) && s.counters.completed == U64 - 1);
    x := Unit(Effect(p, c) == Some(CountFailed) && s.counters.failed == U64 - 1);
  }

  lemma {:induction false} OutcomesRun(s: System, schedule: seq<Choice>) returns (w: nat, x: nat)
    requires Fits(schedule, |s.phases|)
    ensures var r := Run(s, schedule);
            && r.counters.completed + Count(OwesSuccess, r.phases) + w * U64
               == s.counters.completed + Count(OwesSuccess, s.phases) + Events(Succeeded, s, schedule)
            && r.counters.failed + Count(OwesFailure, r.phases) + x * U64
               == s.counters.failed + Count(OwesFailure, s.phases) + Events(Unsuccessful, s, schedule)
    decreases |schedule|
  {
    w, x := 0, 0;
    if schedule != [] {
      var w1, x1 := OutcomeStep(s, schedule[0]);
      var w2, x2 := OutcomesRun(Step(s, schedule[0]), schedule[1..]);
      w, x := w1 + w2, x1 + x2;
    }
  }

  /** In every interleaving: the completed count and the threads that owe a success are the computations
      that ended well; the failed count and the threads that owe a failure are those that ended badly
      and the requests turned away. */
  lemma {:induction false} OutcomesAreExact(n: nat, schedule: seq<Choice>)
    requires Fits(schedule, n)
    ensures var s := Run(Start(n), schedule);
            && (s.counters.completed + Count(OwesSuccess, s.phases)) % U64
               == Events(Succeeded, Start(n), schedule) % U64
            && (s.counters.failed + Count(OwesFailure, s.phases)) % U64
               == Events(Unsuccessful, Start(n), schedule) % U64
  {
    var s := Run(Start(n), schedule);
    var w, x := OutcomesRun(Start(n), schedule);
    CountNone(OwesSuccess, Start(n).phases);
    CountNone(OwesFailure, Start(n).phases);
    ModShift64(Events(Succeeded, Start(n), schedule), w);
    ModShift64(Events(Unsuccessful, Start(n), schedule), x);
  }

  lemma {:induction false} ModShift64(x: int, q: int)
    ensures (x - q * U64) % U64 == x % U64
  {
    var r, p := x % U64, x / U64;
    assert x - q * U64 == (p - q) * U64 + r;
  }

  lemma {:induction false} QuietOutcomes(n: nat, schedule: seq<Choice>)
    requires Fits(schedule, n)
    requires forall t :: 0 <= t < n ==> Run(Start(n), schedule).phases[t] == Done
    ensures var s := Run(Start(n), schedule);
            && s.counters.completed == Events(Succeeded, Start(n), schedule) % U64
            && s.counters.failed == Events(Unsuccessful, Start(n), schedule) % U64
  {
    var s := Run(Start(n), schedule);
    OutcomesAreExact(n, schedule);
    CountNone(OwesSuccess, s.phases);
    CountNone(OwesFailure, s.phases);
  }

  /** When every thread is done the books balance: the outcomes are those of the computations. */
  lemma {:induction false} Quiescence(n: nat, schedule: seq<Choice>)
    requires n < U64 && Fits(schedule, n)
    requires forall t :: 0 <= t < n ==> Run(Start(n), schedule).phases[t] == Done
    ensures var s := Run(Start(n), schedule);
            && s.counters.total == Wrapped(s.counters.completed, s.counters.failed, 0)
            && s.counters.queued == 0 && s.counters.active == 0 && s.lock == None
            && s.counters.completed == Events(Succeeded, Start(n), schedule) % U64
            && s.counters.failed == Events(Unsuccessful, Start(n), schedule) % U64
  {
    RunIsSound(n, schedule);
    var s := Run(Start(n), schedule);
    QuietState(s);
    QuietOutcomes(n, schedule);
  }

  // ---------- what is not an invariant ----------

  function Solo(t: nat): Choice { Choice(t, true, Succeeds, 0) }

  function Repeat(c: Choice, k: nat): (r: seq<Choice>)
    ensures |r| == k && forall i :: 0 <= i < k ==> r[i] == c
  {
    seq(k, _ => c)
  }

  lemma {:induction false} RunConcat(s: System, first: seq<Choice>, second: seq<Choice>)
    requires Fits(first, |s.phases|) && Fits(second, |s.phases|)
    ensures Fits(first + second, |s.phases|)
    ensures Run(s, first + second) == Run(Run(s, first), second)
    decreases |first|
  {
    if first == [] {
      assert first + second == second;
    } else {
      assert (first + second)[1..] == first[1..] + second;
      RunConcat(Step(s, first[0]), first[1..], second);
    }
  }

  /** The phases of a request that nobody disturbs. */
  function Path(k: nat): Phase {
    match k
    case 0 => New
    case 1 => Parsing
    case 2 => JoiningQueue
    case 3 => JoinedQueue
    case 4 => Waiting
    case 5 => Leaving(false)
    case 6 => Left(false)
    case 7 => Starting
    case 8 => Started
    case 9 => Announcing
    case 10 => Computing
    case 11 => Unlocking(true)
    case 12 => Ending(true, false)
    case 13 => Counting(true, false)
    case 14 => Clearing(false)
    case 15 => Stamping(false)
    case 16 => Announced(false)
    case _ => Done
  }

  function PathLock(k: nat, t: nat): Option<nat> {
    if 5 <= k <= 11 then Some(t) else None
  }

  lemma {:induction false} PathStep(k: nat, t: nat)
    ensures NextPhase(Path(k), PathLock(k, t).None?, false, Solo(t)) == Path(k + 1)
    ensures LockAfter(Path(k), PathLock(k, t), t) == PathLock(k + 1, t)
  {
  }

  /** A thread running alone from a free lock follows the path. */
  lemma {:induction false} RunAlone(s: System, t: nat, k: nat)
    requires t < |s.phases| && s.phases[t] == New && s.lock == None && !s.poisoned
    ensures Fits(Repeat(Solo(t), k), |s.phases|)
    ensures var r := Run(s, Repeat(Solo(t), k));
            r.phases == s.phases[t := Path(k)] && r.lock == PathLock(k, t) && !r.poisoned
  {
    if k == 0 {
      assert s.phases[t := New] == s.phases;
    } else {
      RunAlone(s, t, k - 1);
      RunNext(s, Solo(t), k - 1);
      PathStep(k - 1, t);
    }
  }

  lemma {:induction false} RunNext(s: System, c: Choice, k: nat)
    requires c.thread < |s.phases|
    ensures Fits(Repeat(c, k + 1), |s.phases|)
    ensures Run(s, Repeat(c, k + 1)) == Step(Run(s, Repeat(c, k)), c)
  {
    assert Repeat(c, k + 1) == Repeat(c, k) + [c];
    RunConcat(s, Repeat(c, k), [c]);
    var r := Run(s, Repeat(c, k));
    assert Run(r, [c]) == Run(Step(r, c), [c][1..]) == Step(r, c);
  }

  // ---------- one request on its own ----------

  /** What one thread sees and changes. */
  datatype Local = Local(counters: Counters, lock: Option<nat>, poisoned: bool, phase: Phase)

  function View(s: System, t: nat): Local
    requires t < |s.phases|
  {
    Local(s.counters, s.lock, s.poisoned, s.phases[t])
  }

  function LocalStep(l: Local, c: Choice): Local {
    Local(
      match Effect(l.phase, c) case None => l.counters case Some(op) => Apply(l.counters, op),
      LockAfter(l.phase, l.lock, c.thread),
      l.poisoned || (l.phase == Computing && c.verdict == Panics),
      NextPhase(l.phase, l.lock.None?, l.poisoned, c))
  }

  function Steps(l: Local, c: Choice, k: nat): Local
    decreases k
  {
    if k == 0 then l else Steps(LocalStep(l, c), c, k - 1)
  }

  lemma {:induction false} RunTimes(s: System, c: Choice, k: nat)
    requires c.thread < |s.phases|
    ensures Fits(Repeat(c, k), |s.phases|)
    ensures var r := Run(s, Repeat(c, k));
            View(r, c.thread) == Steps(View(s, c.thread), c, k)
            && r.phases == s.phases[c.thread := r.phases[c.thread]]
    decreases k
  {
    if k > 0 {
      assert Repeat(c, k)[1..] == Repeat(c, k - 1);
      RunTimes(Step(s, c), c, k - 1);
    }
  }

  /** The choices of a thread with the given fate: at first, and after the computation. */
  function Early(t: nat, fate: Fate): Choice {
    match fate
    case Unparsed => Choice(t, false, Succeeds, 0)
    case Poisoned => Choice(t, true, Succeeds, 0)
    case Computes(verdict, begun, _) => Choice(t, true, verdict, begun)
  }

  function Late(t: nat, fate: Fate): Choice {
    if fate.Computes? then Early(t, fate).(now := fate.ended) else Early(t, fate)
  }

  /** The fate that the lock allows. */
  predicate Possible(poisoned: bool, fate: Fate) {
    match fate
    case Unparsed => true
    case Poisoned => poisoned
    case Computes(_, _, _) => !poisoned
  }

  lemma {:induction false} StepsAdd(l: Local, c: Choice, i: nat, j: nat)
    ensures Steps(l, c, i + j) == Steps(Steps(l, c, i), c, j)
    decreases i
  {
    if i > 0 { StepsAdd(LocalStep(l, c), c, i - 1, j); }
  }

  lemma {:induction false} DoneStays(l: Local, c: Choice, k: nat)
    requires l.phase == Done
    ensures Steps(l, c, k) == l
  {
    if k > 0 {
      assert LocalStep(l, c) == l;
      DoneStays(l, c, k - 1);
    }
  }

  /** Two steps and three, unfolded. */
  lemma {:induction false} FewSteps(l: Local, c: Choice)
    ensures Steps(l, c, 1) == LocalStep(l, c)
    ensures Steps(l, c, 2) == LocalStep(LocalStep(l, c), c)
    ensures Steps(l, c, 3) == LocalStep(LocalStep(LocalStep(l, c), c), c)
  {
    var m := LocalStep(l, c);
    var n := LocalStep(m, c);
    assert Steps(n, c, 0) == n && Steps(n, c, 1) == Steps(LocalStep(n, c), c, 0);
    assert Steps(m, c, 1) == Steps(n, c, 0) && Steps(m, c, 2) == Steps(n, c, 1);
    assert Steps(l, c, 1) == Steps(m, c, 0);
  }

  lemma {:induction false} Arrives(l: Local, c: Choice)
    requires l.phase == New
    ensures Steps(l, c, 2) ==
      l.(counters := Apply(l.counters, CountRequest), phase := if c.parses then JoiningQueue else Recording(false))
  {
    FewSteps(l, c);
  }

  lemma {:induction false} Refused(l: Local, c: Choice)
    requires l.phase.Recording? && (l.phase.held ==> l.lock == Some(c.thread))
    ensures Steps(l, c, 3) == Local(Then(l.counters, CountFailed, Bump), if l.phase.held then None else l.lock,
                                    l.poisoned, Done)
  {
    FewSteps(l, c);
  }

  lemma {:induction false} Queues(l: Local, c: Choice)
    requires l.phase == JoiningQueue && l.lock == None
    ensures Steps(l, c, 5) == Local(Then(Then(l.counters, JoinQueue, Bump), LeaveQueue, Bump), Some(c.thread),
                                    l.poisoned, if l.poisoned then Recording(true) else Starting)
  {
    FewSteps(l, c);
    var m := Steps(l, c, 3);
    assert m == Local(Then(l.counters, JoinQueue, Bump), Some(c.thread), l.poisoned, Leaving(l.poisoned));
    FewSteps(m, c);
    StepsAdd(l, c, 3, 2);
  }

  lemma {:induction false} ComputesOnce(l: Local, c: Choice)
    requires l.phase == Starting && !l.poisoned
    ensures Steps(l, c, 4) == Local(AfterStart(l.counters, c.now), l.lock, c.verdict == Panics,
                                    AfterCompute(c.verdict))
  {
    FewSteps(l, c);
    var m := Steps(l, c, 3);
    assert m == l.(counters := AfterStart(l.counters, c.now), phase := Computing);
    FewSteps(m, c);
    StepsAdd(l, c, 3, 1);
  }

  /** Eleven steps lead to the end of the computation, or of a refused request. */
  lemma {:induction false} ElevenSteps(l: Local, c: Choice)
    requires l.phase == New && l.lock == None
    ensures !c.parses ==> Steps(l, c, 11) == l.(phase := Done, counters := Handled(l.counters, Unparsed))
    ensures c.parses && l.poisoned ==>
              Steps(l, c, 11) == l.(phase := Done, counters := Handled(l.counters, Poisoned))
    ensures c.parses && !l.poisoned ==>
              Steps(l, c, 11) == Local(AfterStart(Queueing(l.counters), c.now), Some(c.thread),
                                       c.verdict == Panics, AfterCompute(c.verdict))
  {
    Arrives(l, c);
    StepsAdd(l, c, 2, 9);
    var m := Steps(l, c, 2);
    if !c.parses {
      Refused(m, c);
      StepsAdd(m, c, 3, 6);
      DoneStays(Steps(m, c, 3), c, 6);
    } else {
      Queues(m, c);
      StepsAdd(m, c, 5, 4);
      var n := Steps(m, c, 5);
      if l.poisoned {
        Refused(n, c);
        StepsAdd(n, c, 3, 1);
        DoneStays(Steps(n, c, 3), c, 1);
      } else {
        ComputesOnce(n, c);
      }
    }
  }

  lemma {:induction false} CountsOutcome(l: Local, c: Choice, success: bool, held: bool)
    requires l.phase == Ending(success, held)
    ensures Steps(l, c, 2) ==
      l.(counters := Then(l.counters, Deactivate, if success then CountCompleted else CountFailed),
         phase := Clearing(held))
  {
    FewSteps(l, c);
  }

  lemma {:induction false} ClosesInterval(l: Local, c: Choice, held: bool)
    requires l.phase == Clearing(held)
    ensures Steps(l, c, 3) ==
      l.(counters := Apply(Then(l.counters, ClearCurrent, StampFinish(c.now)), Bump), phase := Last(held))
  {
    FewSteps(l, c);
  }

  lemma {:induction false} EndsInterval(l: Local, c: Choice, success: bool, held: bool)
    requires l.phase == Ending(success, held)
    ensures Steps(l, c, 5) == l.(counters := AfterEnd(l.counters, success, c.now), phase := Last(held))
  {
    CountsOutcome(l, c, success, held);
    ClosesInterval(Steps(l, c, 2), c, held);
    StepsAdd(l, c, 2, 3);
  }

  /** Six more lead to the end of any request. */
  lemma {:induction false} SixMoreSteps(l: Local, c: Choice)
    requires l.phase == Done || (l.phase == AfterCompute(c.verdict) && l.lock == Some(c.thread))
    ensures l.phase == Done ==> Steps(l, c, 6) == l
    ensures l.phase != Done ==>
              Steps(l, c, 6) == Local(AfterEnd(l.counters, c.verdict == Succeeds, c.now), None, l.poisoned, Done)
  {
    FewSteps(l, c);
    if l.phase == Done {
      DoneStays(l, c, 6);
    } else if c.verdict == Panics {
      EndsInterval(l, c, false, true);
      StepsAdd(l, c, 5, 1);
      FewSteps(Steps(l, c, 5), c);
    } else {
      EndsInterval(Steps(l, c, 1), c, c.verdict == Succeeds, false);
      StepsAdd(l, c, 1, 5);
    }
  }

  lemma {:induction false} LocalIsHandled(l: Local, t: nat, fate: Fate)
    requires l.phase == New && l.lock == None && Possible(l.poisoned, fate)
    ensures Steps(Steps(l, Early(t, fate), 11), Late(t, fate), 6)
         == Local(Handled(l.counters, fate), None, l.poisoned || (fate.Computes? && fate.verdict == Panics), Done)
  {
    ElevenSteps(l, Early(t, fate));
    SixMoreSteps(Steps(l, Early(t, fate), 11), Late(t, fate));
  }

  /** A thread that nobody disturbs leaves the counters that `handle_compute` promises of one request. */
  lemma {:induction false} AloneIsHandled(s: System, t: nat, fate: Fate) returns (schedule: seq<Choice>)
    requires t < |s.phases| && s.phases[t] == New && s.lock == None && Possible(s.poisoned, fate)
    ensures Fits(schedule, |s.phases|) && forall i :: 0 <= i < |schedule| ==> schedule[i].thread == t
    ensures var r := Run(s, schedule);
            && r.counters == Handled(s.counters, fate)
            && r.phases == s.phases[t := Done] && r.lock == None
            && (r.poisoned <==> s.poisoned || (fate.Computes? && fate.verdict == Panics))
  {
    schedule := RunTwice(s, Early(t, fate), 11, Late(t, fate), 6);
    LocalIsHandled(View(s, t), t, fate);
  }

  lemma {:induction false} RunTwice(s: System, first: Choice, i: nat, second: Choice, j: nat)
    returns (schedule: seq<Choice>)
    requires first.thread == second.thread < |s.phases|
    ensures Fits(schedule, |s.phases|) && forall k :: 0 <= k < |schedule| ==> schedule[k].thread == first.thread
    ensures var r, t := Run(s, schedule), first.thread;
            && View(r, t) == Steps(Steps(View(s, t), first, i), second, j)
            && r.phases == s.phases[t := r.phases[t]]
  {
    RunTimes(s, first, i);
    RunTimes(Run(s, Repeat(first, i)), second, j);
    RunConcat(s, Repeat(first, i), Repeat(second, j));
    schedule := Repeat(first, i) + Repeat(second, j);
  }

  /** The first `m` threads are past the unlock and the others have not started. */
  ghost predicate Parked(s: System, m: nat) {
    && s.lock == None && !s.poisoned
    && forall t :: 0 <= t < |s.phases| ==> s.phases[t] == if t < m then Ending(true, false) else New
  }

  lemma {:induction false} ParkOne(s: System, m: nat) returns (more: seq<Choice>)
    requires Parked(s, m) && m < |s.phases|
    ensures Fits(more, |s.phases|) && Parked(Run(s, more), m + 1)
  {
    more := RunUntil(s, m, 12);
  }

  lemma {:induction false} RunUntil(s: System, t: nat, k: nat) returns (more: seq<Choice>)
    requires t < |s.phases| && s.phases[t] == New && s.lock == None && !s.poisoned
    ensures Fits(more, |s.phases|)
    ensures var r := Run(s, more);
            r.phases == s.phases[t := Path(k)] && r.lock == PathLock(k, t) && !r.poisoned
  {
    RunAlone(s, t, k);
    more := Repeat(Solo(t), k);
  }

  /** A thread past the unlock stays counted as active while others compute: the active counter can
      reach any number of threads. */
  lemma {:induction false} ActiveReaches(n: nat, m: nat) returns (schedule: seq<Choice>)
    requires m <= n < U64
    ensures Fits(schedule, n) && Parked(Run(Start(n), schedule), m)
  {
    schedule := [];
    if m > 0 {
      var before := ActiveReaches(n, m - 1);
      var more := ParkOne(Run(Start(n), before), m - 1);
      RunConcat(Start(n), before, more);
      schedule := before + more;
    }
  }

  /** So "at most one active" is not an invariant of the counter. */
  lemma {:induction false} ActiveIsUnbounded(n: nat) returns (schedule: seq<Choice>)
    requires n < U64
    ensures Fits(schedule, n) && Run(Start(n), schedule).counters.active == n
  {
    schedule := ActiveReaches(n, n);
    CountersAreExact(n, schedule);
    AllCounted(Active, Run(Start(n), schedule).phases);
  }

  lemma {:induction false} AllCounted(p: Phase -> bool, phases: seq<Phase>)
    requires forall t :: 0 <= t < |phases| ==> p(phases[t])
    ensures Count(p, phases) == |phases|
  {
    if phases != [] { AllCounted(p, phases[1..]); }
  }

  /** Past the unlock and still counted as active. */
  predicate SigningOff(p: Phase) {
    p.Ending? && !p.held
  }

  /** Active with the lock in hand. */
  predicate ActiveHolder(p: Phase) {
    Active(p) && HoldsLock(p)
  }

  /** The lock holder is in an active phase. */
  predicate HolderIsActive(s: System) {
    s.lock.Some? && s.lock.value < |s.phases| && Active(s.phases[s.lock.value])
  }

  lemma {:induction false} SplitActive(phases: seq<Phase>)
    ensures Count(Active, phases) == Count(SigningOff, phases) + Count(ActiveHolder, phases)
  {
    if phases != [] { SplitActive(phases[1..]); }
  }

  lemma {:induction false} CountOne(p: Phase -> bool, phases: seq<Phase>, i: nat)
    requires i < |phases| && forall j :: 0 <= j < |phases| && p(phases[j]) ==> j == i
    ensures Count(p, phases) == Unit(p(phases[i]))
  {
    if i == 0 {
      assert forall j :: 0 <= j < |phases[1..]| ==> phases[1..][j] == phases[j + 1];
      CountNone(p, phases[1..]);
    } else {
      assert forall j :: 0 <= j < |phases[1..]| ==> phases[1..][j] == phases[j + 1];
      CountOne(p, phases[1..], i - 1);
    }
  }

  lemma {:induction false} ActiveHolders(s: System)
    requires Sound(s)
    ensures Count(ActiveHolder, s.phases) == Unit(HolderIsActive(s))
  {
    if s.lock.Some? {
      CountOne(ActiveHolder, s.phases, s.lock.value);
    } else {
      CountNone(ActiveHolder, s.phases);
    }
  }

  /** The counter is exact about overlap: the threads past the unlock that have not signed off, and the
      lock holder if it is in an active phase. */
  lemma {:induction false} ActiveIsExact(n: nat, schedule: seq<Choice>)
    requires n < U64 && Fits(schedule, n)
    ensures var s := Run(Start(n), schedule);
            s.counters.active == Count(SigningOff, s.phases) + Unit(HolderIsActive(s))
  {
    RunIsSound(n, schedule);
    SplitActive(Run(Start(n), schedule).phases);
    ActiveHolders(Run(Start(n), schedule));
  }

  ghost predicate NeverAboveOne(n: nat) {
    forall schedule :: Fits(schedule, n) ==> Run(Start(n), schedule).counters.active <= 1
  }

  /** "At most one active" holds of every run exactly when there is at most one handler thread. */
  lemma {:induction false} AtMostOneActive(n: nat)
    requires n < U64
    ensures NeverAboveOne(n) <==> n <= 1
  {
    if n <= 1 {
      forall schedule | Fits(schedule, n) ensures Run(Start(n), schedule).counters.active <= 1 {
        CountersAreExact(n, schedule);
      }
    } else {
      var schedule := ActiveIsUnbounded(n);
    }
  }

  lemma {:induction false} RunOnce(s: System, c: Choice)
    requires c.thread < |s.phases|
    ensures Run(s, [c]) == Step(s, c)
  {
    assert Run(s, [c]) == Run(Step(s, c), [c][1..]) == Step(s, c);
  }

  /** An idle report while a thread computes: it waits at the first load and has the GPU at the second. */
  lemma {:induction false} IdleWhileComputing(s: System) returns (before: seq<Choice>, between: seq<Choice>)
    requires s == Start(1)
    ensures Fits(before, 1) && Fits(between, 1)
    ensures var first := Run(s, before); var second := Run(first, between);
            ReadsIdle(first, second) && second.phases[0] == Computing
  {
    before := RunUntil(s, 0, 4);
    var first := Run(s, before);
    between := RunOn(first, 0, 4, 6);
    var second := Run(first, between);
    RunIsSound(1, before);
    RunConcat(s, before, between);
    RunIsSound(1, before + between);
    NothingCounted(first);
    NothingCounted(second);
  }

  /** A thread on the path goes on along it. */
  lemma {:induction false} RunOn(s: System, t: nat, k: nat, more: nat) returns (schedule: seq<Choice>)
    requires t < |s.phases| && s.phases[t] == Path(k) && s.lock == PathLock(k, t) && !s.poisoned
    ensures Fits(schedule, |s.phases|)
    ensures var r := Run(s, schedule);
            r.phases == s.phases[t := Path(k + more)] && r.lock == PathLock(k + more, t) && !r.poisoned
    decreases more
  {
    if more == 0 {
      schedule := [];
      assert s.phases[t := Path(k)] == s.phases;
    } else {
      StepOn(s, t, k);
      var rest := RunOn(Step(s, Solo(t)), t, k + 1, more - 1);
      RunOnce(s, Solo(t));
      RunConcat(s, [Solo(t)], rest);
      schedule := [Solo(t)] + rest;
    }
  }

  lemma {:induction false} StepOn(s: System, t: nat, k: nat)
    requires t < |s.phases| && s.phases[t] == Path(k) && s.lock == PathLock(k, t) && !s.poisoned
    ensures var r := Step(s, Solo(t));
            r.phases == s.phases[t := Path(k + 1)] && r.lock == PathLock(k + 1, t) && !r.poisoned
  {
    PathStep(k, t);
  }

  // ---------- when an idle report is true ----------

  /** The active interval of the thread is still to come, unless it is refused. */
  predicate Unadmitted(p: Phase) {
    match p
    case New | Parsing | JoiningQueue | JoinedQueue | Waiting | Leaving(_) | Left(_) | Starting => true
    case _ => false
  }

  /** What a phase knows about the poisoning of the lock: threads take note of it when they get the lock,
      and those that compute or sign off normally have not met it. */
  predicate KnowsPoison(p: Phase, poisoned: bool) {
    match p
    case Leaving(seen) => seen == poisoned
    case Left(seen) => seen == poisoned
    case Starting | Started | Announcing | Computing | Unlocking(_) => !poisoned
    case _ => HoldsLock(p) ==> poisoned
  }

  ghost predicate PoisonExact(s: System) {
    LockExact(s) && forall t :: 0 <= t < |s.phases| ==> KnowsPoison(s.phases[t], s.poisoned)
  }

  lemma {:induction false} OwnPoison(p: Phase, free: bool, poisoned: bool, c: Choice)
    requires KnowsPoison(p, poisoned)
    ensures KnowsPoison(NextPhase(p, free, poisoned, c), poisoned || (p == Computing && c.verdict == Panics))
  {
  }

  lemma {:induction false} PoisonStep(s: System, c: Choice)
    requires c.thread < |s.phases| && PoisonExact(s)
    ensures PoisonExact(Step(s, c))
  {
    LockStep(s, c);
    OwnPoison(s.phases[c.thread], s.lock.None?, s.poisoned, c);
  }

  lemma {:induction false} PoisonRun(s: System, schedule: seq<Choice>)
    requires Fits(schedule, |s.phases|) && PoisonExact(s)
    ensures PoisonExact(Run(s, schedule))
    decreases |schedule|
  {
    if schedule != [] {
      PoisonStep(s, schedule[0]);
      PoisonRun(Step(s, schedule[0]), schedule[1..]);
    }
  }

  /** The thread can still get to compute: its active interval is to come and the lock is not poisoned. */
  predicate CanBeAdmitted(s: System, t: nat)
    requires t < |s.phases|
  {
    Unadmitted(s.phases[t]) && !s.poisoned
  }

  /** No thread is active and none can be admitted any more. */
  ghost predicate Settled(s: System) {
    forall t :: 0 <= t < |s.phases| ==> !Active(s.phases[t]) && !CanBeAdmitted(s, t)
  }

  lemma {:induction false} SettledStep(s: System, c: Choice)
    requires c.thread < |s.phases| && PoisonExact(s) && Settled(s)
    ensures Settled(Step(s, c))
  {
    assert KnowsPoison(s.phases[c.thread], s.poisoned) && !CanBeAdmitted(s, c.thread);
  }

  lemma {:induction false} SettledRun(s: System, schedule: seq<Choice>)
    requires Fits(schedule, |s.phases|) && PoisonExact(s) && Settled(s)
    ensures Settled(Run(s, schedule))
    decreases |schedule|
  {
    if schedule != [] {
      SettledStep(s, schedule[0]);
      PoisonStep(s, schedule[0]);
      SettledRun(Step(s, schedule[0]), schedule[1..]);
    }
  }

  /** With the lock free or its own, an unadmitted thread is somewhere on the path. */
  lemma {:induction false} OnPath(s: System, t: nat) returns (k: nat)
    requires t < |s.phases| && PoisonExact(s) && CanBeAdmitted(s, t) && (s.lock == None || s.lock == Some(t))
    ensures k <= 7 && s.phases[t] == Path(k) && s.lock == PathLock(k, t)
  {
    assert KnowsPoison(s.phases[t], s.poisoned);
    match s.phases[t]
    case New => k := 0;
    case Parsing => k := 1;
    case JoiningQueue => k := 2;
    case JoinedQueue => k := 3;
    case Waiting => k := 4;
    case Leaving(_) => k := 5;
    case Left(_) => k := 6;
    case Starting => k := 7;
  }

  /** While nobody is active and the lock is not poisoned, only an unadmitted thread can have the lock. */
  lemma {:induction false} NextInLine(s: System, u: nat) returns (t: nat)
    requires Sound(s) && PoisonExact(s) && u < |s.phases| && CanBeAdmitted(s, u)
    requires forall v :: 0 <= v < |s.phases| ==> !Active(s.phases[v])
    ensures t < |s.phases| && CanBeAdmitted(s, t) && (s.lock == None || s.lock == Some(t))
  {
    t := if s.lock.None? then u else s.lock.value;
    assert KnowsPoison(s.phases[t], s.poisoned);
  }

  lemma {:induction false} RunIsTame(s: System, schedule: seq<Choice>)
    requires |s.phases| < U64 && Sound(s) && PoisonExact(s) && Fits(schedule, |s.phases|)
    ensures Sound(Run(s, schedule)) && PoisonExact(Run(s, schedule))
  {
    RunKeeps(s, schedule);
    HolderBound(s, schedule);
    PoisonRun(s, schedule);
  }

  /** The thread whose turn it is runs to its end. */
  lemma {:induction false} ServeOne(s: System, t: nat, k: nat) returns (schedule: seq<Choice>)
    requires |s.phases| < U64 && Sound(s) && PoisonExact(s) && t < |s.phases| && Unadmitted(s.phases[t])
    requires k <= 7 && s.phases[t] == Path(k) && s.lock == PathLock(k, t) && !s.poisoned
    ensures Fits(schedule, |s.phases|)
    ensures var r := Run(s, schedule);
            && Sound(r) && PoisonExact(r) && !r.poisoned && r.phases == s.phases[t := Done]
            && Count(Unadmitted, r.phases) < Count(Unadmitted, s.phases)
  {
    schedule := RunOn(s, t, k, 17 - k);
    RunIsTame(s, schedule);
    CountUpdate(Unadmitted, s.phases, t, Done);
  }

  /** The last thread to be served is stopped at its computation. */
  lemma {:induction false} ServeLast(s: System, t: nat, k: nat) returns (schedule: seq<Choice>)
    requires t < |s.phases| && forall v :: 0 <= v < |s.phases| && v != t ==> !Unadmitted(s.phases[v])
    requires k <= 7 && s.phases[t] == Path(k) && s.lock == PathLock(k, t) && !s.poisoned
    ensures Fits(schedule, |s.phases|)
    ensures var r := Run(s, schedule);
            r.phases[t] == Computing && forall v :: 0 <= v < |s.phases| ==> !Queued(r.phases[v])
  {
    schedule := RunOn(s, t, k, 10 - k);
    assert Path(10) == Computing;
  }

  /** While some thread can be admitted, all of them but one can be served, and that one stopped at its
      computation: nobody is queued and one thread computes. */
  lemma {:induction false} ServeAllButOne(s: System, u: nat) returns (schedule: seq<Choice>, last: nat)
    requires |s.phases| < U64 && Sound(s) && PoisonExact(s) && u < |s.phases| && CanBeAdmitted(s, u)
    requires forall v :: 0 <= v < |s.phases| ==> !Active(s.phases[v])
    ensures Fits(schedule, |s.phases|) && last < |s.phases|
    ensures var r := Run(s, schedule);
            r.phases[last] == Computing && forall v :: 0 <= v < |s.phases| ==> !Queued(r.phases[v])
    decreases Count(Unadmitted, s.phases)
  {
    var t := NextInLine(s, u);
    var k := OnPath(s, t);
    if v :| 0 <= v < |s.phases| && v != t && Unadmitted(s.phases[v]) {
      var first := ServeOne(s, t, k);
      var rest;
      rest, last := ServeAllButOne(Run(s, first), v);
      RunConcat(s, first, rest);
      schedule := first + rest;
    } else {
      schedule := ServeLast(s, t, k);
      last := t;
    }
  }

  /** Whatever happens between the loads, a reader that loads the active count in this state and reads
      idle is right: no thread is active at the second load. */
  ghost predicate IdleIsTrue(first: System) {
    forall between :: Fits(between, |first.phases|) ==>
      var second := Run(first, between);
      ReadsIdle(first, second) ==> forall t :: 0 <= t < |first.phases| ==> !Active(second.phases[t])
  }

  /** An idle report that loads a zero active count is sure to be true exactly if, at that load, the lock
      is poisoned or no thread is still on its way to the GPU. */
  lemma {:induction false} IdleReportIsTrue(n: nat, before: seq<Choice>)
    requires n < U64 && Fits(before, n) && Run(Start(n), before).counters.active == 0
    ensures var first := Run(Start(n), before);
            IdleIsTrue(first) <==> forall t :: 0 <= t < n ==> !CanBeAdmitted(first, t)
  {
    var first := Run(Start(n), before);
    RunIsSound(n, before);
    StartIsTruthful(n);
    PoisonRun(Start(n), before);
    NothingCounted(first);
    if t :| 0 <= t < n && CanBeAdmitted(first, t) {
      var between, last := ServeAllButOne(first, t);
      RunIsTame(first, between);
      NothingCounted(Run(first, between));
    } else {
      forall between | Fits(between, n) ensures Settled(Run(first, between)) {
        SettledRun(first, between);
      }
    }
  }

  // ---------- the start time of the running job ----------

  /** Past the unlock, with the clearing of the start time still to come. */
  predicate WillClear(p: Phase) {
    match p
    case Ending(_, held) => !held
    case Counting(_, held) => !held
    case Clearing(held) => !held
    case _ => false
  }

  /** Between the setting of the start time and the end of the computation. */
  predicate Running(p: Phase) {
    p == Announcing || p == Computing
  }

  /** Past the computation; such a thread never runs again. */
  predicate Over(p: Phase) {
    match p
    case Unlocking(_) | Ending(_, _) | Counting(_, _) | Clearing(_) | Stamping(_) | Announced(_) => true
    case Releasing | Done => true
    case _ => false
  }

  /** After thread `t` sets its start time, it is shown in every continuation as long as `t` runs. */
  ghost predicate StartIsKept(s: System, c: Choice)
    requires c.thread < |s.phases|
  {
    forall schedule :: Fits(schedule, |s.phases|) ==>
      var r := Run(Step(s, c), schedule);
      Running(r.phases[c.thread]) ==> r.counters.current == Some(c.now)
  }

  /** What keeps the start time: `t` has the lock, and no other thread is about to clear. */
  ghost predicate Kept(s: System, t: nat, now: u64) {
    && t < |s.phases| && LockExact(s)
    && (Over(s.phases[t])
        || (Running(s.phases[t]) && s.counters.current == Some(now)
            && forall u :: 0 <= u < |s.phases| && u != t ==> !WillClear(s.phases[u])))
  }

  lemma {:induction false} KeptStep(s: System, t: nat, now: u64, c: Choice)
    requires Kept(s, t, now) && c.thread < |s.phases|
    ensures Kept(Step(s, c), t, now)
  {
    LockStep(s, c);
    var p := s.phases[c.thread];
    if !Over(s.phases[t]) && c.thread != t {
      assert !HoldsLock(p);
      OthersKeepClear(p, s.lock.None?, s.poisoned, c);
    }
  }

  /** A thread without the lock that is not about to clear neither sets nor clears the start time, nor
      gets about to clear it. */
  lemma {:induction false} OthersKeepClear(p: Phase, free: bool, poisoned: bool, c: Choice)
    requires !HoldsLock(p) && !WillClear(p)
    ensures !WillClear(NextPhase(p, free, poisoned, c))
    ensures Effect(p, c) != Some(ClearCurrent) && Effect(p, c) != Some(SetCurrent(c.now))
    ensures forall counters: Counters :: Effect(p, c).Some? ==>
              Apply(counters, Effect(p, c).value).current == counters.current
  {
  }

  lemma {:induction false} KeptRun(s: System, t: nat, now: u64, schedule: seq<Choice>)
    requires Kept(s, t, now) && Fits(schedule, |s.phases|)
    ensures Kept(Run(s, schedule), t, now)
    decreases |schedule|
  {
    if schedule != [] {
      KeptStep(s, t, now, schedule[0]);
      KeptRun(Step(s, schedule[0]), t, now, schedule[1..]);
    }
  }

  /** A thread about to clear can do so at once. */
  lemma {:induction false} ClearNow(s: System, u: nat) returns (schedule: seq<Choice>)
    requires u < |s.phases| && WillClear(s.phases[u])
    ensures Fits(schedule, |s.phases|)
    ensures var r := Run(s, schedule);
            r.counters.current == None && forall t :: 0 <= t < |s.phases| && t != u ==> r.phases[t] == s.phases[t]
    decreases if s.phases[u].Ending? then 2 else if s.phases[u].Counting? then 1 else 0
  {
    var c := Solo(u);
    RunOnce(s, c);
    if s.phases[u].Clearing? {
      schedule := [c];
    } else {
      var rest := ClearNow(Step(s, c), u);
      RunConcat(s, [c], rest);
      schedule := [c] + rest;
    }
  }

  /** The start time of a job is kept while it runs exactly if, when it is set, no other thread past
      its unlock has yet to clear it. */
  lemma {:induction false} StartKeptExactly(n: nat, schedule: seq<Choice>, c: Choice)
    requires n < U64 && Fits(schedule, n) && c.thread < n
    requires Run(Start(n), schedule).phases[c.thread] == Started
    ensures var s := Run(Start(n), schedule);
            StartIsKept(s, c) <==> forall u :: 0 <= u < n && u != c.thread ==> !WillClear(s.phases[u])
  {
    RunIsSound(n, schedule);
    var s := Run(Start(n), schedule);
    var next := Step(s, c);
    LockStep(s, c);
    if forall u :: 0 <= u < n && u != c.thread ==> !WillClear(s.phases[u]) {
      assert Kept(next, c.thread, c.now);
      forall more | Fits(more, n)
        ensures var r := Run(next, more);
                Running(r.phases[c.thread]) ==> r.counters.current == Some(c.now)
      {
        KeptRun(next, c.thread, c.now, more);
      }
    } else {
      var u :| 0 <= u < n && u != c.thread && WillClear(s.phases[u]);
      var more := ClearNow(next, u);
      assert Running(Run(next, more).phases[c.thread]);
    }
  }

  /** Such a late thread exists: with two threads the start time of a running job can be lost. */
  lemma {:induction false} CurrentCanBeLost(s: System, c: Choice) returns (schedule: seq<Choice>)
    requires s == Start(2) && c == Solo(1)
    ensures Fits(schedule, 2)
    ensures Run(s, schedule).phases[1] == Started && !StartIsKept(Run(s, schedule), c)
  {
    var first := RunUntil(s, 0, 12);
    var s1 := Run(s, first);
    var second := RunUntil(s1, 1, 8);
    RunConcat(s, first, second);
    schedule := first + second;
    assert WillClear(Run(s, schedule).phases[0]);
    StartKeptExactly(2, schedule, c);
  }
}
