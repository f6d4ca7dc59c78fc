/** The daemon's occupancy counters, and one request handled on its own. */
module RuntimeCounters {
  import opened Options
  import opened MachineInts

  /** The counters behind the status report. */
  datatype Counters = Counters(
    total: u64, queued: u64, active: u64, completed: u64, failed: u64, transitions: u64,
    current: Option<u64>, lastFinished: u64)

  const ZEROED := Counters(0, 0, 0, 0, 0, 0, None, 0)

  /** The atomic operations. */
  datatype Atomic =
    | CountRequest | JoinQueue | LeaveQueue | Activate | Deactivate
    | CountCompleted | CountFailed | Bump
    | SetCurrent(started: u64) | ClearCurrent | StampFinish(at: u64)

  /** Atomic counters wrap around. */
  function Increment(x: u64): u64 { if x == U64 - 1 then 0 else x + 1 }
  function Decrement(x: u64): u64 { if x == 0 then U64 - 1 else x - 1 }

  function Apply(c: Counters, op: Atomic): Counters {
    match op
    case CountRequest => c.(total := Increment(c.total))
    case JoinQueue => c.(queued := Increment(c.queued))
    case LeaveQueue => c.(queued := Decrement(c.queued))
    case Activate => c.(active := Increment(c.active))
    case Deactivate => c.(active := Decrement(c.active))
    case CountCompleted => c.(completed := Increment(c.completed))
    case CountFailed => c.(failed := Increment(c.failed))
    case Bump => c.(transitions := Increment(c.transitions))
    case SetCurrent(started) => c.(current := Some(started))
    case ClearCurrent => c.(current := None)
    case StampFinish(at) => c.(lastFinished := at)
  }

  function Then(c: Counters, first: Atomic, second: Atomic): Counters {
    Apply(Apply(c, first), second)
  }

  function AfterStart(c: Counters, now: u64): Counters {
    Apply(Then(c, Activate, SetCurrent(now)), Bump)
  }

  function AfterEnd(c: Counters, success: bool, now: u64): Counters {
    var counted := Then(c, Deactivate, if success then CountCompleted else CountFailed);
    Apply(Then(counted, ClearCurrent, StampFinish(now)), Bump)
  }

  /** An active interval leaves the occupancy as it was and adds one outcome. */
  lemma {:induction false} IntervalBalances(c: Counters, success: bool, begun: u64, ended: u64)
    ensures var after := AfterEnd(AfterStart(c, begun), success, ended);
            && after.total == c.total && after.queued == c.queued && after.active == c.active
            && after.completed == (if success then Increment(c.completed) else c.completed)
            && after.failed == (if success then c.failed else Increment(c.failed))
            && after.current == None && after.lastFinished == ended
  {
  }

  class RuntimeState {
    var total: u64
    var queued: u64
    var active: u64
    var completed: u64
    var failed: u64
    var transitions: u64
    var current: Option<u64>
    var lastFinished: u64

    constructor ()
      ensures Values() == ZEROED
    {
      total, queued, active, completed, failed, transitions := 0, 0, 0, 0, 0, 0;
      current, lastFinished := None, 0;
    }

    function Values(): Counters
      reads this
    {
      Counters(total, queued, active, completed, failed, transitions, current, lastFinished)
    }

    method BumpTransitions()
      modifies this
      ensures Values() == Apply(old(Values()), Bump)
    {
      transitions := Increment(transitions);
    }

    method BeginRequest() returns (id: u64)
      modifies this
      ensures Values() == Apply(old(Values()), CountRequest)
      ensures id == Increment(old(total))
    {
      total := Increment(total);
      id := total;
    }

    method EnterQueue()
      modifies this
      ensures Values() == Then(old(Values()), JoinQueue, Bump)
    {
      queued := Increment(queued);
      BumpTransitions();
    }

    method ExitQueue()
      modifies this
      ensures Values() == Then(old(Values()), LeaveQueue, Bump)
    {
      queued := Decrement(queued);
      BumpTransitions();
    }

    method BeginActive(now: u64)
      modifies this
      ensures Values() == AfterStart(old(Values()), now)
    {
      active := Increment(active);
      current := Some(now);
      BumpTransitions();
    }

    method FinishActive(success: bool, now: u64)
      modifies this
      ensures Values() == AfterEnd(old(Values()), success, now)
    {
      active := Decrement(active);
      if success { completed := Increment(completed); } else { failed := Increment(failed); }
      current := None;
      lastFinished := now;
      BumpTransitions();
    }

    method RecordFailedRequest()
      modifies this
      ensures Values() == Then(old(Values()), CountFailed, Bump)
    {
      failed := Increment(failed);
      BumpTransitions();
    }
  }

  /** The guard whose drop ends the active interval. */
  class ActiveGuard {
    const state: RuntimeState
    var success: bool

    constructor (state: RuntimeState, now: u64)
      modifies state
      ensures this.state == state && !success
      ensures state.Values() == AfterStart(old(state.Values()), now)
    {
      this.state, success := state, false;
      new;
      state.BeginActive(now);
    }

    method MarkSuccess()
      modifies this
      ensures success
    {
      success := true;
    }

    method Drop(now: u64)
      modifies state
      ensures state.Values() == AfterEnd(old(state.Values()), success, now)
    {
      state.FinishActive(success, now);
    }
  }

  /** What the environment decides about a request: whether it parses, whether the GPU lock is found
      poisoned, and how the computation ends. */
  datatype Verdict = Succeeds | Fails | Panics
  datatype Fate = Unparsed | Poisoned | Computes(verdict: Verdict, begun: u64, ended: u64)

  function Queueing(c: Counters): Counters {
    Then(Then(Apply(c, CountRequest), JoinQueue, Bump), LeaveQueue, Bump)
  }

  /** The counters after a whole request. */
  function Handled(c: Counters, fate: Fate): Counters {
    match fate
    case Unparsed => Then(Apply(c, CountRequest), CountFailed, Bump)
    case Poisoned => Then(Queueing(c), CountFailed, Bump)
    case Computes(verdict, begun, ended) =>
      AfterEnd(AfterStart(Queueing(c), begun), verdict == Succeeds, ended)
  }

  /** How often a request bumps the transition counter. */
  function Bumps(fate: Fate): nat {
    match fate
    case Unparsed => 1
    case Poisoned => 3
    case Computes(_, _, _) => 4
  }

  /** A whole request counts itself and one outcome, and leaves the occupancy as it was. */
  lemma {:induction false} HandledFields(c: Counters, fate: Fate)
    ensures var after, success := Handled(c, fate), fate.Computes? && fate.verdict == Succeeds;
            && after.total == Increment(c.total)
            && after.queued == c.queued && after.active == c.active
            && after.completed == (if success then Increment(c.completed) else c.completed)
            && after.failed == (if success then c.failed else Increment(c.failed))
            && after.transitions == (c.transitions + Bumps(fate)) % U64
            && after.current == (if fate.Computes? then None else c.current)
            && after.lastFinished == (if fate.Computes? then fate.ended else c.lastFinished)
  {
    BumpsAdd(c.transitions);
  }

  lemma {:induction false} BumpsAdd(x: u64)
    ensures Increment(x) == (x + 1) % U64
    ensures Increment(Increment(Increment(x))) == (x + 3) % U64
    ensures Increment(Increment(Increment(Increment(x)))) == (x + 4) % U64
  {
  }

  /** `handle_compute` without interference: one request more, one outcome more, and the occupancy as
      before; the answer is the HTTP status, 0 when the thread dies. */
  method HandleAlone(state: RuntimeState, fate: Fate) returns (status: nat)
    modifies state
    ensures status == 200 <==> fate.Computes? && fate.verdict == Succeeds
    ensures var before, after := old(state.Values()), state.Values();
            && after.total == Increment(before.total)
            && after.queued == before.queued && after.active == before.active
            && after.completed == (if status == 200 then Increment(before.completed) else before.completed)
            && after.failed == (if status == 200 then before.failed else Increment(before.failed))
            && after.transitions == (before.transitions + Bumps(fate)) % U64
            && after.current == (if fate.Computes? then None else before.current)
            && after.lastFinished == (if fate.Computes? then fate.ended else before.lastFinished)
    ensures state.Values() == Handled(old(state.Values()), fate)
  {
    HandledFields(state.Values(), fate);
    var id := state.BeginRequest();
    if fate == Unparsed {
      state.RecordFailedRequest();
      return 400;
    }
    state.EnterQueue();
    if fate == Poisoned {
      state.ExitQueue();
      state.RecordFailedRequest();
      return 500;
    }
    state.ExitQueue();
    var guard := new ActiveGuard(state, fate.begun);
    match fate.verdict {
      case Succeeds => guard.MarkSuccess(); status := 200;
      case Fails => status := 500;
      case Panics => status := 0;
    }
    guard.Drop(fate.ended);
  }
}
