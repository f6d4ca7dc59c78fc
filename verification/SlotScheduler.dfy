/** The slot routing policy: ranking of live pools, the placement decision, and why migration stops. */
module SlotScheduler {
  import opened Options
  import opened TextOrder

  datatype Pool = Pool(
    poolId: string, node: string, capabilities: set<string>,
    profile: string, accessibilityRank: int, controlled: set<string>, surfaces: set<string>,
    slotsTotal: int, slotsQueued: int, slotsAvailable: int,
    healthy: bool, live: bool, skewMs: int, rttMs: Option<int>)

  datatype State = Queued | Running | Checkpointing

  /** Preference weights are kept in the order of the mapping. */
  datatype Work = Work(
    goalId: string, workId: string,
    requirements: set<string>, control: set<string>, acceptable: set<string>,
    weights: seq<(string, int)>, checkpointable: bool, state: State,
    current: Option<string>, minGain: int)

  datatype Action = Place | Migrate | Stay | StayUntilBoundary | Wait

  datatype Reason =
    | NoSurface | BestAvailable | NoObservation | NoCandidate | CurrentIsBest
    | BelowHysteresis(gain: int) | NotCheckpointable | CurrentDegraded | Better(gain: int)

  datatype Decision = Decision(action: Action, origin: Option<string>, target: Option<string>, reason: Reason)

  const UNFIT := -0x8000_0000
  const NO_RTT := 0x7FFF_FFFF

  // ---------- compatibility and suitability ----------

  /** What a pool can do, whatever its load. */
  datatype Profile = Profile(capabilities: set<string>, profile: string, controlled: set<string>, surfaces: set<string>)

  function ProfileOf(p: Pool): Profile {
    Profile(p.capabilities, p.profile, p.controlled, p.surfaces)
  }

  predicate SpawnCompatible(f: Profile, control: set<string>, acceptable: set<string>) {
    && f.profile != "none" && f.surfaces != {}
    && control <= f.controlled
    && (acceptable == {} || f.surfaces * acceptable != {})
  }

  predicate FitFor(w: Work, f: Profile) {
    w.requirements <= f.capabilities && SpawnCompatible(f, w.control, w.acceptable)
  }

  predicate Compatible(w: Work, p: Pool) {
    FitFor(w, ProfileOf(p))
  }

  function Score(weights: seq<(string, int)>, capabilities: set<string>): int {
    if weights == [] then 0
    else (if weights[0].0 in capabilities then weights[0].1 else 0) + Score(weights[1..], capabilities)
  }

  /** `suitability_score`; `None` is its exception. */
  function Suitability(w: Work, p: Pool): Option<int> {
    if Compatible(w, p) then Some(Score(w.weights, p.capabilities)) else None
  }

  predicate Eligible(w: Work, p: Pool) {
    p.healthy && p.live && p.slotsAvailable > 0 && Compatible(w, p)
  }

  // ---------- the ranking ----------

  function Max(x: int, y: int): int { if x >= y then x else y }
  function Abs(x: int): int { if x < 0 then -x else x }

  function Pressure(p: Pool): real {
    p.slotsQueued as real / Max(1, p.slotsTotal) as real
  }

  function Rtt(p: Pool): int {
    match p.rttMs case Some(ms) => ms case None => NO_RTT
  }

  /** The sort key, most significant part first. */
  datatype Key = Key(cost: int, rank: int, pressure: real, rtt: int, skew: int, node: string, poolId: string)

  function KeyOf(w: Work, p: Pool): Key {
    Key(-Score(w.weights, p.capabilities), p.accessibilityRank, Pressure(p), Rtt(p), Abs(p.skewMs), p.node, p.poolId)
  }

  predicate NumbersLess(x: Key, y: Key) {
    x.cost < y.cost || (x.cost == y.cost &&
      (x.rank < y.rank || (x.rank == y.rank &&
        (x.pressure < y.pressure || (x.pressure == y.pressure &&
          (x.rtt < y.rtt || (x.rtt == y.rtt && x.skew < y.skew)))))))
  }

  predicate SameNumbers(x: Key, y: Key) {
    x.cost == y.cost && x.rank == y.rank && x.pressure == y.pressure && x.rtt == y.rtt && x.skew == y.skew
  }

  predicate KeyLess(x: Key, y: Key) {
    NumbersLess(x, y)
    || (SameNumbers(x, y) && (TextLess(x.node, y.node) || (x.node == y.node && TextLess(x.poolId, y.poolId))))
  }

  /** A stable insertion: after everything that is not greater. */
  function Insert(w: Work, p: Pool, s: seq<Pool>): (r: seq<Pool>)
    ensures multiset(r) == multiset(s) + multiset{p}
  {
    if s == [] then [p]
    else
      var n := |s| - 1;
      assert s == s[..n] + [s[n]];
      if KeyLess(KeyOf(w, p), KeyOf(w, s[n])) then Insert(w, p, s[..n]) + [s[n]] else s + [p]
  }

  /** `rank_slot_pools`: the eligible pools, sorted by key. */
  function Ranked(w: Work, pools: seq<Pool>): seq<Pool> {
    if pools == [] then []
    else
      var n := |pools| - 1;
      var before := Ranked(w, pools[..n]);
      if Eligible(w, pools[n]) then Insert(w, pools[n], before) else before
  }

  ghost predicate Ascends(w: Work, s: seq<Pool>) {
    forall i, j :: 0 <= i < j < |s| ==> !KeyLess(KeyOf(w, s[j]), KeyOf(w, s[i]))
  }

  lemma {:induction false} KeyOrder(x: Key, y: Key, z: Key)
    ensures !KeyLess(x, x)
    ensures KeyLess(x, y) && KeyLess(y, z) ==> KeyLess(x, z)
    ensures x == y || KeyLess(x, y) || KeyLess(y, x)
  {
    TextIrreflexive(x.node);
    TextIrreflexive(x.poolId);
    TextTotal(x.node, y.node);
    TextTotal(x.poolId, y.poolId);
    if TextLess(x.node, y.node) && TextLess(y.node, z.node) { TextTransitive(x.node, y.node, z.node); }
    if TextLess(x.poolId, y.poolId) && TextLess(y.poolId, z.poolId) { TextTransitive(x.poolId, y.poolId, z.poolId); }
  }

  lemma {:induction false} AscendsAppend(w: Work, s: seq<Pool>, p: Pool)
    requires Ascends(w, s) && forall q :: q in s ==> !KeyLess(KeyOf(w, p), KeyOf(w, q))
    ensures Ascends(w, s + [p])
  {
  }

  lemma {:induction false} InsertAscends(w: Work, p: Pool, s: seq<Pool>)
    requires Ascends(w, s)
    ensures Ascends(w, Insert(w, p, s))
  {
    if s != [] {
      var n := |s| - 1;
      var rest, last := s[..n], s[n];
      if KeyLess(KeyOf(w, p), KeyOf(w, last)) {
        InsertAscends(w, p, rest);
        var r := Insert(w, p, rest);
        forall q | q in r ensures !KeyLess(KeyOf(w, last), KeyOf(w, q)) {
          assert q in multiset(r);
          KeyOrder(KeyOf(w, p), KeyOf(w, last), KeyOf(w, p));
        }
        AscendsAppend(w, r, last);
      } else {
        forall q | q in s ensures !KeyLess(KeyOf(w, p), KeyOf(w, q)) {
          LastIsGreatest(w, s, q);
          KeyOrder(KeyOf(w, p), KeyOf(w, q), KeyOf(w, last));
          KeyOrder(KeyOf(w, q), KeyOf(w, last), KeyOf(w, p));
        }
        AscendsAppend(w, s, p);
      }
    }
  }

  lemma {:induction false} LastIsGreatest(w: Work, s: seq<Pool>, q: Pool)
    requires Ascends(w, s) && q in s
    ensures !KeyLess(KeyOf(w, s[|s| - 1]), KeyOf(w, q))
  {
    var i :| 0 <= i < |s| && s[i] == q;
    KeyOrder(KeyOf(w, q), KeyOf(w, q), KeyOf(w, q));
  }

  /** The ranking holds exactly the eligible pools, as often as they are offered, in key order. */
  lemma {:induction false} RankedSorts(w: Work, pools: seq<Pool>)
    ensures Ascends(w, Ranked(w, pools))
    ensures forall p :: multiset(Ranked(w, pools))[p] == if Eligible(w, p) then multiset(pools)[p] else 0
  {
    if pools != [] {
      var n := |pools| - 1;
      assert pools == pools[..n] + [pools[n]];
      RankedSorts(w, pools[..n]);
      if Eligible(w, pools[n]) { InsertAscends(w, pools[n], Ranked(w, pools[..n])); }
    }
  }

  /** `p` is an eligible pool and none of the eligible ones ranks before it. */
  ghost predicate IsBest(w: Work, pools: seq<Pool>, p: Pool) {
    && p in pools && Eligible(w, p)
    && forall q :: q in pools && Eligible(w, q) ==> !KeyLess(KeyOf(w, q), KeyOf(w, p))
  }

  /** The first of the ranking is the best pool; it is empty when no pool is eligible. */
  lemma {:induction false} FirstIsBest(w: Work, pools: seq<Pool>)
    ensures Ranked(w, pools) == [] <==> forall p :: p in pools ==> !Eligible(w, p)
    ensures Ranked(w, pools) != [] ==> IsBest(w, pools, Ranked(w, pools)[0])
  {
    var r := Ranked(w, pools);
    RankedSorts(w, pools);
    forall p ensures p in r <==> p in pools && Eligible(w, p) {
      assert p in r <==> multiset(r)[p] > 0;
      assert p in pools <==> multiset(pools)[p] > 0;
    }
    if r != [] {
      assert r[0] in r;
      forall q | q in pools && Eligible(w, q) ensures !KeyLess(KeyOf(w, q), KeyOf(w, r[0])) {
        var i :| 0 <= i < |r| && r[i] == q;
        KeyOrder(KeyOf(w, q), KeyOf(w, q), KeyOf(w, q));
      }
    }
  }

  // ---------- the decision ----------

  predicate Degraded(w: Work, current: Pool) {
    !current.healthy || !current.live || !Compatible(w, current)
  }

  function CurrentScore(w: Work, current: Pool): int {
    if Compatible(w, current) then Score(w.weights, current.capabilities) else UNFIT
  }

  /** `decide_placement`. */
  function Decide(w: Work, pools: seq<Pool>, observed: Option<Pool>): Decision {
    var ranked := Ranked(w, pools);
    if w.current.None? || w.state == Queued then
      if ranked == [] then Decision(Wait, w.current, None, NoSurface)
      else Decision(Place, w.current, Some(ranked[0].poolId), BestAvailable)
    else if observed.None? then Decision(Stay, w.current, None, NoObservation)
    else if ranked == [] then Decision(Stay, Some(observed.value.poolId), None, NoCandidate)
    else Moved(w, ranked[0], observed.value)
  }

  /** The decision between the best candidate and the current pool. */
  function Moved(w: Work, best: Pool, current: Pool): Decision {
    var here := Some(current.poolId);
    var gain := Score(w.weights, best.capabilities) - CurrentScore(w, current);
    var recovery := Degraded(w, current) && best.poolId != current.poolId;
    if best.poolId == current.poolId && !Degraded(w, current) then Decision(Stay, here, None, CurrentIsBest)
    else if gain < w.minGain && !recovery then Decision(Stay, here, None, BelowHysteresis(gain))
    else if w.state == Running && !w.checkpointable then
      Decision(StayUntilBoundary, here, Some(best.poolId), NotCheckpointable)
    else Decision(Migrate, here, Some(best.poolId), if recovery then CurrentDegraded else Better(gain))
  }

  /** Scores are only ever taken of compatible pools, so the score exception never fires. */
  lemma {:induction false} ScoresAreDefined(w: Work, pools: seq<Pool>)
    ensures forall p :: p in Ranked(w, pools) ==> Suitability(w, p) == Some(Score(w.weights, p.capabilities))
  {
    RankedSorts(w, pools);
    forall p | p in Ranked(w, pools) ensures Eligible(w, p) {
      assert multiset(Ranked(w, pools))[p] > 0;
    }
  }

  // ---------- the choice on the pools' own fields ----------

  /** The pool has everything that the work requires, whatever its load. */
  ghost predicate Offers(w: Work, p: Pool) {
    && (forall tag :: tag in w.requirements ==> tag in p.capabilities)
    && p.profile != "none"
    && (exists surface :: surface in p.surfaces)
    && (forall tag :: tag in w.control ==> tag in p.controlled)
    && (w.acceptable == {} || exists surface :: surface in w.acceptable && surface in p.surfaces)
  }

  ghost predicate MayRun(w: Work, p: Pool) {
    p.healthy && p.live && p.slotsAvailable >= 1 && Offers(w, p)
  }

  lemma {:induction false} OffersMeaning(w: Work, p: Pool)
    ensures Offers(w, p) <==> Compatible(w, p)
    ensures MayRun(w, p) <==> Eligible(w, p)
  {
    assert p.surfaces * w.acceptable != {} <==> exists surface :: surface in w.acceptable && surface in p.surfaces by {
      if surface :| surface in w.acceptable && surface in p.surfaces {
        assert surface in p.surfaces * w.acceptable;
      }
      if p.surfaces * w.acceptable != {} {
        var surface :| surface in p.surfaces * w.acceptable;
        assert surface in w.acceptable && surface in p.surfaces;
      }
    }
    if p.surfaces != {} { var surface :| surface in p.surfaces; }
  }

  /** The score adds up the weights of the tags that the pool has. */
  lemma {:induction false} ScoreMeaning(u: seq<(string, int)>, v: seq<(string, int)>, tag: string, weight: int,
                                        capabilities: set<string>)
    ensures Score([], capabilities) == 0
    ensures Score([(tag, weight)], capabilities) == if tag in capabilities then weight else 0
    ensures Score(u + v, capabilities) == Score(u, capabilities) + Score(v, capabilities)
    decreases |u|
  {
    assert [(tag, weight)][1..] == [];
    if u == [] {
      assert u + v == v;
    } else {
      assert (u + v)[1..] == u[1..] + v && (u + v)[0] == u[0];
      ScoreMeaning(u[1..], v, tag, weight, capabilities);
    }
  }

  function Slots(p: Pool): int { if p.slotsTotal > 1 then p.slotsTotal else 1 }
  function RoundTrip(p: Pool): int { if p.rttMs.Some? then p.rttMs.value else 2147483647 }
  function Skew(p: Pool): int { if p.skewMs < 0 then -p.skewMs else p.skewMs }

  /** `p` comes before `q` by pool name, or they have the same names. */
  predicate NamedFirst(p: Pool, q: Pool) {
    TextLess(p.node, q.node) || (p.node == q.node && (TextLess(p.poolId, q.poolId) || p.poolId == q.poolId))
  }

  /** `p` is at least as good a place as `q`: first by the greater score, then by the smaller
      accessibility rank, queue per slot, round trip time, absolute skew and name. */
  predicate Preferred(w: Work, p: Pool, q: Pool) {
    var s, t := Score(w.weights, p.capabilities), Score(w.weights, q.capabilities);
    s > t || (s == t && PreferredAmongEquals(p, q))
  }

  predicate PreferredAmongEquals(p: Pool, q: Pool) {
    var x, y := p.slotsQueued * Slots(q), q.slotsQueued * Slots(p);
    || p.accessibilityRank < q.accessibilityRank
    || (p.accessibilityRank == q.accessibilityRank && x < y)
    || (p.accessibilityRank == q.accessibilityRank && x == y && PreferredByTime(p, q))
  }

  predicate PreferredByTime(p: Pool, q: Pool) {
    || RoundTrip(p) < RoundTrip(q)
    || (RoundTrip(p) == RoundTrip(q) && Skew(p) < Skew(q))
    || (RoundTrip(p) == RoundTrip(q) && Skew(p) == Skew(q) && NamedFirst(p, q))
  }

  lemma {:induction false} QuotientOrder(a: int, b: int, c: int, d: int)
    requires b > 0 && d > 0
    ensures a as real / b as real < c as real / d as real <==> a * d < c * b
    ensures a as real / b as real == c as real / d as real <==> a * d == c * b
  {
    var x, y, k := a as real / b as real, c as real / d as real, b as real * d as real;
    assert x * b as real == a as real && y * d as real == c as real;
    assert x * k == a as real * d as real by { assert x * k == (x * b as real) * d as real; }
    assert y * k == c as real * b as real by { assert y * k == (y * d as real) * b as real; }
    assert k > 0.0;
    ScaledOrder(x, y, k);
    assert a as real * d as real == (a * d) as real && c as real * b as real == (c * b) as real;
  }

  lemma {:induction false} ScaledOrder(x: real, y: real, k: real)
    requires k > 0.0
    ensures x < y <==> x * k < y * k
    ensures x == y <==> x * k == y * k
  {
    if x < y { assert (y - x) * k > 0.0; }
    if y < x { assert (x - y) * k > 0.0; }
  }

  /** The ranking key says what the fields say. */
  lemma {:induction false} PreferredByKey(w: Work, p: Pool, q: Pool)
    ensures Preferred(w, p, q) <==> !KeyLess(KeyOf(w, q), KeyOf(w, p))
  {
    assert Max(1, p.slotsTotal) == Slots(p) && Max(1, q.slotsTotal) == Slots(q);
    QuotientOrder(p.slotsQueued, Slots(p), q.slotsQueued, Slots(q));
    TextTotal(p.node, q.node);
    TextTotal(p.poolId, q.poolId);
    TextIrreflexive(p.node);
    TextIrreflexive(p.poolId);
    if TextLess(p.node, q.node) && TextLess(q.node, p.node) { TextTransitive(p.node, q.node, p.node); }
    if TextLess(p.poolId, q.poolId) && TextLess(q.poolId, p.poolId) {
      TextTransitive(p.poolId, q.poolId, p.poolId);
    }
  }

  /** A pool that may run the work, and none that may is preferred to it. */
  ghost predicate BestPlace(w: Work, pools: seq<Pool>, p: Pool) {
    && p in pools && MayRun(w, p)
    && forall q :: q in pools && MayRun(w, q) ==> Preferred(w, p, q)
  }

  lemma {:induction false} BestPlaceIsBest(w: Work, pools: seq<Pool>, p: Pool)
    ensures BestPlace(w, pools, p) <==> IsBest(w, pools, p)
  {
    OffersMeaning(w, p);
    forall q ensures MayRun(w, q) <==> Eligible(w, q)
      ensures Preferred(w, p, q) <==> !KeyLess(KeyOf(w, q), KeyOf(w, p))
    {
      OffersMeaning(w, q);
      PreferredByKey(w, p, q);
    }
  }

  /** The head of the ranking is a best place, and every best place has its score and name. */
  lemma {:induction false} RankedIsBest(w: Work, pools: seq<Pool>)
    ensures Ranked(w, pools) == [] <==> forall p :: p in pools ==> !MayRun(w, p)
    ensures Ranked(w, pools) != [] ==> BestPlace(w, pools, Ranked(w, pools)[0])
    ensures Ranked(w, pools) != [] ==>
              forall p :: BestPlace(w, pools, p) ==>
                && p.poolId == Ranked(w, pools)[0].poolId
                && Score(w.weights, p.capabilities) == Score(w.weights, Ranked(w, pools)[0].capabilities)
  {
    FirstIsBest(w, pools);
    forall p ensures MayRun(w, p) <==> Eligible(w, p) {
      OffersMeaning(w, p);
    }
    if Ranked(w, pools) != [] {
      var head := Ranked(w, pools)[0];
      BestPlaceIsBest(w, pools, head);
      forall p | BestPlace(w, pools, p) ensures KeyOf(w, p) == KeyOf(w, head) {
        BestPlaceIsBest(w, pools, p);
        KeyOrder(KeyOf(w, p), KeyOf(w, head), KeyOf(w, p));
      }
    }
  }

  /** Every destination is a best place, by suitability first, and there is one exactly for a placement,
      a migration and a move put off. */
  lemma {:induction false} DestinationIsBest(w: Work, pools: seq<Pool>, observed: Option<Pool>)
    ensures var d := Decide(w, pools, observed);
            && (d.target.Some? ==> exists p :: BestPlace(w, pools, p) && p.poolId == d.target.value)
            && (d.action == Place || d.action == Migrate || d.action == StayUntilBoundary <==> d.target.Some?)
  {
    RankedIsBest(w, pools);
    var ranked := Ranked(w, pools);
    if ranked != [] { assert BestPlace(w, pools, ranked[0]); }
  }

  /** New or queued work is placed exactly when some pool may run it, and waits otherwise. */
  lemma {:induction false} PlacementGuard(w: Work, pools: seq<Pool>, observed: Option<Pool>)
    requires w.current.None? || w.state == Queued
    ensures var d := Decide(w, pools, observed);
            if exists p :: p in pools && MayRun(w, p) then d.action == Place && d.reason == BestAvailable
            else d.action == Wait && d.reason == NoSurface
    ensures Decide(w, pools, observed).origin == w.current
  {
    RankedIsBest(w, pools);
  }

  /** Placed work that is not held where it is until a boundary. */
  predicate MayMigrate(w: Work) {
    w.state != Queued && (w.state == Running ==> w.checkpointable)
  }

  /** The pool cannot run the work any more. */
  ghost predicate Fails(w: Work, current: Pool) {
    !current.healthy || !current.live || !Offers(w, current)
  }

  /** What the work gains in score; a pool that it no longer fits counts as -2^31. */
  ghost function Gain(w: Work, current: Pool, best: Pool): int {
    Score(w.weights, best.capabilities)
    - if Offers(w, current) then Score(w.weights, current.capabilities) else -2147483648
  }

  /** `best` replaces a failing pool by another. */
  ghost predicate Rescues(w: Work, current: Pool, best: Pool) {
    Fails(w, current) && best.poolId != current.poolId
  }

  /** `best` replaces a failing pool by another, or raises the score by the required gain. */
  ghost predicate WorthMoving(w: Work, current: Pool, best: Pool) {
    && (best.poolId == current.poolId ==> Fails(w, current))
    && (Rescues(w, current, best) || Gain(w, current, best) >= w.minGain)
  }

  /** What the reason of a decision about placed work says. */
  ghost predicate ReasonMeaning(w: Work, current: Pool, best: Pool, reason: Reason) {
    match reason
    case CurrentIsBest => best.poolId == current.poolId && !Fails(w, current)
    case BelowHysteresis(gain) => gain == Gain(w, current, best) < w.minGain && !Rescues(w, current, best)
    case NotCheckpointable => WorthMoving(w, current, best) && w.state == Running && !w.checkpointable
    case CurrentDegraded => Rescues(w, current, best) && MayMigrate(w)
    case Better(gain) =>
      gain == Gain(w, current, best) >= w.minGain && !Rescues(w, current, best) && MayMigrate(w)
    case _ => false
  }

  ghost predicate ShouldMove(w: Work, pools: seq<Pool>, current: Pool) {
    exists best :: BestPlace(w, pools, best) && WorthMoving(w, current, best)
  }

  /** When placed work moves: exactly when a best place is worth the move; work that cannot be
      checkpointed waits for a boundary instead, and otherwise it stays. */
  lemma {:induction false} MigrationGuard(w: Work, pools: seq<Pool>, current: Pool)
    requires w.current.Some? && w.state != Queued
    ensures Decide(w, pools, Some(current)).action ==
      if !ShouldMove(w, pools, current) then Stay else if MayMigrate(w) then Migrate else StayUntilBoundary
    ensures Decide(w, pools, Some(current)).origin == Some(current.poolId)
    ensures Decide(w, pools, None) == Decision(Stay, w.current, None, NoObservation)
  {
    RankedIsBest(w, pools);
    OffersMeaning(w, current);
    var ranked := Ranked(w, pools);
    if ranked != [] {
      assert BestPlace(w, pools, ranked[0]);
      assert ShouldMove(w, pools, current) <==> WorthMoving(w, current, ranked[0]);
    }
  }

  /** The reason given for a decision about placed work is the true one. */
  lemma {:induction false} ReasonIsTrue(w: Work, pools: seq<Pool>, current: Pool)
    requires w.current.Some? && w.state != Queued
    ensures var d := Decide(w, pools, Some(current));
            if exists p :: p in pools && MayRun(w, p)
            then exists best :: BestPlace(w, pools, best) && ReasonMeaning(w, current, best, d.reason)
            else d.reason == NoCandidate
  {
    RankedIsBest(w, pools);
    OffersMeaning(w, current);
    var ranked := Ranked(w, pools);
    if ranked != [] {
      assert BestPlace(w, pools, ranked[0]);
      assert ReasonMeaning(w, current, ranked[0], Moved(w, ranked[0], current).reason);
    }
  }

  // ---------- migration runs ----------

  /** One look at the fleet: any loads, any latencies; the current pool is seen and healthy. */
  datatype Round = Round(pools: seq<Pool>, current: Pool)

  ghost predicate Observes(fleet: map<string, Profile>, round: Round) {
    && round.current.poolId in fleet && ProfileOf(round.current) == fleet[round.current.poolId]
    && round.current.healthy && round.current.live
    && forall p :: p in round.pools ==> p.poolId in fleet && ProfileOf(p) == fleet[p.poolId]
  }

  /** Work that may migrate, with hysteresis. */
  predicate Movable(w: Work) {
    MayMigrate(w) && w.minGain >= 1
  }

  function At(w: Work, place: string): Work {
    w.(current := Some(place))
  }

  /** Where the work is after a round. */
  function After(w: Work, place: string, round: Round): string {
    var d := Decide(At(w, place), round.pools, Some(round.current));
    if d.action == Migrate && d.target.Some? then d.target.value else place
  }

  /** The places visited in a run of rounds, the first one included. */
  function Places(w: Work, place: string, rounds: seq<Round>): (r: seq<string>)
    ensures |r| == |rounds| + 1
    ensures r[0] == place
    decreases |rounds|
  {
    if rounds == [] then [place] else [place] + Places(w, After(w, place, rounds[0]), rounds[1..])
  }

  /** Every round is an observation of the fleet that sees the pool the work is on. */
  ghost predicate Faithful(w: Work, fleet: map<string, Profile>, place: string, rounds: seq<Round>)
    decreases |rounds|
  {
    rounds != [] ==>
      && Observes(fleet, rounds[0]) && rounds[0].current.poolId == place
      && Faithful(w, fleet, After(w, place, rounds[0]), rounds[1..])
  }

  function FitAt(w: Work, fleet: map<string, Profile>, place: string): int
    requires place in fleet
  {
    Score(w.weights, fleet[place].capabilities)
  }

  /** One round keeps the place or raises the score by the gain. */
  lemma {:induction false} RoundRaises(w: Work, fleet: map<string, Profile>, place: string, round: Round)
    requires Movable(w) && Observes(fleet, round) && round.current.poolId == place && FitFor(w, fleet[place])
    ensures var next := After(w, place, round);
            && next in fleet && FitFor(w, fleet[next])
            && (next == place || FitAt(w, fleet, next) >= FitAt(w, fleet, place) + w.minGain)
  {
    var here := At(w, place);
    FirstIsBest(here, round.pools);
    var ranked := Ranked(here, round.pools);
    if ranked != [] {
      assert Eligible(here, ranked[0]) && ranked[0] in round.pools;
      assert ProfileOf(ranked[0]) == fleet[ranked[0].poolId];
    }
  }

  function Moves(places: seq<string>): nat {
    if |places| < 2 then 0 else (if places[0] == places[1] then 0 else 1) + Moves(places[1..])
  }

  lemma {:induction false} MovesStep(w: Work, place: string, rounds: seq<Round>)
    requires rounds != []
    ensures var next := After(w, place, rounds[0]);
            Moves(Places(w, place, rounds)) == (if next == place then 0 else 1) + Moves(Places(w, next, rounds[1..]))
  {
    var places, next := Places(w, place, rounds), After(w, place, rounds[0]);
    assert places[1..] == Places(w, next, rounds[1..]);
    assert places[1] == next;
  }

  /** Over any run the score of the final place is above that of the first by the gain times the
      number of moves. */
  lemma {:induction false} ScoreGrowsWithMoves(w: Work, fleet: map<string, Profile>, place: string,
                                               rounds: seq<Round>)
    requires Movable(w) && place in fleet && FitFor(w, fleet[place]) && Faithful(w, fleet, place, rounds)
    ensures var places := Places(w, place, rounds);
            && places[|rounds|] in fleet
            && FitAt(w, fleet, places[|rounds|]) >= FitAt(w, fleet, place) + Moves(places) * w.minGain
    decreases |rounds|
  {
    if rounds != [] {
      var next := After(w, place, rounds[0]);
      RoundRaises(w, fleet, place, rounds[0]);
      ScoreGrowsWithMoves(w, fleet, next, rounds[1..]);
      MovesStep(w, place, rounds);
      GainsAdd(if next == place then 0 else 1, Moves(Places(w, next, rounds[1..])), w.minGain,
               FitAt(w, fleet, place), FitAt(w, fleet, next));
    }
  }

  lemma {:induction false} GainsAdd(first: nat, rest: nat, gain: int, here: int, next: int)
    requires first <= 1 && (first == 0 ==> next == here) && (first == 1 ==> next >= here + gain)
    ensures next + rest * gain >= here + (first + rest) * gain
  {
    OneMore(rest, gain);
  }

  lemma {:induction false} OneMore(m: nat, gain: int)
    ensures (1 + m) * gain == gain + m * gain
    ensures (0 + m) * gain == m * gain
  {
  }

  function Highest(weights: seq<(string, int)>): int {
    if weights == [] then 0 else (if weights[0].1 > 0 then weights[0].1 else 0) + Highest(weights[1..])
  }

  function Lowest(weights: seq<(string, int)>): int {
    if weights == [] then 0 else (if weights[0].1 < 0 then weights[0].1 else 0) + Lowest(weights[1..])
  }

  lemma {:induction false} ScoreRange(weights: seq<(string, int)>, capabilities: set<string>)
    ensures Lowest(weights) <= Score(weights, capabilities) <= Highest(weights)
  {
    if weights != [] { ScoreRange(weights[1..], capabilities); }
  }

  /** Migration stops: however the loads change, the moves of a run are bounded by the spread of the
      preference weights over the gain. */
  lemma {:induction false} MigrationsAreBounded(w: Work, fleet: map<string, Profile>, place: string,
                                                rounds: seq<Round>)
    requires Movable(w) && place in fleet && FitFor(w, fleet[place]) && Faithful(w, fleet, place, rounds)
    ensures Moves(Places(w, place, rounds)) * w.minGain <= Highest(w.weights) - Lowest(w.weights)
  {
    ScoreGrowsWithMoves(w, fleet, place, rounds);
    ScoreRange(w.weights, fleet[place].capabilities);
    ScoreRange(w.weights, fleet[Places(w, place, rounds)[|rounds|]].capabilities);
  }

  lemma {:induction false} NoMovesNoChange(places: seq<string>)
    requires places != [] && Moves(places) == 0
    ensures forall i :: 0 <= i < |places| ==> places[i] == places[0]
  {
    if |places| > 1 {
      NoMovesNoChange(places[1..]);
      assert forall i :: 1 <= i < |places| ==> places[i] == places[1..][i - 1];
    }
  }

  lemma {:induction false} SomeGain(m: nat, gain: int)
    requires m > 0 && gain >= 1
    ensures m * gain >= 1
  {
    OneMore(m - 1, gain);
    assert (m - 1) * gain >= 0;
  }

  /** A run that ends where it began never moved. */
  lemma {:induction false} ReturnMeansNoMove(w: Work, fleet: map<string, Profile>, place: string,
                                             rounds: seq<Round>)
    requires Movable(w) && place in fleet && FitFor(w, fleet[place]) && Faithful(w, fleet, place, rounds)
    requires Places(w, place, rounds)[|rounds|] == place
    ensures Moves(Places(w, place, rounds)) == 0
  {
    ScoreGrowsWithMoves(w, fleet, place, rounds);
    var m := Moves(Places(w, place, rounds));
    if m > 0 { SomeGain(m, w.minGain); }
  }

  lemma {:induction false} RunPrefix(w: Work, fleet: map<string, Profile>, place: string, rounds: seq<Round>,
                                     j: nat)
    requires j <= |rounds| && Faithful(w, fleet, place, rounds)
    ensures Faithful(w, fleet, place, rounds[..j])
    ensures Places(w, place, rounds[..j]) == Places(w, place, rounds)[..j + 1]
    decreases |rounds|
  {
    if j > 0 {
      var next := After(w, place, rounds[0]);
      RunPrefix(w, fleet, next, rounds[1..], j - 1);
      assert rounds[..j][0] == rounds[0] && rounds[..j][1..] == rounds[1..][..j - 1];
      assert Places(w, place, rounds) == [place] + Places(w, next, rounds[1..]);
    }
  }

  /** Whatever the gain, work leaves its place only for a pool that fits. */
  lemma {:induction false} LeavesForFit(w: Work, fleet: map<string, Profile>, place: string, round: Round)
    requires Observes(fleet, round) && round.current.poolId == place
    ensures var next := After(w, place, round);
            next == place || (MayMigrate(w) && next in fleet && FitFor(w, fleet[next]))
  {
    var here := At(w, place);
    FirstIsBest(here, round.pools);
    var ranked := Ranked(here, round.pools);
    if ranked != [] {
      assert Eligible(here, ranked[0]) && ranked[0] in round.pools;
      assert ProfileOf(ranked[0]) == fleet[ranked[0].poolId];
    }
  }

  lemma {:induction false} StaysFit(w: Work, fleet: map<string, Profile>, place: string, rounds: seq<Round>, k: nat)
    requires place in fleet && FitFor(w, fleet[place]) && Faithful(w, fleet, place, rounds) && k <= |rounds|
    ensures Places(w, place, rounds)[k] in fleet && FitFor(w, fleet[Places(w, place, rounds)[k]])
    decreases k
  {
    if k > 0 {
      LeavesForFit(w, fleet, place, rounds[0]);
      StaysFit(w, fleet, After(w, place, rounds[0]), rounds[1..], k - 1);
    }
  }

  /** A place that does not fit is not visited again once it is left. */
  lemma {:induction false} UnfitIsLeft(w: Work, fleet: map<string, Profile>, place: string, rounds: seq<Round>,
                                       j: nat)
    requires place in fleet && !FitFor(w, fleet[place]) && Faithful(w, fleet, place, rounds)
    requires j <= |rounds| && Places(w, place, rounds)[j] == place
    ensures forall k :: 0 <= k <= j ==> Places(w, place, rounds)[k] == place
    decreases j
  {
    if j > 0 {
      var next := After(w, place, rounds[0]);
      LeavesForFit(w, fleet, place, rounds[0]);
      var places, later := Places(w, place, rounds), Places(w, next, rounds[1..]);
      assert forall k :: 1 <= k <= |rounds| ==> places[k] == later[k - 1];
      if next == place {
        UnfitIsLeft(w, fleet, place, rounds[1..], j - 1);
      } else {
        StaysFit(w, fleet, next, rounds[1..], j - 1);
      }
    }
  }

  /** A place that fits is not visited again once it is left. */
  lemma {:induction false} FitIsLeft(w: Work, fleet: map<string, Profile>, place: string, rounds: seq<Round>,
                                     j: nat)
    requires Movable(w) && place in fleet && FitFor(w, fleet[place]) && Faithful(w, fleet, place, rounds)
    requires j <= |rounds| && Places(w, place, rounds)[j] == place
    ensures forall k :: 0 <= k <= j ==> Places(w, place, rounds)[k] == place
  {
    var places := Places(w, place, rounds);
    RunPrefix(w, fleet, place, rounds, j);
    var part := Places(w, place, rounds[..j]);
    assert forall k :: 0 <= k <= j ==> part[k] == places[k];
    ReturnMeansNoMove(w, fleet, place, rounds[..j]);
    NoMovesNoChange(part);
  }

  /** A pool once left is never visited again, from wherever the run begins: between two visits the work
      stayed put. */
  lemma {:induction false} NoRevisit(w: Work, fleet: map<string, Profile>, place: string, rounds: seq<Round>,
                                     i: nat, j: nat)
    requires Movable(w) && Faithful(w, fleet, place, rounds)
    requires i <= j <= |rounds| && Places(w, place, rounds)[i] == Places(w, place, rounds)[j]
    ensures forall k :: i <= k <= j ==> Places(w, place, rounds)[k] == Places(w, place, rounds)[i]
    decreases i
  {
    var places := Places(w, place, rounds);
    if i > 0 {
      var later := Places(w, After(w, place, rounds[0]), rounds[1..]);
      assert forall k :: 1 <= k <= |rounds| ==> places[k] == later[k - 1];
      NoRevisit(w, fleet, After(w, place, rounds[0]), rounds[1..], i - 1, j - 1);
    } else if j > 0 {
      if FitFor(w, fleet[place]) {
        FitIsLeft(w, fleet, place, rounds, j);
      } else {
        UnfitIsLeft(w, fleet, place, rounds, j);
      }
    }
  }

  /** No run of any fleet brings the work back to a pool that it has left. */
  ghost predicate NeverReturns(w: Work) {
    forall fleet, place, rounds, i, j, k ::
      Faithful(w, fleet, place, rounds) && 0 <= i <= k <= j <= |rounds|
      && Places(w, place, rounds)[i] == Places(w, place, rounds)[j]
      ==> Places(w, place, rounds)[k] == Places(w, place, rounds)[i]
  }

  /** Work never returns exactly if it is held in place or asks for a positive gain. */
  lemma {:induction false} NeverReturnsExactly(w: Work)
    ensures NeverReturns(w) <==> (MayMigrate(w) ==> w.minGain >= 1)
  {
    if !MayMigrate(w) {
      HeldNeverReturns(w);
    } else if w.minGain >= 1 {
      forall fleet, place, rounds, i: int, j: int, k: int
        | Faithful(w, fleet, place, rounds) && 0 <= i <= k <= j <= |rounds|
          && Places(w, place, rounds)[i] == Places(w, place, rounds)[j]
        ensures Places(w, place, rounds)[k] == Places(w, place, rounds)[i]
      {
        NoRevisit(w, fleet, place, rounds, i, j);
      }
    } else {
      var fleet, rounds := SwingsBack(w);
      var places := Places(w, "a", rounds);
      assert places[0] == places[2] && places[1] != places[0];
    }
  }

  lemma {:induction false} HeldNeverReturns(w: Work)
    requires !MayMigrate(w)
    ensures NeverReturns(w)
  {
    forall fleet, place, rounds, i: int, j: int, k: int
      | Faithful(w, fleet, place, rounds) && 0 <= i <= k <= j <= |rounds|
        && Places(w, place, rounds)[i] == Places(w, place, rounds)[j]
      ensures Places(w, place, rounds)[k] == Places(w, place, rounds)[i]
    {
      HeldStays(w, fleet, place, rounds, i);
      HeldStays(w, fleet, place, rounds, k);
    }
  }

  lemma {:induction false} HeldStays(w: Work, fleet: map<string, Profile>, place: string, rounds: seq<Round>, k: nat)
    requires !MayMigrate(w) && Faithful(w, fleet, place, rounds) && k <= |rounds|
    ensures Places(w, place, rounds)[k] == place
    decreases k
  {
    if k > 0 {
      LeavesForFit(w, fleet, place, rounds[0]);
      HeldStays(w, fleet, place, rounds[1..], k - 1);
    }
  }

  // ---------- without hysteresis ----------

  /** A pool that has just what the work asks for. */
  function Pond(w: Work, name: string, queued: int): Pool {
    Pool(name, name, w.requirements, "full", 0, w.control, w.acceptable + {"webgpu"},
         1, queued, 1, true, true, 0, None)
  }

  /** What the work sees when the pool it is on is the more crowded of two. */
  function Crowded(w: Work, here: string, there: string): Round {
    Round([Pond(w, here, 1), Pond(w, there, 0)], Pond(w, here, 1))
  }

  lemma {:induction false} PondFits(w: Work, name: string, queued: int)
    ensures Eligible(w, Pond(w, name, queued))
  {
    assert "webgpu" in w.acceptable + {"webgpu"};
    if w.acceptable != {} {
      var x :| x in w.acceptable;
      assert x in (w.acceptable + {"webgpu"}) * w.acceptable;
    }
  }

  /** The less crowded of two equal pools wins. */
  lemma {:induction false} Swing(w: Work, here: string, there: string)
    requires MayMigrate(w) && w.minGain <= 0 && here != there
    ensures After(w, here, Crowded(w, here, there)) == there
  {
    var p, q, at := Pond(w, here, 1), Pond(w, there, 0), At(w, here);
    assert p == Pond(at, here, 1) && q == Pond(at, there, 0);
    PondFits(at, here, 1);
    PondFits(at, there, 0);
    assert Pressure(p) == 1.0 && Pressure(q) == 0.0;
    LeastOfTwo(at, p, q);
    assert Decide(at, [p, q], Some(p)) == Moved(at, q, p);
  }

  /** Without a positive gain the work swings between two equal pools as their queues change. */
  lemma {:induction false} SwingsBack(w: Work) returns (fleet: map<string, Profile>, rounds: seq<Round>)
    requires MayMigrate(w) && w.minGain <= 0
    ensures Faithful(w, fleet, "a", rounds) && Places(w, "a", rounds) == ["a", "b", "a"]
  {
    var there, back := Crowded(w, "a", "b"), Crowded(w, "b", "a");
    var profile := ProfileOf(Pond(w, "a", 0));
    fleet, rounds := map["a" := profile, "b" := profile], [there, back];
    Swing(w, "a", "b");
    Swing(w, "b", "a");
    TwoRounds(w, "a", "b", "a", there, back);
    assert rounds[1..] == [back] && [back][1..] == [];
    assert Observes(fleet, there) && Observes(fleet, back);
    assert Faithful(w, fleet, "b", [back]);
  }

  lemma {:induction false} TwoRounds(w: Work, x: string, y: string, z: string, first: Round, second: Round)
    requires After(w, x, first) == y && After(w, y, second) == z
    ensures Places(w, x, [first, second]) == [x, y, z]
  {
    assert [first, second][1..] == [second] && [second][1..] == [];
    assert Places(w, y, [second]) == [y] + Places(w, z, []);
  }

  lemma {:induction false} LeastOfTwo(w: Work, p: Pool, q: Pool)
    requires Eligible(w, p) && Eligible(w, q) && KeyLess(KeyOf(w, q), KeyOf(w, p))
    ensures Ranked(w, [p, q]) != [] && Ranked(w, [p, q])[0] == q
  {
    assert [p, q][..1] == [p] && [p][..0] == [];
    assert Ranked(w, [p]) == Insert(w, p, []) == [p];
    assert Ranked(w, [p, q]) == Insert(w, q, [p]);
    assert [p][..0] == [] && Insert(w, q, []) == [q];
  }
}
