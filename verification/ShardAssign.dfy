/** The greedy weighted shard assigner, over exact capacities, and the coverage check of its results. */
module ShardAssign {
  import opened TextOrder

  datatype Worker = Worker(name: string, capacity: real)

  datatype PlanError = ShardCountNotPositive | NoCapacity
  datatype Assignment = Assigned(names: seq<string>) | Refused(error: PlanError)

  ghost predicate DistinctNames(ws: seq<Worker>) {
    forall i, j :: 0 <= i < j < |ws| ==> ws[i].name != ws[j].name
  }

  ghost predicate Positive(ws: seq<Worker>) {
    forall i :: 0 <= i < |ws| ==> ws[i].capacity > 0.0
  }

  function Eligible(ws: seq<Worker>): (r: seq<Worker>)
    ensures forall w :: w in r <==> w in ws && w.capacity > 0.0
  {
    if ws == [] then []
    else if ws[0].capacity > 0.0 then [ws[0]] + Eligible(ws[1..])
    else Eligible(ws[1..])
  }

  lemma {:induction false} EligibleDistinct(ws: seq<Worker>)
    requires DistinctNames(ws)
    ensures DistinctNames(Eligible(ws))
  {
    if ws != [] {
      EligibleDistinct(ws[1..]);
      forall w | w in Eligible(ws[1..]) ensures w.name != ws[0].name {
        assert w in ws[1..];
      }
    }
  }

  /** How many shards a worker has. */
  function Count(names: seq<string>, name: string): nat {
    if names == [] then 0
    else Count(names[..|names| - 1], name) + (if names[|names| - 1] == name then 1 else 0)
  }

  /** The time a worker needs for its shards. */
  function Load(names: seq<string>, w: Worker): real
    requires w.capacity > 0.0
  {
    Count(names, w.name) as real / w.capacity
  }

  lemma {:induction false} LoadNext(names: seq<string>, name: string, w: Worker)
    requires w.capacity > 0.0
    ensures Load(names + [name], w) == Load(names, w) + (if w.name == name then 1.0 / w.capacity else 0.0)
  {
    assert (names + [name])[..|names|] == names;
    var n, c := Count(names, w.name) as real, w.capacity;
    assert (n + 1.0) / c == n / c + 1.0 / c;
  }

  // ---------- the greedy choice ----------

  /** The order of the choice: by load, then by name. */
  predicate Before(load: map<string, real>, x: Worker, y: Worker)
    requires x.name in load && y.name in load
  {
    load[x.name] < load[y.name] || (load[x.name] == load[y.name] && TextLess(x.name, y.name))
  }

  lemma {:induction false} BeforeOrder(load: map<string, real>, x: Worker, y: Worker, z: Worker)
    requires x.name in load && y.name in load && z.name in load
    ensures !Before(load, x, x)
    ensures !Before(load, y, x) && Before(load, z, x) ==> !Before(load, y, z)
  {
    TextIrreflexive(x.name);
    TextTotal(x.name, y.name);
    if TextLess(y.name, z.name) && TextLess(z.name, x.name) { TextTransitive(y.name, z.name, x.name); }
  }

  /** `min` over the eligible workers. */
  method Least(eligible: seq<Worker>, load: map<string, real>) returns (k: nat)
    requires eligible != [] && forall w :: w in eligible ==> w.name in load
    ensures k < |eligible|
    ensures forall i :: 0 <= i < |eligible| ==> !Before(load, eligible[i], eligible[k])
  {
    k := 0;
    BeforeOrder(load, eligible[0], eligible[0], eligible[0]);
    for i := 1 to |eligible|
      invariant k < |eligible|
      invariant forall j :: 0 <= j < i ==> !Before(load, eligible[j], eligible[k])
    {
      if Before(load, eligible[i], eligible[k]) {
        forall j | 0 <= j <= i ensures !Before(load, eligible[j], eligible[i]) {
          BeforeOrder(load, eligible[k], eligible[j], eligible[i]);
          BeforeOrder(load, eligible[i], eligible[i], eligible[i]);
        }
        k := i;
      }
    }
  }

  /** Without its last shard `w` would be no busier than `v`: `(n_w - 1) / c_w <= n_v / c_v`. */
  ghost predicate Even(names: seq<string>, w: Worker, v: Worker) {
    w.capacity > 0.0 && v.capacity > 0.0 ==> Load(names, w) - 1.0 / w.capacity <= Load(names, v)
  }

  ghost predicate Balanced(ws: seq<Worker>, names: seq<string>) {
    forall w, v {:trigger Even(names, w, v)} :: w in ws && v in ws ==> Even(names, w, v)
  }

  lemma {:induction false} StaysBalanced(ws: seq<Worker>, names: seq<string>, chosen: Worker)
    requires Positive(ws) && DistinctNames(ws) && Balanced(ws, names) && chosen in ws
    requires forall v :: v in ws ==> v.capacity > 0.0 && Load(names, chosen) <= Load(names, v)
    ensures Balanced(ws, names + [chosen.name])
  {
    forall w, v | w in ws && v in ws ensures Even(names + [chosen.name], w, v) {
      assert Even(names, w, v);
      assert exists i :: 0 <= i < |ws| && ws[i] == w;
      assert exists i :: 0 <= i < |ws| && ws[i] == v;
      LoadNext(names, chosen.name, w);
      LoadNext(names, chosen.name, v);
      assert w.name == chosen.name ==> w == chosen;
      assert 1.0 / v.capacity > 0.0;
    }
  }

  lemma {:induction false} NothingIsBalanced(ws: seq<Worker>)
    ensures Balanced(ws, [])
  {
    forall w, v | w in ws && v in ws ensures Even([], w, v) {
      if w.capacity > 0.0 { assert 1.0 / w.capacity > 0.0; }
    }
  }

  ghost predicate Known(ws: seq<Worker>, x: string) {
    exists w :: w in ws && w.name == x
  }

  ghost predicate AllKnown(ws: seq<Worker>, names: seq<string>) {
    forall x :: x in names ==> Known(ws, x)
  }

  /** Balanced after every shard. */
  ghost predicate AlwaysBalanced(ws: seq<Worker>, names: seq<string>) {
    forall i :: 0 <= i <= |names| ==> Balanced(ws, names[..i])
  }

  lemma {:induction false} OneMoreShard(ws: seq<Worker>, names: seq<string>, x: string)
    requires AlwaysBalanced(ws, names) && Balanced(ws, names + [x])
    ensures AlwaysBalanced(ws, names + [x])
  {
    forall i | 0 <= i <= |names| + 1 ensures Balanced(ws, (names + [x])[..i]) {
      if i <= |names| {
        assert (names + [x])[..i] == names[..i];
      } else {
        assert (names + [x])[..i] == names + [x];
      }
    }
  }

  /** `w` is least loaded among the workers, and the first in text order of those that are. */
  ghost predicate FirstLeast(ws: seq<Worker>, names: seq<string>, w: Worker) {
    && w in ws && w.capacity > 0.0
    && forall v :: v in ws ==> v.capacity > 0.0 && NotBefore(names, w, v)
  }

  ghost predicate NotBefore(names: seq<string>, w: Worker, v: Worker)
    requires w.capacity > 0.0 && v.capacity > 0.0
  {
    Load(names, w) < Load(names, v)
    || (Load(names, w) == Load(names, v) && (w.name == v.name || TextLess(w.name, v.name)))
  }

  ghost predicate ChosenNext(ws: seq<Worker>, names: seq<string>, x: string) {
    exists w :: FirstLeast(ws, names, w) && w.name == x
  }

  /** Every shard goes to the first in text order of the workers that are least loaded before it. */
  ghost predicate ChosenInOrder(ws: seq<Worker>, names: seq<string>) {
    forall i :: 0 <= i < |names| ==> ChosenNext(ws, names[..i], names[i])
  }

  lemma {:induction false} OneMoreChoice(ws: seq<Worker>, names: seq<string>, x: string)
    requires ChosenInOrder(ws, names) && ChosenNext(ws, names, x)
    ensures ChosenInOrder(ws, names + [x])
  {
    forall i | 0 <= i <= |names| ensures ChosenNext(ws, (names + [x])[..i], (names + [x])[i]) {
      assert (names + [x])[..i] == names[..i];
      if i == |names| { assert names[..i] == names; }
    }
  }

  lemma {:induction false} LeastIsFirst(ws: seq<Worker>, load: map<string, real>, names: seq<string>, w: Worker)
    requires LoadsKept(ws, load, names) && w in ws && forall v :: v in ws ==> !Before(load, v, w)
    ensures ChosenNext(ws, names, w.name)
  {
    forall v | v in ws ensures NotBefore(names, w, v) {
      TextTotal(w.name, v.name);
    }
    assert FirstLeast(ws, names, w);
  }

  /** `weighted_assignments`. */
  method WeightedAssignments(workers: seq<Worker>, shardCount: int) returns (r: Assignment)
    ensures r.Assigned? <==> shardCount >= 1 && exists w :: w in workers && w.capacity > 0.0
    ensures r.Refused? ==> r.error == if shardCount < 1 then ShardCountNotPositive else NoCapacity
    ensures r.Assigned? ==> |r.names| == shardCount
    ensures r.Assigned? ==> AllKnown(Eligible(workers), r.names)
    ensures r.Assigned? && DistinctNames(workers) ==> AlwaysBalanced(Eligible(workers), r.names)
    ensures r.Assigned? && DistinctNames(workers) ==>
              && WithinShare(Eligible(workers), r.names) && NearlyOptimal(Eligible(workers), r.names)
              && ChosenInOrder(Eligible(workers), r.names)
  {
    if shardCount < 1 { return Refused(ShardCountNotPositive); }
    var eligible := Eligible(workers);
    if eligible == [] {
      assert forall w :: w in workers ==> w !in eligible ==> w.capacity <= 0.0;
      return Refused(NoCapacity);
    }
    assert eligible[0] in eligible;
    var names := AssignGreedily(eligible, shardCount);
    if DistinctNames(workers) {
      EligibleDistinct(workers);
      assert names[..|names|] == names;
      BalancedIsNearlyOptimal(eligible, names);
    }
    r := Assigned(names);
  }

  /** The assignment loop. */
  method AssignGreedily(eligible: seq<Worker>, shardCount: nat) returns (names: seq<string>)
    requires eligible != [] && Positive(eligible)
    ensures |names| == shardCount && AllKnown(eligible, names)
    ensures DistinctNames(eligible) ==> AlwaysBalanced(eligible, names) && ChosenInOrder(eligible, names)
  {
    var load: map<string, real> := map w | w in eligible :: w.name := 0.0;
    names := [];
    NothingIsBalanced(eligible);
    for n := 0 to shardCount
      invariant |names| == n && AllKnown(eligible, names)
      invariant forall w :: w in eligible ==> w.name in load
      invariant DistinctNames(eligible) ==> LoadsKept(eligible, load, names) && AlwaysBalanced(eligible, names)
      invariant DistinctNames(eligible) ==> ChosenInOrder(eligible, names)
    {
      var k := Least(eligible, load);
      var chosen := eligible[k];
      if DistinctNames(eligible) {
        GreedyStep(eligible, load, names, chosen);
        LeastIsFirst(eligible, load, names, chosen);
        OneMoreChoice(eligible, names, chosen.name);
        OneMoreShard(eligible, names, chosen.name);
      }
      assert Known(eligible, chosen.name) by { assert chosen in eligible; }
      names := names + [chosen.name];
      load := load[chosen.name := load[chosen.name] + 1.0 / chosen.capacity];
    }
  }

  ghost predicate LoadsKept(eligible: seq<Worker>, load: map<string, real>, names: seq<string>) {
    forall w :: w in eligible ==> w.capacity > 0.0 && w.name in load && load[w.name] == Load(names, w)
  }

  lemma {:induction false} GreedyStep(eligible: seq<Worker>, load: map<string, real>, names: seq<string>,
                                      chosen: Worker)
    requires DistinctNames(eligible) && LoadsKept(eligible, load, names) && chosen in eligible
    requires forall w :: w in eligible ==> !Before(load, w, chosen)
    requires AlwaysBalanced(eligible, names)
    ensures Balanced(eligible, names + [chosen.name])
    ensures LoadsKept(eligible, load[chosen.name := load[chosen.name] + 1.0 / chosen.capacity], names + [chosen.name])
  {
    assert names[..|names|] == names;
    StaysBalanced(eligible, names, chosen);
    forall w | w in eligible
      ensures load[chosen.name := load[chosen.name] + 1.0 / chosen.capacity][w.name] == Load(names + [chosen.name], w)
    {
      LoadNext(names, chosen.name, w);
      assert w.name == chosen.name ==> w == chosen;
    }
  }

  // ---------- how good the assignment is ----------

  function TotalCapacity(ws: seq<Worker>): real {
    if ws == [] then 0.0 else ws[0].capacity + TotalCapacity(ws[1..])
  }

  function TotalCount(ws: seq<Worker>, names: seq<string>): nat {
    if ws == [] then 0 else Count(names, ws[0].name) + TotalCount(ws[1..], names)
  }

  lemma {:induction false} TotalCountNext(ws: seq<Worker>, names: seq<string>, x: string)
    requires DistinctNames(ws)
    ensures TotalCount(ws, names + [x]) == TotalCount(ws, names) + (if Known(ws, x) then 1 else 0)
  {
    assert (names + [x])[..|names|] == names;
    if ws != [] {
      TotalCountNext(ws[1..], names, x);
      assert forall w :: w in ws <==> w == ws[0] || w in ws[1..];
      if ws[0].name == x {
        forall w | w in ws[1..] ensures w.name != x {
          var i :| 0 <= i < |ws[1..]| && ws[1..][i] == w;
          assert ws[i + 1] == w;
        }
      }
    }
  }

  lemma {:induction false} NoNamesNoCount(ws: seq<Worker>)
    ensures TotalCount(ws, []) == 0
  {
    if ws != [] { NoNamesNoCount(ws[1..]); }
  }

  /** Every shard is counted once. */
  lemma {:induction false} CountsAddUp(ws: seq<Worker>, names: seq<string>)
    requires DistinctNames(ws) && AllKnown(ws, names)
    ensures TotalCount(ws, names) == |names|
  {
    if names == [] {
      NoNamesNoCount(ws);
    } else {
      var rest, x := names[..|names| - 1], names[|names| - 1];
      assert names == rest + [x];
      CountsAddUp(ws, rest);
      TotalCountNext(ws, rest, x);
    }
  }

  // Products of reals, one fact at a time.

  lemma {:induction false} Distribute(p: real, x: real, y: real)
    ensures p * (x + y) == p * x + p * y && (x + y) * p == x * p + y * p
  {
  }

  lemma {:induction false} Monotone(x: real, y: real, k: real)
    requires k > 0.0
    ensures x <= y <==> x * k <= y * k
  {
    if x < y { Grows(x, y, k); } else if y < x { Grows(y, x, k); }
  }

  lemma {:induction false} Grows(x: real, y: real, k: real)
    requires x < y && k > 0.0
    ensures x * k < y * k
  {
    assert (y - x) * k > 0.0;
  }

  lemma {:induction false} Regroup(x: real, c: real, d: real)
    ensures (x * c) * d == (x * d) * c
  {
  }

  lemma {:induction false} Quotient(n: real, c: real)
    requires c > 0.0
    ensures (n / c) * c == n
  {
  }

  /** `n / c - 1 / c <= m / d`, multiplied out. */
  lemma {:induction false} CrossMultiply(n: real, c: real, m: real, d: real)
    requires c > 0.0 && d > 0.0 && n / c - 1.0 / c <= m / d
    ensures (n - 1.0) * d <= m * c
  {
    var z, y := n / c - 1.0 / c, m / d;
    Quotient(n, c);
    Quotient(1.0, c);
    Quotient(m, d);
    Distribute(c, n / c, -(1.0 / c));
    assert z * c == n - 1.0;
    Monotone(z, y, c);
    Monotone(z * c, y * c, d);
    Regroup(y, c, d);
  }

  /** `p` units per capacity are no more than what a worker has in units of `c`. */
  ghost predicate Below(names: seq<string>, p: real, c: real, v: Worker) {
    p * v.capacity <= Count(names, v.name) as real * c
  }

  lemma {:induction false} SumOverWorkers(ws: seq<Worker>, names: seq<string>, p: real, c: real)
    requires forall v :: v in ws ==> Below(names, p, c, v)
    ensures p * TotalCapacity(ws) <= TotalCount(ws, names) as real * c
  {
    if ws != [] {
      SumOverWorkers(ws[1..], names, p, c);
      assert ws[0] in ws;
      AddWorker(p, c, ws[0].capacity, TotalCapacity(ws[1..]),
                Count(names, ws[0].name) as real, TotalCount(ws[1..], names) as real);
    }
  }

  lemma {:induction false} AddWorker(p: real, c: real, x: real, y: real, m: real, n: real)
    requires p * x <= m * c && p * y <= n * c
    ensures p * (x + y) <= (m + n) * c
  {
    Distribute(p, x, y);
    Distribute(c, m, n);
  }

  /** In a balanced assignment no worker has more than one shard above its proportional share:
      `n_w <= n c_w / C + 1`. */
  lemma {:induction false} ProportionalBound(ws: seq<Worker>, names: seq<string>, w: Worker)
    requires Positive(ws) && DistinctNames(ws) && w in ws && Balanced(ws, names) && AllKnown(ws, names)
    ensures (Count(names, w.name) as real - 1.0) * TotalCapacity(ws) <= |names| as real * w.capacity
  {
    var p := Count(names, w.name) as real - 1.0;
    forall v | v in ws ensures Below(names, p, w.capacity, v) {
      assert Even(names, w, v);
      assert exists i :: 0 <= i < |ws| && ws[i] == w;
      assert exists i :: 0 <= i < |ws| && ws[i] == v;
      PairBound(names, w, v);
    }
    SumOverWorkers(ws, names, p, w.capacity);
    CountsAddUp(ws, names);
  }

  lemma {:induction false} PairBound(names: seq<string>, w: Worker, v: Worker)
    requires w.capacity > 0.0 && v.capacity > 0.0 && Even(names, w, v)
    ensures Below(names, Count(names, w.name) as real - 1.0, w.capacity, v)
  {
    CrossMultiply(Count(names, w.name) as real, w.capacity, Count(names, v.name) as real, v.capacity);
  }

  lemma {:induction false} TotalCapacityPositive(ws: seq<Worker>)
    requires Positive(ws) && ws != []
    ensures TotalCapacity(ws) > 0.0
  {
    if |ws| > 1 { TotalCapacityPositive(ws[1..]); }
  }

  /** The load of an even split. */
  function Mean(ws: seq<Worker>, shards: nat): real
    requires TotalCapacity(ws) > 0.0
  {
    shards as real / TotalCapacity(ws)
  }

  /** How far a worker is above an even split. */
  ghost function Excess(names: seq<string>, mean: real, v: Worker): real {
    Count(names, v.name) as real - mean * v.capacity
  }

  ghost function TotalExcess(ws: seq<Worker>, names: seq<string>, mean: real): real {
    if ws == [] then 0.0 else Excess(names, mean, ws[0]) + TotalExcess(ws[1..], names, mean)
  }

  lemma {:induction false} ExcessAddsUp(ws: seq<Worker>, names: seq<string>, mean: real)
    ensures TotalExcess(ws, names, mean) == TotalCount(ws, names) as real - mean * TotalCapacity(ws)
  {
    if ws != [] {
      ExcessAddsUp(ws[1..], names, mean);
      Distribute(mean, ws[0].capacity, TotalCapacity(ws[1..]));
    }
  }

  lemma {:induction false} SomeoneIsBusy(ws: seq<Worker>, names: seq<string>, mean: real) returns (v: Worker)
    requires ws != [] && TotalExcess(ws, names, mean) >= 0.0
    ensures v in ws && Excess(names, mean, v) >= 0.0
  {
    v := ws[0];
    if Excess(names, mean, v) < 0.0 {
      v := SomeoneIsBusy(ws[1..], names, mean);
    }
  }

  /** Against the even split the excesses cancel. */
  lemma {:induction false} EvenSplit(ws: seq<Worker>, names: seq<string>)
    requires DistinctNames(ws) && AllKnown(ws, names) && TotalCapacity(ws) > 0.0
    ensures TotalExcess(ws, names, Mean(ws, |names|)) == 0.0
  {
    Quotient(|names| as real, TotalCapacity(ws));
    CountsAddUp(ws, names);
    ExcessAddsUp(ws, names, Mean(ws, |names|));
  }

  /** In any assignment some worker is at least as busy as the average. */
  lemma {:induction false} MeanIsReached(ws: seq<Worker>, names: seq<string>) returns (v: Worker)
    requires Positive(ws) && DistinctNames(ws) && ws != [] && AllKnown(ws, names)
    requires TotalCapacity(ws) > 0.0
    ensures v in ws && v.capacity > 0.0 && Mean(ws, |names|) <= Load(names, v)
  {
    var mean := Mean(ws, |names|);
    EvenSplit(ws, names);
    v := SomeoneIsBusy(ws, names, mean);
    var i :| 0 <= i < |ws| && ws[i] == v;
    AtLeastMean(mean, v.capacity, Count(names, v.name) as real);
  }

  lemma {:induction false} MeanIsNearlyKept(ws: seq<Worker>, names: seq<string>, w: Worker)
    requires Positive(ws) && DistinctNames(ws) && w in ws && Balanced(ws, names) && AllKnown(ws, names)
    requires w.capacity > 0.0 && TotalCapacity(ws) > 0.0
    ensures Load(names, w) <= Mean(ws, |names|) + 1.0 / w.capacity
  {
    Quotient(|names| as real, TotalCapacity(ws));
    ProportionalBound(ws, names, w);
    AtMostMean(Count(names, w.name) as real, w.capacity, TotalCapacity(ws), |names| as real, Mean(ws, |names|));
  }

  /** The makespan bound: against any assignment of as many shards, a balanced one finishes at most
      one shard later on each worker: `n_w / c_w <= m_v / c_v + 1 / c_w` for some `v`. */
  lemma {:induction false} MakespanBound(ws: seq<Worker>, names: seq<string>, other: seq<string>, w: Worker)
    returns (v: Worker)
    requires Positive(ws) && DistinctNames(ws) && w in ws && Balanced(ws, names)
    requires AllKnown(ws, names) && AllKnown(ws, other) && |other| == |names|
    ensures v in ws && v.capacity > 0.0 && w.capacity > 0.0
    ensures Load(names, w) <= Load(other, v) + 1.0 / w.capacity
  {
    TotalCapacityPositive(ws);
    v := MeanIsReached(ws, other);
    MeanIsNearlyKept(ws, names, w);
  }

  /** No worker has more than one shard above its proportional share. */
  ghost predicate WithinShare(ws: seq<Worker>, names: seq<string>) {
    forall w :: w in ws ==> (Count(names, w.name) as real - 1.0) * TotalCapacity(ws) <= |names| as real * w.capacity
  }

  /** Whatever other assignment of as many shards is chosen, each worker finishes at most one own shard
      after some worker of that assignment. */
  ghost predicate NearlyOptimal(ws: seq<Worker>, names: seq<string>) {
    forall w, other | w in ws && AllKnown(ws, other) && |other| == |names| ::
      exists v :: v in ws && LaterByOneShard(names, w, other, v)
  }

  ghost predicate LaterByOneShard(names: seq<string>, w: Worker, other: seq<string>, v: Worker) {
    w.capacity > 0.0 && v.capacity > 0.0 && Load(names, w) <= Load(other, v) + 1.0 / w.capacity
  }

  lemma {:induction false} BalancedIsNearlyOptimal(ws: seq<Worker>, names: seq<string>)
    requires Positive(ws) && DistinctNames(ws) && Balanced(ws, names) && AllKnown(ws, names)
    ensures WithinShare(ws, names) && NearlyOptimal(ws, names)
  {
    forall w | w in ws
      ensures (Count(names, w.name) as real - 1.0) * TotalCapacity(ws) <= |names| as real * w.capacity
    {
      ProportionalBound(ws, names, w);
    }
    forall w, other | w in ws && AllKnown(ws, other) && |other| == |names|
      ensures exists v :: v in ws && LaterByOneShard(names, w, other, v)
    {
      var v := MakespanBound(ws, names, other, w);
      assert LaterByOneShard(names, w, other, v);
    }
  }

  lemma {:induction false} AtLeastMean(mean: real, c: real, m: real)
    requires c > 0.0 && mean * c <= m
    ensures mean <= m / c
  {
    Quotient(m, c);
    Monotone(mean, m / c, c);
  }

  lemma {:induction false} AtMostMean(n: real, c: real, total: real, shards: real, mean: real)
    requires c > 0.0 && total > 0.0 && mean * total == shards && (n - 1.0) * total <= shards * c
    ensures n / c <= mean + 1.0 / c
  {
    Regroup(mean, total, c);
    Monotone(n - 1.0, mean * c, total);
    Quotient(n, c);
    Quotient(1.0, c);
    Distribute(c, mean, 1.0 / c);
    Monotone(n / c, mean + 1.0 / c, c);
  }

  // ---------- coverage ----------

  datatype Shard = Shard(keys: seq<string>, count: int)
  datatype Coverage = Covered(keys: set<string>) | InvalidKeys(shard: nat) | Duplicate(shard: nat)

  ghost predicate NoDuplicates(s: seq<string>) {
    forall i, j :: 0 <= i < j < |s| ==> s[i] != s[j]
  }

  function AllKeys(shards: seq<Shard>): seq<string> {
    if shards == [] then [] else AllKeys(shards[..|shards| - 1]) + shards[|shards| - 1].keys
  }

  function KeySet(s: seq<string>): set<string> {
    set x | x in s
  }

  lemma {:induction false} KeySetSize(s: seq<string>)
    ensures |KeySet(s)| <= |s|
    ensures |KeySet(s)| == |s| <==> NoDuplicates(s)
  {
    if s != [] {
      var rest, x := s[..|s| - 1], s[|s| - 1];
      KeySetSize(rest);
      assert KeySet(s) == KeySet(rest) + {x};
      assert s == rest + [x];
      if x in rest {
        assert KeySet(s) == KeySet(rest);
        var i :| 0 <= i < |rest| && rest[i] == x;
        assert s[i] == s[|s| - 1];
      } else {
        assert forall i :: 0 <= i < |rest| ==> s[i] == rest[i] && rest[i] in rest;
      }
    }
  }

  lemma {:induction false} NoDuplicatesConcat(s: seq<string>, t: seq<string>)
    ensures NoDuplicates(s + t) <==> NoDuplicates(s) && NoDuplicates(t) && KeySet(s) !! KeySet(t)
  {
    var u := s + t;
    if NoDuplicates(u) {
      assert forall i :: 0 <= i < |s| ==> u[i] == s[i];
      forall i, j | 0 <= i < j < |t| ensures t[i] != t[j] {
        assert u[|s| + i] == t[i] && u[|s| + j] == t[j];
      }
      forall i, j | 0 <= i < |s| && 0 <= j < |t| ensures s[i] != t[j] {
        assert u[i] == s[i] && u[|s| + j] == t[j];
      }
    }
    if NoDuplicates(s) && NoDuplicates(t) && KeySet(s) !! KeySet(t) {
      forall i, j | 0 <= i < j < |u| ensures u[i] != u[j] {
        if i < |s| <= j {
          assert u[i] in s && u[j] in t && u[i] in KeySet(s) && u[j] in KeySet(t);
        }
      }
    }
  }

  /** No key occurs twice in all the shards together, and every shard has as many as it claims. */
  ghost predicate Clean(shards: seq<Shard>) {
    NoDuplicates(AllKeys(shards)) && CountsRight(shards)
  }

  /** The first shard at fault: its keys are wrong, or one of them belongs to an earlier shard. */
  ghost predicate FirstFlaw(shards: seq<Shard>, r: Coverage) {
    match r
    case Covered(_) => false
    case InvalidKeys(i) =>
      && i < |shards| && Clean(shards[..i])
      && (|shards[i].keys| != shards[i].count || !NoDuplicates(shards[i].keys))
    case Duplicate(i) =>
      && i < |shards| && Clean(shards[..i])
      && |shards[i].keys| == shards[i].count && NoDuplicates(shards[i].keys)
      && exists key :: key in shards[i].keys && key in AllKeys(shards[..i])
  }

  /** The coverage loop of `cmd_verify`, with the key checks of `verify_result`. */
  method VerifyCoverage(shards: seq<Shard>) returns (r: Coverage)
    ensures r.Covered? <==> Clean(shards)
    ensures !r.Covered? ==> FirstFlaw(shards, r)
    ensures r.Covered? ==> r.keys == KeySet(AllKeys(shards)) && |r.keys| == |AllKeys(shards)|
  {
    var all: set<string> := {};
    for i := 0 to |shards|
      invariant Clean(shards[..i]) && all == KeySet(AllKeys(shards[..i]))
    {
      var shard := shards[i];
      CleanPrefix(shards, i + 1);
      OneMoreResult(shards, i);
      KeySetSize(shard.keys);
      if |shard.keys| != shard.count || |shard.keys| != |KeySet(shard.keys)| { return InvalidKeys(i); }
      if !(all !! KeySet(shard.keys)) {
        var key :| key in all && key in KeySet(shard.keys);
        return Duplicate(i);
      }
      all := all + KeySet(shard.keys);
    }
    assert shards[..|shards|] == shards;
    KeySetSize(AllKeys(shards));
    r := Covered(all);
  }

  /** One more result keeps the coverage clean exactly when its keys are counted right, distinct and
      new. */
  lemma {:induction false} OneMoreResult(shards: seq<Shard>, i: nat)
    requires i < |shards| && Clean(shards[..i])
    ensures var all, keys := KeySet(AllKeys(shards[..i])), shards[i].keys;
            && KeySet(AllKeys(shards[..i + 1])) == all + KeySet(keys)
            && (Clean(shards[..i + 1]) <==>
                  |keys| == shards[i].count && |keys| == |KeySet(keys)| && all !! KeySet(keys))
  {
    KeysNext(shards, i);
    KeySetSize(shards[i].keys);
    CountsNext(shards, i);
  }

  lemma {:induction false} KeysNext(shards: seq<Shard>, i: nat)
    requires i < |shards|
    ensures var seen, keys := AllKeys(shards[..i]), shards[i].keys;
            && KeySet(AllKeys(shards[..i + 1])) == KeySet(seen) + KeySet(keys)
            && (NoDuplicates(AllKeys(shards[..i + 1])) <==>
                  NoDuplicates(seen) && NoDuplicates(keys) && KeySet(seen) !! KeySet(keys))
  {
    assert shards[..i + 1][..i] == shards[..i];
    NoDuplicatesConcat(AllKeys(shards[..i]), shards[i].keys);
  }

  ghost predicate CountsRight(shards: seq<Shard>) {
    forall i :: 0 <= i < |shards| ==> |shards[i].keys| == shards[i].count
  }

  lemma {:induction false} CountsNext(shards: seq<Shard>, i: nat)
    requires i < |shards|
    ensures CountsRight(shards[..i + 1]) <==> CountsRight(shards[..i]) && |shards[i].keys| == shards[i].count
  {
    var now := shards[..i + 1];
    assert now[i] == shards[i] && forall j :: 0 <= j < i ==> now[j] == shards[..i][j];
  }

  lemma {:induction false} CleanPrefix(shards: seq<Shard>, n: nat)
    requires n <= |shards|
    ensures Clean(shards) ==> Clean(shards[..n])
  {
    if n == |shards| {
      assert shards[..n] == shards;
    } else {
      var last := |shards| - 1;
      NoDuplicatesConcat(AllKeys(shards[..last]), shards[last].keys);
      CleanPrefix(shards[..last], n);
      assert shards[..last][..n] == shards[..n];
    }
  }
}
