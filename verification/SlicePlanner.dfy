/** The slice planner of the sharded merge: weighted shares under caps, with exact coverage. */
module SlicePlanner {
  import NT = NumberTheory

  /** A worker that can take a slice: its name, its cap and its weight. */
  datatype Raw = Raw(source: string, maxPrefixes: int, weight: int)

  /** A planned slice `[start, start + count)`. */
  datatype Slice = Slice(item: Raw, start: int, count: int)

  datatype PlanError =
    | NegativeTotal
    | InvalidItem(index: nat)
    | InsufficientCapacity
    | InvalidCount(index: nat)
    | Discontinuity(index: nat)
    | ExceedsTotal(index: nat)
    | Incomplete

  datatype Plan = Planned(jobs: seq<Slice>) | Refused(error: PlanError)
  datatype Check = Valid | Invalid(error: PlanError)

  predicate ValidItem(x: Raw) {
    x.maxPrefixes >= 0 && x.weight > 0
  }

  predicate ValidItems(items: seq<Raw>) {
    forall i :: 0 <= i < |items| ==> ValidItem(items[i])
  }

  function Capacity(items: seq<Raw>): (c: int)
    ensures ValidItems(items) ==> c >= 0
  {
    if items == [] then 0 else items[0].maxPrefixes + Capacity(items[1..])
  }

  function WeightSum(items: seq<Raw>): (w: int)
    ensures ValidItems(items) ==> w >= 0
    ensures ValidItems(items) && items != [] ==> w >= items[0].weight > 0
  {
    if items == [] then 0 else items[0].weight + WeightSum(items[1..])
  }

  function Min(x: int, y: int): int { if x <= y then x else y }
  function Max(x: int, y: int): int { if x >= y then x else y }

  // ---------- covers ----------

  /** The slices are consecutive, nonempty and run from `cursor` to `total`. */
  predicate Covers(jobs: seq<Slice>, cursor: int, total: int) {
    if jobs == [] then cursor == total
    else jobs[0].start == cursor && jobs[0].count > 0 && Covers(jobs[1..], cursor + jobs[0].count, total)
  }

  predicate InSlice(x: int, job: Slice) {
    job.start <= x < job.start + job.count
  }

  lemma {:induction false} CoversFrom(jobs: seq<Slice>, cursor: int, total: int)
    requires Covers(jobs, cursor, total)
    ensures cursor <= total
    ensures forall i :: 0 <= i < |jobs| ==> cursor <= jobs[i].start && jobs[i].start + jobs[i].count <= total
  {
    if jobs != [] {
      CoversFrom(jobs[1..], cursor + jobs[0].count, total);
    }
  }

  /** A cover puts every position in exactly one slice. */
  lemma {:induction false} CoversOnce(jobs: seq<Slice>, cursor: int, total: int, x: int) returns (i: nat)
    requires Covers(jobs, cursor, total) && cursor <= x < total
    ensures i < |jobs| && InSlice(x, jobs[i])
    ensures forall j :: 0 <= j < |jobs| && InSlice(x, jobs[j]) ==> j == i
  {
    CoversFrom(jobs[1..], cursor + jobs[0].count, total);
    if x < cursor + jobs[0].count {
      i := 0;
    } else {
      var k := CoversOnce(jobs[1..], cursor + jobs[0].count, total, x);
      i := k + 1;
    }
  }

  /** The slices before `i` are consecutive from 0 and stay within the total; slice `i` should start at
      their end. */
  ghost predicate Expects(jobs: seq<Slice>, total: int, i: nat, cursor: int) {
    i <= |jobs| && 0 <= cursor <= total && Covers(jobs[..i], 0, cursor)
  }

  /** The first thing wrong with a partition. */
  ghost predicate FirstFlaw(jobs: seq<Slice>, total: int, e: PlanError) {
    match e
    case NegativeTotal => total < 0
    case InvalidCount(i) => i < |jobs| && jobs[i].count <= 0 && exists cursor :: Expects(jobs, total, i, cursor)
    case Discontinuity(i) =>
      i < |jobs| && jobs[i].count > 0 && exists cursor :: Expects(jobs, total, i, cursor) && jobs[i].start != cursor
    case ExceedsTotal(i) =>
      && i < |jobs| && jobs[i].count > 0 && jobs[i].start + jobs[i].count > total
      && Expects(jobs, total, i, jobs[i].start)
    case Incomplete => exists cursor :: Expects(jobs, total, |jobs|, cursor) && cursor < total
    case _ => false
  }

  lemma {:induction false} CoversAppend(jobs: seq<Slice>, cursor: int, job: Slice, mid: int)
    requires Covers(jobs, cursor, mid) && job.start == mid && job.count > 0
    ensures Covers(jobs + [job], cursor, mid + job.count)
  {
    if jobs == [] {
      assert ([job])[1..] == [];
    } else {
      CoversAppend(jobs[1..], cursor + jobs[0].count, job, mid);
      assert (jobs + [job])[1..] == jobs[1..] + [job];
    }
  }

  /** `validate_partition`. */
  method ValidatePartition(jobs: seq<Slice>, total: int) returns (r: Check)
    ensures r.Valid? <==> total >= 0 && Covers(jobs, 0, total)
    ensures r.Invalid? ==> FirstFlaw(jobs, total, r.error)
  {
    if total < 0 { return Invalid(NegativeTotal); }
    var cursor := 0;
    for index := 0 to |jobs|
      invariant 0 <= cursor <= total
      invariant Expects(jobs, total, index, cursor)
      invariant Covers(jobs, 0, total) <==> Covers(jobs[index..], cursor, total)
    {
      var job := jobs[index];
      assert jobs[..index + 1] == jobs[..index] + [job];
      assert jobs[index..][1..] == jobs[index + 1..];
      if job.count <= 0 { return Invalid(InvalidCount(index)); }
      if job.start != cursor { return Invalid(Discontinuity(index)); }
      CoversAppend(jobs[..index], 0, job, cursor);
      cursor := cursor + job.count;
      if cursor > total {
        if Covers(jobs[index + 1..], cursor, total) { CoversFrom(jobs[index + 1..], cursor, total); }
        return Invalid(ExceedsTotal(index));
      }
    }
    assert jobs[..|jobs|] == jobs;
    if cursor != total { return Invalid(Incomplete); }
    r := Valid;
  }

  // ---------- shares ----------

  /** The weighted target of the current slice. */
  function Target(weight: int, remaining: int, remainingWeight: int): int {
    if remainingWeight > 0 then remaining * weight / remainingWeight else 0
  }

  function Advised(item: Raw, remaining: int, remainingWeight: int): int {
    Min(Min(item.maxPrefixes, remaining), Target(item.weight, remaining, remainingWeight))
  }

  /** What later slices cannot take. */
  function MinimumHere(remaining: int, laterCapacity: int): int {
    Max(0, remaining - laterCapacity)
  }

  function Share(item: Raw, remaining: int, remainingWeight: int, laterCapacity: int): int {
    Max(MinimumHere(remaining, laterCapacity), Advised(item, remaining, remainingWeight))
  }

  /** The minimum exceeds the advised share. */
  predicate Binds(item: Raw, remaining: int, remainingWeight: int, laterCapacity: int) {
    MinimumHere(remaining, laterCapacity) > Advised(item, remaining, remainingWeight)
  }

  /** The shares of all slices, before zero shares are dropped. */
  function Shares(items: seq<Raw>, remaining: int): (r: seq<int>)
    ensures |r| == |items|
  {
    if items == [] then []
    else
      var s := Share(items[0], remaining, WeightSum(items), Capacity(items[1..]));
      [s] + Shares(items[1..], remaining - s)
  }

  function Sum(s: seq<int>): int {
    if s == [] then 0 else s[0] + Sum(s[1..])
  }

  lemma {:induction false} TargetBounds(weight: int, remaining: int, remainingWeight: int)
    requires 0 < weight <= remainingWeight && remaining >= 0
    ensures 0 <= Target(weight, remaining, remainingWeight) <= remaining
    ensures Target(weight, remaining, remainingWeight) * remainingWeight <= remaining * weight
  {
    var n := remaining * weight;
    var q := n / remainingWeight;
    assert n == remainingWeight * q + n % remainingWeight;
    NT.MulMono(remaining, weight, remainingWeight);
    if q > remaining { NT.MulStrict(remainingWeight, remaining, q); }
    if q < 0 { NT.MulStrict(remainingWeight, q, 0); }
  }

  lemma {:induction false} ShareBounds(item: Raw, remaining: int, remainingWeight: int, laterCapacity: int)
    requires ValidItem(item) && item.weight <= remainingWeight
    requires 0 <= remaining <= item.maxPrefixes + laterCapacity && laterCapacity >= 0
    ensures var s := Share(item, remaining, remainingWeight, laterCapacity);
            0 <= s <= item.maxPrefixes && s <= remaining && remaining - s <= laterCapacity
  {
    TargetBounds(item.weight, remaining, remainingWeight);
  }

  /** With capacity for everything, the shares respect the caps and add up to the total. */
  lemma {:induction false} SharesCover(items: seq<Raw>, remaining: int)
    requires ValidItems(items) && 0 <= remaining <= Capacity(items)
    ensures Sum(Shares(items, remaining)) == remaining
    ensures forall i :: 0 <= i < |items| ==> 0 <= Shares(items, remaining)[i] <= items[i].maxPrefixes
  {
    if items != [] {
      var s := Share(items[0], remaining, WeightSum(items), Capacity(items[1..]));
      assert WeightSum(items[1..]) >= 0;
      ShareBounds(items[0], remaining, WeightSum(items), Capacity(items[1..]));
      SharesCover(items[1..], remaining - s);
    }
  }

  /** On the last slice the share is already the remainder, so overriding it changes nothing. */
  lemma {:induction false} LastOverrideIsIdle(item: Raw, remaining: int)
    requires ValidItem(item) && 0 <= remaining <= item.maxPrefixes
    ensures Share(item, remaining, item.weight, 0) == remaining
  {
    TargetBounds(item.weight, remaining, item.weight);
  }

  // ---------- advisory targets ----------

  /** Once the later slices can take exactly the remainder, every slice is filled to its cap. */
  lemma {:induction false} FullFromHere(items: seq<Raw>, remaining: int)
    requires ValidItems(items) && remaining == Capacity(items)
    ensures forall i :: 0 <= i < |items| ==> Shares(items, remaining)[i] == items[i].maxPrefixes
  {
    if items != [] {
      var item, later, w := items[0], Capacity(items[1..]), WeightSum(items);
      assert WeightSum(items[1..]) >= 0;
      TargetBounds(item.weight, remaining, w);
      FullFromHere(items[1..], remaining - item.maxPrefixes);
    }
  }

  /** One advised share keeps the running allocation within the proportional share:
      `given / total <= passed / all` before implies it after. */
  lemma {:induction false} StaysProportional(total: nat, given: nat, share: nat, passed: nat, weight: nat,
                                             rest: nat)
    requires given <= total && weight <= rest && rest > 0
    requires given * (passed + rest) <= total * passed
    requires share * rest <= (total - given) * weight
    ensures (given + share) * (passed + rest) <= total * (passed + weight)
  {
    var all := passed + rest;
    var lhs, rhs := (given + share) * all, total * (passed + weight);
    LeftSide(given, share, all, rest);
    NT.MulMono(all, share * rest, (total - given) * weight);
    Rearranged(total, given, passed, weight, rest - weight);
    if lhs > rhs { NT.MulStrict(rest, rhs, lhs); }
  }

  lemma {:induction false} LeftSide(given: nat, share: nat, all: nat, rest: nat)
    ensures ((given + share) * all) * rest == (given * all) * rest + all * (share * rest)
  {
    NT.MulSplit(all, given, share);
    NT.MulSplit(rest, given * all, share * all);
    NT.MulAssoc(all, share, rest);
  }

  lemma {:induction false} Rearranged(total: nat, given: nat, passed: nat, weight: nat, free: nat)
    requires given <= total
    requires given * (passed + (free + weight)) <= total * passed
    ensures (given * (passed + (free + weight))) * (free + weight)
          + (passed + (free + weight)) * ((total - given) * weight)
         <= (total * (passed + weight)) * (free + weight)
  {
    var all := passed + (free + weight);
    NT.MulMono(free, given * all, total * passed);
    SplitGiven(total, given, all, weight, free);
    CollectTotal(total, passed, weight, free);
  }

  lemma {:induction false} SplitGiven(total: int, given: int, all: int, weight: int, free: int)
    ensures (given * all) * (free + weight) + all * ((total - given) * weight)
         == (given * all) * free + (total * weight) * all
  {
    NT.MulSplit(given * all, free, weight);
    assert (total - given) * weight == total * weight - given * weight;
    NT.MulSplit(all, total * weight, -(given * weight));
    NT.MulAssoc(all, given, weight);
  }

  lemma {:induction false} CollectTotal(total: int, passed: int, weight: int, free: int)
    ensures (total * passed) * free + (total * weight) * (passed + (free + weight))
         == (total * (passed + weight)) * (free + weight)
  {
    NT.MulSplit(total, passed, weight);
    NT.MulSplit(total * weight, passed, free + weight);
    NT.MulSplit(total * passed, free, weight);
    NT.MulSplit(free + weight, total * passed, total * weight);
    NT.MulAssoc(total, weight, passed);
    NT.MulAssoc(total, passed, weight);
  }

  /** The first slice whose minimum binds; the number of slices when none does. */
  function FirstBound(items: seq<Raw>, remaining: int): (r: nat)
    ensures r <= |items|
  {
    if items == [] then 0
    else if Binds(items[0], remaining, WeightSum(items), Capacity(items[1..])) then 0
    else 1 + FirstBound(items[1..], remaining - Share(items[0], remaining, WeightSum(items), Capacity(items[1..])))
  }

  ghost predicate ProportionalUntil(items: seq<Raw>, remaining: int, total: int, given: int, passed: int,
                                    bound: nat)
    requires bound <= |items|
  {
    forall i :: 0 <= i <= bound ==> ProportionalAt(items, Shares(items, remaining), total, given, passed, i)
  }

  /** After `i` slices the allocation is at most the weighted proportion of the total. */
  ghost predicate ProportionalAt(items: seq<Raw>, shares: seq<int>, total: int, given: int, passed: int, i: nat)
    requires i <= |items| == |shares|
  {
    (given + Sum(shares[..i])) * (passed + WeightSum(items)) <= total * (passed + WeightSum(items[..i]))
  }

  lemma {:induction false} ShareKinds(item: Raw, remaining: nat, w: nat, later: nat)
    requires ValidItem(item) && item.weight <= w && remaining <= item.maxPrefixes + later
    ensures var s := Share(item, remaining, w, later);
            if Binds(item, remaining, w, later) then remaining - s == later
            else s * w <= remaining * item.weight
  {
    ShareBounds(item, remaining, w, later);
    AdvisedProportion(item, remaining, w);
  }

  /** The first slice: its share and what it leaves. */
  lemma {:induction false} FirstShare(items: seq<Raw>, remaining: nat) returns (s: nat, left: nat)
    requires items != [] && ValidItems(items) && remaining <= Capacity(items)
    ensures s == Shares(items, remaining)[0] && left == remaining - s
    ensures Shares(items, remaining)[1..] == Shares(items[1..], left)
    ensures s <= items[0].maxPrefixes && left <= Capacity(items[1..])
    ensures items[0].weight <= WeightSum(items)
    ensures FirstBound(items, remaining) == 0 ==> left == Capacity(items[1..])
    ensures FirstBound(items, remaining) > 0 ==>
              && FirstBound(items, remaining) == 1 + FirstBound(items[1..], left)
              && s * WeightSum(items) <= remaining * items[0].weight
  {
    var item, later, w := items[0], Capacity(items[1..]), WeightSum(items);
    assert WeightSum(items[1..]) >= 0;
    ShareBounds(item, remaining, w, later);
    ShareKinds(item, remaining, w, later);
    s := Share(item, remaining, w, later);
    left := remaining - s;
  }

  /** Before the minimum first binds, the running allocation never exceeds the proportional share. */
  lemma {:induction false} AdvisoryBefore(items: seq<Raw>, remaining: nat, total: nat, given: nat, passed: nat)
    requires ValidItems(items) && remaining <= Capacity(items) && given + remaining == total
    requires given * (passed + WeightSum(items)) <= total * passed
    ensures ProportionalUntil(items, remaining, total, given, passed, FirstBound(items, remaining))
  {
    var shares := Shares(items, remaining);
    if items == [] || FirstBound(items, remaining) == 0 {
      assert shares[..0] == [] && items[..0] == [];
    } else {
      var rest, w := items[1..], WeightSum(items);
      var s, left := FirstShare(items, remaining);
      StaysProportional(total, given, s, passed, items[0].weight, w);
      AdvisoryBefore(rest, left, total, given + s, passed + items[0].weight);
      forall i | 0 <= i <= FirstBound(items, remaining)
        ensures ProportionalAt(items, shares, total, given, passed, i)
      {
        SumsOfHead(items, shares, i);
        if i > 0 { assert ProportionalAt(rest, shares[1..], total, given + s, passed + items[0].weight, i - 1); }
      }
    }
  }

  lemma {:induction false} SumsOfHead(items: seq<Raw>, shares: seq<int>, i: nat)
    requires i <= |items| == |shares|
    ensures i == 0 ==> Sum(shares[..i]) == 0 && WeightSum(items[..i]) == 0
    ensures i > 0 ==> Sum(shares[..i]) == shares[0] + Sum(shares[1..][..i - 1])
    ensures i > 0 ==> WeightSum(items[..i]) == items[0].weight + WeightSum(items[1..][..i - 1])
  {
    if i > 0 {
      assert shares[..i][1..] == shares[1..][..i - 1];
      assert items[..i][1..] == items[1..][..i - 1];
    }
  }

  lemma {:induction false} AdvisedProportion(item: Raw, remaining: nat, w: nat)
    requires ValidItem(item) && item.weight <= w
    ensures Advised(item, remaining, w) * w <= remaining * item.weight
  {
    TargetBounds(item.weight, remaining, w);
    var a, t := Advised(item, remaining, w), Target(item.weight, remaining, w);
    NT.MulMono(w, a, t);
  }

  /** When the minimum binds, this slice takes just what the later ones cannot, and they all fill up. */
  lemma {:induction false} FullAfter(items: seq<Raw>, remaining: nat)
    requires ValidItems(items) && remaining <= Capacity(items)
    ensures var b, shares := FirstBound(items, remaining), Shares(items, remaining);
            && (forall i :: b < i < |items| ==> shares[i] == items[i].maxPrefixes)
            && (b < |items| ==> Sum(shares[..b + 1]) == remaining - Capacity(items[b + 1..]))
  {
    if items != [] {
      var rest, shares, b := items[1..], Shares(items, remaining), FirstBound(items, remaining);
      var s, left := FirstShare(items, remaining);
      if b == 0 {
        FullFromHere(rest, left);
        assert shares[..1] == [s];
      } else {
        FullAfter(rest, left);
        if b < |items| {
          assert shares[..b + 1][1..] == Shares(rest, left)[..b];
          assert items[b + 1..] == rest[b..];
        }
      }
    }
  }

  /** Up to the slice where the minimum first binds, the running allocation is at most the weighted
      proportion of the total; from the next slice on every cap is reached. */
  lemma {:induction false} AdvisoryUntilBound(items: seq<Raw>, total: nat)
    requires ValidItems(items) && total <= Capacity(items)
    ensures var b, shares := FirstBound(items, total), Shares(items, total);
            && (forall i :: 0 <= i <= b ==> ProportionalAt(items, shares, total, 0, 0, i))
            && (forall i :: b < i < |items| ==> shares[i] == items[i].maxPrefixes)
            && (b < |items| ==> Sum(shares[..b + 1]) == total - Capacity(items[b + 1..]))
  {
    assert WeightSum(items) >= 0;
    AdvisoryBefore(items, total, total, 0, 0);
    FullAfter(items, total);
  }

  /** The slice at which the minimum binds reaches its own cap exactly when what is left then is all the
      capacity from there on. */
  lemma {:induction false} BindingShare(items: seq<Raw>, total: nat)
    requires ValidItems(items) && total <= Capacity(items) && FirstBound(items, total) < |items|
    ensures var b, shares := FirstBound(items, total), Shares(items, total);
            shares[b] == items[b].maxPrefixes <==> total - Sum(shares[..b]) == Capacity(items[b..])
  {
    var b, shares := FirstBound(items, total), Shares(items, total);
    FullAfter(items, total);
    SumNext(shares, b);
    assert items[b..][1..] == items[b + 1..];
  }

  lemma {:induction false} SumNext(s: seq<int>, i: nat)
    requires i < |s|
    ensures Sum(s[..i + 1]) == Sum(s[..i]) + s[i]
  {
    if i == 0 {
      assert s[..1] == [s[0]] && s[..0] == [];
    } else {
      SumNext(s[1..], i - 1);
      assert s[..i + 1][1..] == s[1..][..i] && s[..i][1..] == s[1..][..i - 1];
    }
  }

  /** It need not: with caps 10 and 3, weights 1 and 9 and six prefixes, the first slice binds at three. */
  lemma {:induction false} BindingBelowCap()
    ensures var items := [Raw("a", 10, 1), Raw("b", 3, 9)];
            FirstBound(items, 6) == 0 && Shares(items, 6)[0] == 3 < items[0].maxPrefixes
  {
    var items := [Raw("a", 10, 1), Raw("b", 3, 9)];
    assert items[1..] == [Raw("b", 3, 9)] && [Raw("b", 3, 9)][1..] == [];
    assert WeightSum(items) == 10 && Capacity(items[1..]) == 3;
  }

  // ---------- every share outright ----------

  /** A share within the cap and within the weighted proportion of what is left. */
  predicate Affordable(item: Raw, share: int, left: int, w: int) {
    share <= item.maxPrefixes && share * w <= left * item.weight
  }

  /** A slice takes what the later ones cannot, if that is more than it can afford, and otherwise the
      most that it can afford. */
  predicate ShareRule(item: Raw, share: int, left: int, w: int, later: int) {
    var forced := left - later;
    && forced <= share
    && if forced > 0 && !Affordable(item, forced, left, w) then share == forced
       else share >= 0 && Affordable(item, share, left, w) && !Affordable(item, share + 1, left, w)
  }

  lemma {:induction false} TargetIsFloor(weight: int, remaining: int, w: int, s: int)
    requires w > 0
    ensures s <= Target(weight, remaining, w) <==> s * w <= remaining * weight
  {
    var n := remaining * weight;
    var q := n / w;
    assert n == w * q + n % w;
    if s <= q { NT.MulMono(w, 0, q - s); NT.MulSplit(w, s, q - s); } else { NT.MulStrict(w, q, s); }
  }

  lemma {:induction false} ShareFollowsRule(item: Raw, left: nat, w: nat, later: nat)
    requires ValidItem(item) && item.weight <= w && left <= item.maxPrefixes + later
    ensures ShareRule(item, Share(item, left, w, later), left, w, later)
  {
    var s := Share(item, left, w, later);
    TargetBounds(item.weight, left, w);
    TargetIsFloor(item.weight, left, w, s);
    TargetIsFloor(item.weight, left, w, s + 1);
    TargetIsFloor(item.weight, left, w, left - later);
  }

  /** Share `i` follows the rule, with what is left, the weights and the caps from there on. */
  ghost predicate FollowsRule(items: seq<Raw>, shares: seq<int>, total: int, i: nat)
    requires i < |items| == |shares|
  {
    ShareRule(items[i], shares[i], total - Sum(shares[..i]), WeightSum(items[i..]), Capacity(items[i + 1..]))
  }

  /** The share of every slice follows the rule. */
  lemma {:induction false} SharesFollowRule(items: seq<Raw>, total: nat, i: nat)
    requires ValidItems(items) && total <= Capacity(items) && i < |items|
    ensures FollowsRule(items, Shares(items, total), total, i)
  {
    var s, left := FirstShare(items, total);
    if i == 0 {
      FirstFollowsRule(items, total);
    } else {
      SharesFollowRule(items[1..], left, i - 1);
      ShiftedRule(items, Shares(items, total), total, i);
    }
  }

  lemma {:induction false} ShiftedRule(items: seq<Raw>, shares: seq<int>, total: int, i: nat)
    requires 0 < i < |items| == |shares| && FollowsRule(items[1..], shares[1..], total - shares[0], i - 1)
    ensures FollowsRule(items, shares, total, i)
  {
    SumsOfHead(items, shares, i);
    assert items[i..] == items[1..][i - 1..] && items[i + 1..] == items[1..][i..];
  }

  lemma {:induction false} FirstFollowsRule(items: seq<Raw>, total: nat)
    requires items != [] && ValidItems(items) && total <= Capacity(items)
    ensures FollowsRule(items, Shares(items, total), total, 0)
  {
    var s, left := FirstShare(items, total);
    assert items[0..] == items;
    ShareFollowsRule(items[0], total, WeightSum(items), Capacity(items[1..]));
  }

  // ---------- the planner ----------

  /** The slices that get a share, placed one after another. */
  function Placed(items: seq<Raw>, shares: seq<int>, cursor: int): (r: seq<Slice>)
    requires |items| == |shares|
  {
    if items == [] then []
    else
      var rest := Placed(items[1..], shares[1..], cursor + shares[0]);
      if shares[0] == 0 then rest else [Slice(items[0], cursor, shares[0])] + rest
  }

  ghost predicate WithinCaps(items: seq<Raw>, shares: seq<int>) {
    |items| == |shares| && forall i :: 0 <= i < |items| ==> 0 <= shares[i] <= items[i].maxPrefixes
  }

  lemma {:induction false} PlacedCover(items: seq<Raw>, shares: seq<int>, cursor: int)
    requires WithinCaps(items, shares)
    ensures Covers(Placed(items, shares, cursor), cursor, cursor + Sum(shares))
  {
    if items != [] {
      var rest := Placed(items[1..], shares[1..], cursor + shares[0]);
      PlacedCover(items[1..], shares[1..], cursor + shares[0]);
      if shares[0] != 0 {
        assert ([Slice(items[0], cursor, shares[0])] + rest)[1..] == rest;
      }
    }
  }

  lemma {:induction false} PlacedWithinCaps(items: seq<Raw>, shares: seq<int>, cursor: int)
    requires WithinCaps(items, shares)
    ensures forall j :: 0 <= j < |Placed(items, shares, cursor)| ==>
              Placed(items, shares, cursor)[j].item in items
              && Placed(items, shares, cursor)[j].count <= Placed(items, shares, cursor)[j].item.maxPrefixes
  {
    if items != [] {
      PlacedWithinCaps(items[1..], shares[1..], cursor + shares[0]);
    }
  }

  lemma {:induction false} SharesStep(items: seq<Raw>, index: nat, remaining: int)
    requires index < |items|
    ensures var rest := items[index + 1..];
            var s := Share(items[index], remaining, WeightSum(items[index..]), Capacity(rest));
            && Shares(items[index..], remaining) == [s] + Shares(rest, remaining - s)
            && WeightSum(items[index..]) == items[index].weight + WeightSum(rest)
            && Capacity(items[index..]) == items[index].maxPrefixes + Capacity(rest)
  {
    assert items[index..][1..] == items[index + 1..];
  }

  /** The first thing that keeps a plan from being made. */
  ghost predicate FirstObstacle(items: seq<Raw>, total: int, e: PlanError) {
    match e
    case NegativeTotal => total < 0
    case InvalidItem(i) =>
      && total >= 0 && i < |items| && ValidItems(items[..i])
      && (items[i].maxPrefixes < 0 || items[i].weight <= 0)
    case InsufficientCapacity => total >= 0 && ValidItems(items) && Capacity(items) < total
    case _ => false
  }

  /** `allocate_slices`. */
  method AllocateSlices(items: seq<Raw>, total: int) returns (r: Plan)
    ensures r.Planned? <==> total >= 0 && ValidItems(items) && Capacity(items) >= total
    ensures r.Refused? ==> FirstObstacle(items, total, r.error)
    ensures r.Planned? ==> r.jobs == Placed(items, Shares(items, total), 0)
    ensures r.Planned? ==> Covers(r.jobs, 0, total)
    ensures r.Planned? ==> forall j :: 0 <= j < |r.jobs| ==>
              r.jobs[j].item in items && r.jobs[j].count <= r.jobs[j].item.maxPrefixes
  {
    if total < 0 { return Refused(NegativeTotal); }
    for index := 0 to |items|
      invariant ValidItems(items[..index])
    {
      if items[index].maxPrefixes < 0 || items[index].weight <= 0 { return Refused(InvalidItem(index)); }
      assert items[..index + 1] == items[..index] + [items[index]];
    }
    assert items[..|items|] == items;
    if Capacity(items) < total { return Refused(InsufficientCapacity); }
    SharesCover(items, total);
    PlacedCover(items, Shares(items, total), 0);
    PlacedWithinCaps(items, Shares(items, total), 0);
    if total == 0 {
      NoJobs(items, Shares(items, total));
      return Planned([]);
    }

    var jobs := PlaceShares(items, total);
    var check := ValidatePartition(jobs, total);
    match check
    case Valid => r := Planned(jobs);
    case Invalid(error) => r := Refused(error);
  }

  /** The jobs of the slices from `index` on. */
  function PlacedFrom(items: seq<Raw>, index: nat, remaining: int, cursor: int): seq<Slice>
    requires index <= |items|
  {
    Placed(items[index..], Shares(items[index..], remaining), cursor)
  }

  /** The share of slice `index` when `remaining` is left to place. */
  function ShareAt(items: seq<Raw>, index: nat, remaining: int, remainingWeight: int): int
    requires index < |items|
  {
    Share(items[index], remaining, remainingWeight, Capacity(items[index + 1..]))
  }

  lemma {:induction false} ShareStep(items: seq<Raw>, index: nat, remaining: int, cursor: int)
    requires ValidItems(items) && index < |items| && 0 <= remaining <= Capacity(items[index..])
    ensures var s := ShareAt(items, index, remaining, WeightSum(items[index..]));
            && (index == |items| - 1 ==> s == remaining)
            && 0 <= remaining - s <= Capacity(items[index + 1..])
            && PlacedFrom(items, index, remaining, cursor)
               == (if s == 0 then [] else [Slice(items[index], cursor, s)])
                + PlacedFrom(items, index + 1, remaining - s, cursor + s)
  {
    var w, rest := WeightSum(items[index..]), items[index + 1..];
    SharesStep(items, index, remaining);
    assert WeightSum(rest) >= 0;
    ShareBounds(items[index], remaining, w, Capacity(rest));
    PlacedStep(items, index, Shares(items[index..], remaining), cursor);
    if index == |items| - 1 { LastOverrideIsIdle(items[index], remaining); }
  }

  lemma {:induction false} NextWeight(items: seq<Raw>, index: nat)
    requires index < |items|
    ensures WeightSum(items[index + 1..]) == WeightSum(items[index..]) - items[index].weight
  {
    assert items[index..][1..] == items[index + 1..];
  }

  /** The jobs placed so far and those of the slices from `index` on are all the jobs. */
  ghost predicate Owes(items: seq<Raw>, total: int, index: nat, remaining: int, cursor: int, jobs: seq<Slice>)
    requires index <= |items|
  {
    && 0 <= remaining <= Capacity(items[index..])
    && jobs + PlacedFrom(items, index, remaining, cursor) == PlacedFrom(items, 0, total, 0)
  }

  lemma {:induction false} OwesNext(items: seq<Raw>, total: int, index: nat, remaining: int, cursor: int,
                                    jobs: seq<Slice>)
    requires ValidItems(items) && index < |items| && Owes(items, total, index, remaining, cursor, jobs)
    ensures var s := ShareAt(items, index, remaining, WeightSum(items[index..]));
            && (index == |items| - 1 ==> s == remaining)
            && (s == 0 ==> Owes(items, total, index + 1, remaining, cursor, jobs))
            && (s != 0 ==> Owes(items, total, index + 1, remaining - s, cursor + s,
                                jobs + [Slice(items[index], cursor, s)]))
  {
    var s := ShareAt(items, index, remaining, WeightSum(items[index..]));
    ShareStep(items, index, remaining, cursor);
    var rest := PlacedFrom(items, index + 1, remaining - s, cursor + s);
    assert jobs + ([Slice(items[index], cursor, s)] + rest) == jobs + [Slice(items[index], cursor, s)] + rest;
    assert [] + rest == rest;
  }

  /** The allocation loop. */
  method PlaceShares(items: seq<Raw>, total: int) returns (jobs: seq<Slice>)
    requires ValidItems(items) && 0 <= total <= Capacity(items)
    ensures jobs == Placed(items, Shares(items, total), 0)
  {
    var remaining, remainingWeight, cursor := total, WeightSum(items), 0;
    jobs := [];
    assert items[0..] == items && [] + PlacedFrom(items, 0, total, 0) == PlacedFrom(items, 0, total, 0);
    for index := 0 to |items|
      invariant Owes(items, total, index, remaining, cursor, jobs)
      invariant remainingWeight == WeightSum(items[index..])
    {
      OwesNext(items, total, index, remaining, cursor, jobs);
      NextWeight(items, index);
      var share := ShareAt(items, index, remaining, remainingWeight);
      if index == |items| - 1 {
        share := remaining;
      }
      if share != 0 {
        jobs := jobs + [Slice(items[index], cursor, share)];
        cursor := cursor + share;
        remaining := remaining - share;
      }
      remainingWeight := remainingWeight - items[index].weight;
    }
    assert jobs + [] == jobs;
  }

  lemma {:induction false} PlacedStep(items: seq<Raw>, index: nat, shares: seq<int>, cursor: int)
    requires index < |items| && |shares| == |items| - index
    ensures Placed(items[index..], shares, cursor)
         == (if shares[0] == 0 then [] else [Slice(items[index], cursor, shares[0])])
          + Placed(items[index + 1..], shares[1..], cursor + shares[0])
  {
    assert items[index..][1..] == items[index + 1..];
  }

  lemma {:induction false} NoJobs(items: seq<Raw>, shares: seq<int>)
    requires |items| == |shares| && Covers(Placed(items, shares, 0), 0, 0)
    ensures Placed(items, shares, 0) == []
  {
    var jobs := Placed(items, shares, 0);
    if jobs != [] {
      CoversFrom(jobs[1..], jobs[0].count, 0);
      assert false;
    }
  }
}
