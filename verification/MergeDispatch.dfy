/** The dispatcher of the sharded merge: one worker result per slice, aggregated in numeric order. */
module MergeDispatch {
  import opened MachineInts
  import opened Limbs
  import opened SuffixOrder
  import opened MergeSearch
  import opened SlicePlanner

  // ---------- aggregation ----------

  datatype KeyError = WrongLength | NotU32(index: nat)
  datatype Key = Key(words: Words) | BadKey(error: KeyError)

  /** A worker result: where it came from, and the words it reported. */
  datatype Reply = Reply(source: string, words: seq<int>)

  datatype Aggregate =
    | NoResult
    | Aggregated(words: Words, source: string)
    | Rejected(error: KeyError)

  ghost predicate WellFormed(words: seq<int>) {
    |words| == 6 && forall i :: 0 <= i < 6 ==> 0 <= words[i] < U32
  }

  /** The first thing wrong with the words of a result. */
  ghost predicate KeyFlaw(words: seq<int>, e: KeyError) {
    match e
    case WrongLength => |words| != 6
    case NotU32(i) =>
      && |words| == 6 && i < 6 && !(0 <= words[i] < 0x1_0000_0000)
      && forall j :: 0 <= j < i ==> 0 <= words[j] < 0x1_0000_0000
  }

  /** `u192_key`: the words from the high one down, if there are six and each is a u32. */
  method U192Key(words: seq<int>) returns (r: Key)
    ensures r.Key? <==> WellFormed(words)
    ensures r.Key? ==> r.words == Reversed<u32>(words)
    ensures r.BadKey? ==> KeyFlaw(words, r.error)
  {
    if |words| != 6 { return BadKey(WrongLength); }
    var checked: seq<u32> := [];
    for i := 0 to 6
      invariant |checked| == i && checked == words[..i]
    {
      if words[i] < 0 || words[i] >= U32 { return BadKey(NotU32(i)); }
      checked := checked + [words[i]];
    }
    assert checked == words;
    r := Key(Reversed(checked));
  }

  /** `u192_to_int`: shift and or over the key. */
  method U192ToInt(words: seq<int>) returns (ok: bool, r: nat)
    ensures ok <==> WellFormed(words)
    ensures ok ==> r == Value(words)
  {
    var key := U192Key(words);
    if key.BadKey? { return false, 0; }
    var w: Words := words;
    ok, r := true, 0;
    for i := 0 to 6
      invariant r == Value(w[6 - i..])
    {
      assert w[6 - i - 1..] == [w[6 - i - 1]] + w[6 - i..];
      r := r * U32 + key.words[i];
    }
    assert w[0..] == w;
  }

  ghost predicate AllWellFormed(replies: seq<Reply>) {
    forall i :: 0 <= i < |replies| ==> WellFormed(replies[i].words)
  }

  ghost function TotalsOf(replies: seq<Reply>): (r: seq<Total>)
    requires AllWellFormed(replies)
    ensures |r| == |replies|
    ensures forall i :: 0 <= i < |r| ==> r[i] == Fit(replies[i].words)
  {
    seq(|replies|, i requires 0 <= i < |replies| => Fit(replies[i].words))
  }

  /** The first of the numerically greatest results. */
  ghost function Chosen(replies: seq<Reply>): Aggregate
    requires AllWellFormed(replies)
  {
    match FirstBest(TotalsOf(replies))
    case NoPick => NoResult
    case Pick(k) => Aggregated(replies[k].words, replies[k].source)
  }

  lemma {:induction false} ChosenStep(replies: seq<Reply>, i: nat)
    requires i < |replies| && AllWellFormed(replies[..i]) && WellFormed(replies[i].words)
    ensures AllWellFormed(replies[..i + 1])
    ensures Chosen(replies[..i + 1]) ==
      var before := Chosen(replies[..i]);
      if before == NoResult || Value(replies[i].words) > Value(before.words)
      then Aggregated(replies[i].words, replies[i].source)
      else before
  {
    assert TotalsOf(replies[..i + 1])[..i] == TotalsOf(replies[..i]);
  }

  /** `aggregate_worker_results`: the first numerically greatest result; a malformed one is an error. */
  method AggregateWorkerResults(replies: seq<Reply>) returns (r: Aggregate)
    ensures r.Rejected? <==> !AllWellFormed(replies)
    ensures r.Rejected? ==>
              exists i :: 0 <= i < |replies| && AllWellFormed(replies[..i]) && KeyFlaw(replies[i].words, r.error)
    ensures !r.Rejected? ==> r == Chosen(replies)
  {
    r := NoResult;
    var bestKey: seq<u32> := [];
    for i := 0 to |replies|
      invariant AllWellFormed(replies[..i])
      invariant !r.Rejected? && r == Chosen(replies[..i])
      invariant r.Aggregated? ==> bestKey == Reversed(r.words)
    {
      var words := replies[i].words;
      var key := U192Key(words);
      if key.BadKey? {
        assert !WellFormed(replies[i].words);
        return Rejected(key.error);
      }
      ChosenStep(replies, i);
      if r.Aggregated? { ReversedKeyOrder(words, r.words); }
      if r == NoResult || TupleGreater(key.words, bestKey) {
        r := Aggregated(words, replies[i].source);
        bestKey := key.words;
      }
    }
    assert replies[..|replies|] == replies;
  }

  // ---------- the whole merge ----------

  /** Storing a result in the result dictionary: an existing name keeps its place. */
  function Store(results: seq<Reply>, r: Reply): (out: seq<Reply>)
    ensures (forall i :: 0 <= i < |results| ==> results[i].source != r.source) ==> out == results + [r]
  {
    if results == [] then [r]
    else if results[0].source == r.source then [r] + results[1..]
    else [results[0]] + Store(results[1..], r)
  }

  ghost predicate DistinctSources(jobs: seq<Slice>) {
    forall i, j :: 0 <= i < j < |jobs| ==> jobs[i].item.source != jobs[j].item.source
  }

  predicate InRange(job: Slice, count: nat) {
    0 <= job.start <= job.start + job.count <= count
  }

  /** The prefixes of a slice; a slice out of range has none. */
  function SliceOf(all: seq<Prefix>, job: Slice): seq<Prefix> {
    if InRange(job, |all|) then all[job.start..job.start + job.count] else []
  }

  /** What the worker of a slice reports; a failed worker reports nothing. */
  function ReportOf(all: seq<Prefix>, suffixes: seq<Suffix>, job: Slice, failed: bool): Best {
    if failed then NoTotal else SliceBest(SliceOf(all, job), suffixes)
  }

  function ReportsOf(all: seq<Prefix>, suffixes: seq<Suffix>, jobs: seq<Slice>, failed: seq<bool>): (r: seq<Best>)
    requires |failed| == |jobs|
    ensures |r| == |jobs|
    ensures forall j :: 0 <= j < |jobs| ==> r[j] == ReportOf(all, suffixes, jobs[j], failed[j])
  {
    seq(|jobs|, j requires 0 <= j < |jobs| => ReportOf(all, suffixes, jobs[j], failed[j]))
  }

  /** The results of the workers that report, in dispatch order. */
  function Collected(jobs: seq<Slice>, bests: seq<Best>): (r: seq<Reply>)
    requires |jobs| == |bests|
    ensures AllWellFormed(r)
  {
    if jobs == [] then []
    else
      var n := |jobs| - 1;
      var before := Collected(jobs[..n], bests[..n]);
      match bests[n]
      case NoTotal => before
      case Best(words, _) => before + [Reply(jobs[n].item.source, words)]
  }

  lemma {:induction false} CollectedSources(jobs: seq<Slice>, bests: seq<Best>, name: string)
    requires |jobs| == |bests| && forall j :: 0 <= j < |jobs| ==> jobs[j].item.source != name
    ensures forall i :: 0 <= i < |Collected(jobs, bests)| ==> Collected(jobs, bests)[i].source != name
  {
    if jobs != [] { CollectedSources(jobs[..|jobs| - 1], bests[..|jobs| - 1], name); }
  }

  lemma {:induction false} CollectStep(jobs: seq<Slice>, bests: seq<Best>, i: nat)
    requires i < |jobs| == |bests| && DistinctSources(jobs)
    ensures Collected(jobs[..i + 1], bests[..i + 1]) ==
            var before := Collected(jobs[..i], bests[..i]);
            match bests[i]
            case NoTotal => before
            case Best(words, _) => Store(before, Reply(jobs[i].item.source, words))
  {
    assert jobs[..i + 1][..i] == jobs[..i] && bests[..i + 1][..i] == bests[..i];
    CollectedSources(jobs[..i], bests[..i], jobs[i].item.source);
  }

  /** An invalid plan is refused before anything runs. */
  datatype Dispatched = InvalidPlan(error: PlanError) | Merged(aggregate: Aggregate)

  /** `dispatch`: check the plan, run the slices one after another, skip failed workers and aggregate. */
  method DispatchMerge(all: seq<Prefix>, suffixes: seq<Suffix>, jobs: seq<Slice>, failed: seq<bool>)
    returns (r: Dispatched)
    requires |all| < U32 && DistinctSources(jobs) && |failed| == |jobs|
    ensures r.Merged? <==> Covers(jobs, 0, |all|)
    ensures r.InvalidPlan? ==> FirstFlaw(jobs, |all|, r.error)
    ensures r.Merged? ==> r.aggregate == Chosen(Collected(jobs, ReportsOf(all, suffixes, jobs, failed)))
  {
    var check := ValidatePartition(jobs, |all|);
    match check {
      case Invalid(error) => return InvalidPlan(error);
      case Valid =>
    }
    var results: seq<Reply> := [];
    ghost var bests := ReportsOf(all, suffixes, jobs, failed);
    for i := 0 to |jobs|
      invariant results == Collected(jobs[..i], bests[..i])
    {
      CollectStep(jobs, bests, i);
      if !failed[i] {
        var best := RunMerge(SliceOf(all, jobs[i]), suffixes);
        if best.Best? {
          results := Store(results, Reply(jobs[i].item.source, best.words));
        }
      }
    }
    assert jobs[..|jobs|] == jobs && bests[..|jobs|] == bests;
    var aggregate := AggregateWorkerResults(results);
    r := Merged(aggregate);
  }

  // ---------- the global optimum ----------

  /** An aggregate is the global optimum: the greatest total of a compatible pair, if there is one. */
  ghost predicate IsGlobal(r: Aggregate, all: seq<Prefix>, suffixes: seq<Suffix>) {
    match r
    case NoResult => forall v: nat :: !IsTotal(all, suffixes, v)
    case Aggregated(words, _) => IsOptimum(all, suffixes, Value(words))
    case Rejected(_) => false
  }

  ghost predicate FromSlice(r: Reply, job: Slice, best: Best) {
    best.Best? && r == Reply(job.item.source, best.words)
  }

  /** Each collected result is the report of a slice. */
  lemma {:induction false} CollectedFromSlices(jobs: seq<Slice>, bests: seq<Best>, r: Reply) returns (j: nat)
    requires |jobs| == |bests| && r in Collected(jobs, bests)
    ensures j < |jobs| && FromSlice(r, jobs[j], bests[j])
  {
    var n := |jobs| - 1;
    if r in Collected(jobs[..n], bests[..n]) {
      j := CollectedFromSlices(jobs[..n], bests[..n], r);
    } else {
      j := n;
    }
  }

  /** The report of no slice is missed. */
  lemma {:induction false} SlicesAreCollected(jobs: seq<Slice>, bests: seq<Best>, j: nat, r: Reply)
    requires j < |jobs| == |bests| && FromSlice(r, jobs[j], bests[j])
    ensures r in Collected(jobs, bests)
  {
    var n := |jobs| - 1;
    if j < n { SlicesAreCollected(jobs[..n], bests[..n], j, r); }
  }

  /** The slices of a cover hold all the totals. */
  lemma {:induction false} TotalInSlice(all: seq<Prefix>, suffixes: seq<Suffix>, jobs: seq<Slice>, v: nat)
    returns (j: nat)
    requires Covers(jobs, 0, |all|) && IsTotal(all, suffixes, v)
    ensures j < |jobs| && IsTotal(SliceOf(all, jobs[j]), suffixes, v)
  {
    TotalOfRow(all, suffixes, v);
    var i :| 0 <= i < |all| && IsTotal([all[i]], suffixes, v);
    j := CoversOnce(jobs, 0, |all|, i);
    CoversFrom(jobs, 0, |all|);
    var part := SliceOf(all, jobs[j]);
    assert part[i - jobs[j].start] == all[i];
    TotalOfRow(part, suffixes, v);
  }

  lemma {:induction false} SliceTotalIsTotal(all: seq<Prefix>, suffixes: seq<Suffix>, job: Slice, v: nat)
    requires IsTotal(SliceOf(all, job), suffixes, v)
    ensures IsTotal(all, suffixes, v)
  {
    var p, s :| p in SliceOf(all, job) && s in suffixes && Compatible(p, s) && v == PairTotal(p, s);
    assert p in all;
  }

  lemma {:induction false} SliceIsExact(all: seq<Prefix>, suffixes: seq<Suffix>, job: Slice)
    requires Descending(suffixes) && NoOverflow(all, suffixes) && job.count <= CHUNK
    ensures ReportsOptimum(SliceOf(all, job), suffixes, ReportOf(all, suffixes, job, false))
  {
    forall p | p in SliceOf(all, job) ensures p in all {
    }
    OneChunkIsExact(SliceOf(all, job), suffixes);
  }

  /** Slices of one chunk each and no failed worker: the aggregate over an exact cover is the global
      optimum. */
  lemma {:induction false} AggregateIsGlobal(all: seq<Prefix>, suffixes: seq<Suffix>, jobs: seq<Slice>,
                                             failed: seq<bool>)
    requires Covers(jobs, 0, |all|)
    requires |failed| == |jobs| && forall j :: 0 <= j < |jobs| ==> !failed[j]
    requires forall j :: 0 <= j < |jobs| ==> jobs[j].count <= CHUNK
    requires Descending(suffixes) && NoOverflow(all, suffixes)
    ensures IsGlobal(Chosen(Collected(jobs, ReportsOf(all, suffixes, jobs, failed))), all, suffixes)
  {
    var replies := Collected(jobs, ReportsOf(all, suffixes, jobs, failed));
    forall v: nat | IsTotal(all, suffixes, v) ensures Reached(replies, v) {
      TotalIsReached(all, suffixes, jobs, failed, v);
    }
    AggregateIsATotal(all, suffixes, jobs, failed);
    ChosenIsGreatest(replies);
  }

  ghost predicate Reached(replies: seq<Reply>, v: nat)
    requires AllWellFormed(replies)
  {
    exists i :: 0 <= i < |replies| && v <= Value(replies[i].words)
  }

  lemma {:induction false} TotalIsReached(all: seq<Prefix>, suffixes: seq<Suffix>, jobs: seq<Slice>,
                                          failed: seq<bool>,
                                          v: nat)
    requires Covers(jobs, 0, |all|) && IsTotal(all, suffixes, v)
    requires |failed| == |jobs| && forall j :: 0 <= j < |jobs| ==> !failed[j]
    requires forall j :: 0 <= j < |jobs| ==> jobs[j].count <= CHUNK
    requires Descending(suffixes) && NoOverflow(all, suffixes)
    ensures Reached(Collected(jobs, ReportsOf(all, suffixes, jobs, failed)), v)
  {
    var j := TotalInSlice(all, suffixes, jobs, v);
    var bests := ReportsOf(all, suffixes, jobs, failed);
    SliceIsExact(all, suffixes, jobs[j]);
    var r := Reply(jobs[j].item.source, bests[j].words);
    SlicesAreCollected(jobs, bests, j, r);
    var replies := Collected(jobs, bests);
    var i :| 0 <= i < |replies| && replies[i] == r;
  }

  /** What a slice reports is the total of one of its leading pairs. */
  lemma {:induction false} ReportIsLeadingTotal(slice: seq<Prefix>, suffixes: seq<Suffix>)
    requires Descending(suffixes) && NoOverflow(slice, suffixes)
    ensures var best := SliceBest(slice, suffixes);
            && (best.Best? ==> IsTotal(slice[..Window(|slice|)], suffixes, Value(best.words)))
            && (best.Best? ==> IsTotal(slice, suffixes, Value(best.words)))
  {
    SliceBestIsWindowOptimum(slice, suffixes);
    var best := SliceBest(slice, suffixes);
    if best.Best? { TotalsSplit(slice, suffixes, Window(|slice|), Value(best.words)); }
  }

  lemma {:induction false} SliceFits(all: seq<Prefix>, suffixes: seq<Suffix>, job: Slice)
    requires NoOverflow(all, suffixes)
    ensures NoOverflow(SliceOf(all, job), suffixes)
  {
    forall p | p in SliceOf(all, job) ensures p in all {
    }
  }

  /** Whatever workers fail and however long the slices are, an aggregate is never more than what some
      compatible pair totals. */
  lemma {:induction false} AggregateIsATotal(all: seq<Prefix>, suffixes: seq<Suffix>, jobs: seq<Slice>,
                                             failed: seq<bool>)
    requires |failed| == |jobs| && Descending(suffixes) && NoOverflow(all, suffixes)
    ensures var r := Chosen(Collected(jobs, ReportsOf(all, suffixes, jobs, failed)));
            r.Aggregated? ==> IsTotal(all, suffixes, Value(r.words))
  {
    var bests := ReportsOf(all, suffixes, jobs, failed);
    var r := Chosen(Collected(jobs, bests));
    ChosenIsGreatest(Collected(jobs, bests));
    if r.Aggregated? {
      var j := CollectedFromSlices(jobs, bests, Reply(r.source, r.words));
      SliceFits(all, suffixes, jobs[j]);
      ReportIsLeadingTotal(SliceOf(all, jobs[j]), suffixes);
      SliceTotalIsTotal(all, suffixes, jobs[j], Value(r.words));
    }
  }

  // ---------- what a dispatch finds, whatever the plan ----------

  /** The rows of a slice that its worker reads. */
  function Leading(all: seq<Prefix>, job: Slice): seq<Prefix> {
    var slice := SliceOf(all, job);
    slice[..Window(|slice|)]
  }

  /** The leading rows of the slices whose workers report. */
  function LeadingRows(all: seq<Prefix>, jobs: seq<Slice>, failed: seq<bool>): seq<Prefix>
    requires |failed| == |jobs|
  {
    if jobs == [] then []
    else (if failed[0] then [] else Leading(all, jobs[0])) + LeadingRows(all, jobs[1..], failed[1..])
  }

  lemma {:induction false} RowLeads(all: seq<Prefix>, jobs: seq<Slice>, failed: seq<bool>, j: nat, p: Prefix)
    requires |failed| == |jobs| && j < |jobs| && !failed[j] && p in Leading(all, jobs[j])
    ensures p in LeadingRows(all, jobs, failed)
  {
    if j > 0 { RowLeads(all, jobs[1..], failed[1..], j - 1, p); }
  }

  lemma {:induction false} LeadingRow(all: seq<Prefix>, jobs: seq<Slice>, failed: seq<bool>, p: Prefix) returns (j: nat)
    requires |failed| == |jobs| && p in LeadingRows(all, jobs, failed)
    ensures j < |jobs| && !failed[j] && p in Leading(all, jobs[j])
  {
    if !failed[0] && p in Leading(all, jobs[0]) {
      j := 0;
    } else {
      j := LeadingRow(all, jobs[1..], failed[1..], p);
      j := j + 1;
    }
  }

  ghost predicate InWindow(all: seq<Prefix>, suffixes: seq<Suffix>, job: Slice, x: nat) {
    IsTotal(Leading(all, job), suffixes, x)
  }

  /** A total of the leading rows is one of a single slice. */
  lemma {:induction false} LeadingTotal(all: seq<Prefix>, suffixes: seq<Suffix>, jobs: seq<Slice>, failed: seq<bool>,
                                        x: nat) returns (j: nat)
    requires |failed| == |jobs| && IsTotal(LeadingRows(all, jobs, failed), suffixes, x)
    ensures j < |jobs| && !failed[j] && InWindow(all, suffixes, jobs[j], x)
  {
    var p, s :| p in LeadingRows(all, jobs, failed) && s in suffixes && Compatible(p, s) && x == PairTotal(p, s);
    j := LeadingRow(all, jobs, failed, p);
  }

  lemma {:induction false} WindowTotalLeads(all: seq<Prefix>, suffixes: seq<Suffix>, jobs: seq<Slice>,
                                            failed: seq<bool>, j: nat, x: nat)
    requires |failed| == |jobs| && j < |jobs| && !failed[j] && InWindow(all, suffixes, jobs[j], x)
    ensures IsTotal(LeadingRows(all, jobs, failed), suffixes, x)
  {
    var p, s :| p in Leading(all, jobs[j]) && s in suffixes && Compatible(p, s) && x == PairTotal(p, s);
    RowLeads(all, jobs, failed, j, p);
  }

  lemma {:induction false} WindowTotalIsReached(all: seq<Prefix>, suffixes: seq<Suffix>, jobs: seq<Slice>,
                                                failed: seq<bool>, j: nat, x: nat)
    requires |failed| == |jobs| && Descending(suffixes) && NoOverflow(all, suffixes)
    requires j < |jobs| && !failed[j] && InWindow(all, suffixes, jobs[j], x)
    ensures Reached(Collected(jobs, ReportsOf(all, suffixes, jobs, failed)), x)
  {
    var bests := ReportsOf(all, suffixes, jobs, failed);
    SliceFits(all, suffixes, jobs[j]);
    SliceBestIsWindowOptimum(SliceOf(all, jobs[j]), suffixes);
    var r := Reply(jobs[j].item.source, bests[j].words);
    SlicesAreCollected(jobs, bests, j, r);
    var replies := Collected(jobs, bests);
    var i :| 0 <= i < |replies| && replies[i] == r;
  }

  /** The `k`-th collected result comes from a slice, and those of earlier slices stand before it. */
  lemma {:induction false} CollectedAt(jobs: seq<Slice>, bests: seq<Best>, k: nat) returns (j: nat)
    requires |jobs| == |bests| && k < |Collected(jobs, bests)|
    ensures j < |jobs| && FromSlice(Collected(jobs, bests)[k], jobs[j], bests[j])
    ensures forall i :: 0 <= i < j && bests[i].Best? ==>
              Reply(jobs[i].item.source, bests[i].words) in Collected(jobs, bests)[..k]
  {
    var n := |jobs| - 1;
    var before := Collected(jobs[..n], bests[..n]);
    if k < |before| {
      j := CollectedAt(jobs[..n], bests[..n], k);
      assert Collected(jobs, bests)[..k] == before[..k];
      assert forall i :: 0 <= i < n ==> jobs[..n][i] == jobs[i] && bests[..n][i] == bests[i];
    } else {
      j := n;
      assert Collected(jobs, bests)[..k] == before;
      forall i | 0 <= i < j && bests[i].Best?
        ensures Reply(jobs[i].item.source, bests[i].words) in before
      {
        SlicesAreCollected(jobs[..n], bests[..n], i, Reply(jobs[i].item.source, bests[i].words));
      }
    }
  }

  /** Slice `j` reports, its leading rows attain the total, and those of no earlier slice that reports
      do. */
  ghost predicate FirstToAttain(all: seq<Prefix>, suffixes: seq<Suffix>, jobs: seq<Slice>, failed: seq<bool>,
                                j: nat, v: nat)
    requires |failed| == |jobs|
  {
    && j < |jobs| && !failed[j] && InWindow(all, suffixes, jobs[j], v)
    && forall i :: 0 <= i < j && !failed[i] ==> !InWindow(all, suffixes, jobs[i], v)
  }

  /** The named source is the first slice that attains the optimum. */
  lemma {:induction false} SourceIsFirst(all: seq<Prefix>, suffixes: seq<Suffix>, jobs: seq<Slice>,
                                         failed: seq<bool>) returns (j: nat)
    requires |failed| == |jobs| && Descending(suffixes) && NoOverflow(all, suffixes)
    requires Chosen(Collected(jobs, ReportsOf(all, suffixes, jobs, failed))).Aggregated?
    ensures var r := Chosen(Collected(jobs, ReportsOf(all, suffixes, jobs, failed)));
            FirstToAttain(all, suffixes, jobs, failed, j, Value(r.words)) && jobs[j].item.source == r.source
  {
    var bests := ReportsOf(all, suffixes, jobs, failed);
    var replies := Collected(jobs, bests);
    var r := Chosen(replies);
    ChosenIsGreatest(replies);
    var k: nat :| FirstAt(replies, k, Reply(r.source, r.words));
    j := CollectedAt(jobs, bests, k);
    SliceFits(all, suffixes, jobs[j]);
    ReportIsLeadingTotal(SliceOf(all, jobs[j]), suffixes);
    forall i, v: nat | 0 <= i < j && !failed[i] && InWindow(all, suffixes, jobs[i], v)
      ensures v < Value(r.words)
    {
      SliceFits(all, suffixes, jobs[i]);
      SliceBestIsWindowOptimum(SliceOf(all, jobs[i]), suffixes);
      var q := Reply(jobs[i].item.source, bests[i].words);
      assert q in replies[..k];
      var x :| 0 <= x < k && replies[x] == q;
    }
  }

  /** Whatever workers fail and however long the slices are: the aggregate is the optimum over the
      leading rows of the slices that report. */
  lemma {:induction false} AggregateIsLeadingOptimum(all: seq<Prefix>, suffixes: seq<Suffix>, jobs: seq<Slice>,
                                                     failed: seq<bool>)
    requires |failed| == |jobs| && Descending(suffixes) && NoOverflow(all, suffixes)
    ensures IsGlobal(Chosen(Collected(jobs, ReportsOf(all, suffixes, jobs, failed))),
                     LeadingRows(all, jobs, failed), suffixes)
  {
    var bests := ReportsOf(all, suffixes, jobs, failed);
    var replies := Collected(jobs, bests);
    forall x: nat | IsTotal(LeadingRows(all, jobs, failed), suffixes, x) ensures Reached(replies, x) {
      var j := LeadingTotal(all, suffixes, jobs, failed, x);
      WindowTotalIsReached(all, suffixes, jobs, failed, j, x);
    }
    ChosenIsGreatest(replies);
    var r := Chosen(replies);
    if r.Aggregated? {
      var j := CollectedFromSlices(jobs, bests, Reply(r.source, r.words));
      SliceFits(all, suffixes, jobs[j]);
      ReportIsLeadingTotal(SliceOf(all, jobs[j]), suffixes);
      assert InWindow(all, suffixes, jobs[j], Value(r.words));
      WindowTotalLeads(all, suffixes, jobs, failed, j, Value(r.words));
    }
  }

  // ---------- when a dispatch is always right ----------

  /** For all prefixes and suffixes, the aggregate of the plan is the global optimum. */
  ghost predicate AlwaysGlobal(jobs: seq<Slice>, failed: seq<bool>, total: nat)
    requires |failed| == |jobs|
  {
    forall all: seq<Prefix>, suffixes: seq<Suffix> ::
      |all| == total && Descending(suffixes) && NoOverflow(all, suffixes) ==>
        IsGlobal(Chosen(Collected(jobs, ReportsOf(all, suffixes, jobs, failed))), all, suffixes)
  }

  /** Only the prefix at `x` weighs anything. */
  function OneHeavy(total: nat, x: nat): (all: seq<Prefix>)
    ensures |all| == total && forall i :: 0 <= i < total ==> all[i] == if i == x then Heavy() else Light()
  {
    seq(total, i => if i == x then Heavy() else Light())
  }

  const EMPTY_SUFFIX := Suffix(0, 0, 0, 0, 0, 0)

  lemma {:induction false} OneHeavyFits(total: nat, x: nat)
    ensures Descending([EMPTY_SUFFIX]) && NoOverflow(OneHeavy(total, x), [EMPTY_SUFFIX])
    ensures x < total ==> IsTotal(OneHeavy(total, x), [EMPTY_SUFFIX], 1)
  {
    WeightsOfWitnesses();
    if x < total {
      assert OneHeavy(total, x)[x] in OneHeavy(total, x);
      LastCounts(OneHeavy(total, x), [EMPTY_SUFFIX]);
    }
  }

  /** A slice whose worker fails, or whose last prefix is beyond the first chunk, reports nothing of a
      weight on its last prefix; nor does any other slice. */
  lemma {:induction false} LastIsUnread(jobs: seq<Slice>, total: nat, j: nat, k: nat)
    requires Covers(jobs, 0, total) && j < |jobs| && k < |jobs|
    requires k != j || jobs[j].count > CHUNK
    ensures var all := OneHeavy(total, LastOf(jobs, j));
            var slice := SliceOf(all, jobs[k]);
            forall p :: p in slice[..Window(|slice|)] ==> p == Light()
  {
    CoversFrom(jobs, 0, total);
    PositiveCounts(jobs, 0, total);
    var x := LastOf(jobs, j);
    var all := OneHeavy(total, x);
    var slice := SliceOf(all, jobs[k]);
    var owner := CoversOnce(jobs, 0, total, x);
    assert InSlice(x, jobs[j]) && owner == j;
    forall i | 0 <= i < Window(|slice|) ensures slice[i] == Light() {
      assert slice[i] == all[jobs[k].start + i];
      if jobs[k].start + i == x { assert InSlice(x, jobs[k]); }
    }
  }

  /** The last position of a slice. */
  function LastOf(jobs: seq<Slice>, j: nat): nat
    requires j < |jobs|
  {
    var x := jobs[j].start + jobs[j].count - 1;
    if x < 0 then 0 else x
  }

  lemma {:induction false} PositiveCounts(jobs: seq<Slice>, cursor: int, total: int)
    requires Covers(jobs, cursor, total)
    ensures forall j :: 0 <= j < |jobs| ==> jobs[j].count > 0
  {
    if jobs != [] { PositiveCounts(jobs[1..], cursor + jobs[0].count, total); }
  }

  lemma {:induction false} AggregateIsZero(jobs: seq<Slice>, failed: seq<bool>, total: nat, j: nat)
    requires Covers(jobs, 0, total) && |failed| == |jobs| && j < |jobs|
    requires failed[j] || jobs[j].count > CHUNK
    ensures var all := OneHeavy(total, LastOf(jobs, j));
            var r := Chosen(Collected(jobs, ReportsOf(all, [EMPTY_SUFFIX], jobs, failed)));
            r.Aggregated? ==> Value(r.words) == 0
  {
    var all := OneHeavy(total, LastOf(jobs, j));
    var bests := ReportsOf(all, [EMPTY_SUFFIX], jobs, failed);
    var r := Chosen(Collected(jobs, bests));
    ChosenIsGreatest(Collected(jobs, bests));
    if r.Aggregated? {
      var k := CollectedFromSlices(jobs, bests, Reply(r.source, r.words));
      UnreadReportsZero(jobs, total, j, k);
    }
  }

  lemma {:induction false} LastInRange(jobs: seq<Slice>, total: nat, j: nat)
    requires Covers(jobs, 0, total) && j < |jobs|
    ensures LastOf(jobs, j) < total
  {
    CoversFrom(jobs, 0, total);
    PositiveCounts(jobs, 0, total);
  }

  /** A failed worker or a slice of more than one chunk can lose the optimum. */
  lemma {:induction false} BadSliceCanMiss(jobs: seq<Slice>, failed: seq<bool>, total: nat, j: nat)
    requires Covers(jobs, 0, total) && |failed| == |jobs| && j < |jobs|
    requires failed[j] || jobs[j].count > CHUNK
    ensures !AlwaysGlobal(jobs, failed, total)
  {
    var all := OneHeavy(total, LastOf(jobs, j));
    var suffixes := [EMPTY_SUFFIX];
    LastInRange(jobs, total, j);
    OneHeavyFits(total, LastOf(jobs, j));
    AggregateIsZero(jobs, failed, total, j);
    var r := Chosen(Collected(jobs, ReportsOf(all, suffixes, jobs, failed)));
    TooLow(r, all, suffixes);
    if AlwaysGlobal(jobs, failed, total) { GlobalInstance(jobs, failed, total, all, suffixes); }
  }

  lemma {:induction false} GlobalInstance(jobs: seq<Slice>, failed: seq<bool>, total: nat, all: seq<Prefix>,
                                          suffixes: seq<Suffix>)
    requires |failed| == |jobs| && AlwaysGlobal(jobs, failed, total)
    requires |all| == total && Descending(suffixes) && NoOverflow(all, suffixes)
    ensures IsGlobal(Chosen(Collected(jobs, ReportsOf(all, suffixes, jobs, failed))), all, suffixes)
  {
  }

  lemma {:induction false} TooLow(r: Aggregate, all: seq<Prefix>, suffixes: seq<Suffix>)
    requires IsTotal(all, suffixes, 1) && (r.Aggregated? ==> Value(r.words) == 0)
    ensures !IsGlobal(r, all, suffixes)
  {
  }

  lemma {:induction false} UnreadReportsZero(jobs: seq<Slice>, total: nat, j: nat, k: nat)
    requires Covers(jobs, 0, total) && j < |jobs| && k < |jobs|
    requires k != j || jobs[j].count > CHUNK
    ensures var best := SliceBest(SliceOf(OneHeavy(total, LastOf(jobs, j)), jobs[k]), [EMPTY_SUFFIX]);
            best.Best? ==> Value(best.words) == 0
  {
    var all := OneHeavy(total, LastOf(jobs, j));
    var slice := SliceOf(all, jobs[k]);
    OneHeavyFits(total, LastOf(jobs, j));
    LastIsUnread(jobs, total, j, k);
    SliceFits(all, [EMPTY_SUFFIX], jobs[k]);
    ReportIsLeadingTotal(slice, [EMPTY_SUFFIX]);
    OnlyZeros(slice[..Window(|slice|)], [EMPTY_SUFFIX]);
  }

  /** A plan always finds the global optimum exactly when no worker fails and every slice is at most
      one chunk. */
  lemma {:induction false} ExactDispatch(jobs: seq<Slice>, failed: seq<bool>, total: nat)
    requires Covers(jobs, 0, total) && |failed| == |jobs|
    ensures AlwaysGlobal(jobs, failed, total) <==>
              forall j :: 0 <= j < |jobs| ==> !failed[j] && jobs[j].count <= 1048576
  {
    if j :| 0 <= j < |jobs| && (failed[j] || jobs[j].count > CHUNK) {
      BadSliceCanMiss(jobs, failed, total, j);
    } else {
      forall all: seq<Prefix>, suffixes: seq<Suffix>
        | |all| == total && Descending(suffixes) && NoOverflow(all, suffixes)
        ensures IsGlobal(Chosen(Collected(jobs, ReportsOf(all, suffixes, jobs, failed))), all, suffixes)
      {
        AggregateIsGlobal(all, suffixes, jobs, failed);
      }
    }
  }

  /** `r` is the `k`-th result, and every earlier one is smaller. */
  ghost predicate FirstAt(replies: seq<Reply>, k: nat, r: Reply)
    requires AllWellFormed(replies) && WellFormed(r.words)
  {
    && k < |replies| && replies[k] == r
    && forall i :: 0 <= i < k ==> Value(replies[i].words) < Value(r.words)
  }

  lemma {:induction false} ChosenIsGreatest(replies: seq<Reply>)
    requires AllWellFormed(replies)
    ensures Chosen(replies) == NoResult <==> replies == []
    ensures Chosen(replies).Aggregated? ==>
              && Reply(Chosen(replies).source, Chosen(replies).words) in replies
              && exists k: nat :: FirstAt(replies, k, Reply(Chosen(replies).source, Chosen(replies).words))
    ensures Chosen(replies).Aggregated? ==>
              forall r :: r in replies ==> Value(r.words) <= Value(Chosen(replies).words)
  {
    FirstBestTops(TotalsOf(replies));
    if replies != [] { assert TotalsOf(replies)[0] != NoFit; }
    var best := FirstBest(TotalsOf(replies));
    if best.Pick? {
      var r := Reply(Chosen(replies).source, Chosen(replies).words);
      assert replies[best.index] == r;
      forall i | 0 <= i < best.index ensures Value(replies[i].words) < Value(r.words) {
        assert TotalsOf(replies)[..best.index][i] == Fit(replies[i].words);
      }
      assert FirstAt(replies, best.index, r);
    }
  }

  // ---------- from plan to optimum ----------

  ghost predicate DistinctNames(items: seq<Raw>) {
    forall i, j :: 0 <= i < j < |items| ==> items[i].source != items[j].source
  }

  lemma {:induction false} PlacedNames(items: seq<Raw>, shares: seq<int>, cursor: int)
    requires |items| == |shares| && DistinctNames(items)
    ensures DistinctSources(Placed(items, shares, cursor))
    ensures forall job :: job in Placed(items, shares, cursor) ==> job.item in items
  {
    if items != [] {
      var rest := Placed(items[1..], shares[1..], cursor + shares[0]);
      PlacedNames(items[1..], shares[1..], cursor + shares[0]);
      forall job | job in rest ensures job.item.source != items[0].source {
        var i :| 0 <= i < |items[1..]| && items[1..][i] == job.item;
        assert items[i + 1] == job.item;
      }
      FirstSource(Slice(items[0], cursor, shares[0]), rest);
    }
  }

  lemma {:induction false} FirstSource(job: Slice, rest: seq<Slice>)
    requires DistinctSources(rest) && forall other :: other in rest ==> other.item.source != job.item.source
    ensures DistinctSources([job] + rest)
  {
    var r := [job] + rest;
    forall i, j | 0 <= i < j < |r| ensures r[i].item.source != r[j].item.source {
      assert r[j] == rest[j - 1] && rest[j - 1] in rest;
      if i > 0 { assert r[i] == rest[i - 1]; }
    }
  }

  lemma {:induction false} ReorderedTotals(all: seq<Prefix>, suffixes: seq<Suffix>, order: seq<Suffix>)
    requires multiset(order) == multiset(suffixes)
    ensures forall v: nat :: IsTotal(all, order, v) <==> IsTotal(all, suffixes, v)
    ensures NoOverflow(all, suffixes) ==> NoOverflow(all, order)
  {
    forall s ensures s in order <==> s in suffixes {
      assert s in multiset(order) <==> s in multiset(suffixes);
    }
  }

  function NoFailure(n: nat): (r: seq<bool>)
    ensures |r| == n && forall i :: 0 <= i < n ==> !r[i]
  {
    seq(n, _ => false)
  }

  /** The result names the worker of the first slice whose leading rows attain it. */
  ghost predicate NamedBy(all: seq<Prefix>, suffixes: seq<Suffix>, jobs: seq<Slice>, j: nat, r: Aggregate)
    requires r.Aggregated?
  {
    FirstToAttain(all, suffixes, jobs, NoFailure(|jobs|), j, Value(r.words)) && jobs[j].item.source == r.source
  }

  lemma {:induction false} ReorderedNames(all: seq<Prefix>, suffixes: seq<Suffix>, order: seq<Suffix>,
                                          jobs: seq<Slice>, j: nat, r: Aggregate)
    requires multiset(order) == multiset(suffixes) && r.Aggregated? && NamedBy(all, order, jobs, j, r)
    ensures NamedBy(all, suffixes, jobs, j, r)
  {
    forall i | 0 <= i < |jobs|
      ensures InWindow(all, order, jobs[i], Value(r.words)) <==> InWindow(all, suffixes, jobs[i], Value(r.words))
    {
      ReorderedTotals(Leading(all, jobs[i]), suffixes, order);
    }
  }

  /** Sort the suffixes, plan the slices, run them and aggregate: the outcome is the greatest compatible
      total over the leading 2^20 rows of the planned slices, and over all prefixes if no planned slice
      is longer. */
  method MergeAll(all: seq<Prefix>, suffixes: seq<Suffix>, items: seq<Raw>) returns (plan: Plan, r: Aggregate)
    requires |all| < U32 && DistinctNames(items)
    ensures plan.Planned? <==> ValidItems(items) && |all| <= Capacity(items)
    ensures plan.Planned? && NoOverflow(all, suffixes)
            && (forall j :: 0 <= j < |plan.jobs| ==> plan.jobs[j].count <= 1048576) ==>
              IsGlobal(r, all, suffixes)
    ensures plan.Planned? && NoOverflow(all, suffixes) ==>
              && IsGlobal(r, LeadingRows(all, plan.jobs, NoFailure(|plan.jobs|)), suffixes)
              && (r.Aggregated? ==> exists j: nat :: NamedBy(all, suffixes, plan.jobs, j, r))
  {
    r := NoResult;
    var order := PrepareSuffix(suffixes);
    plan := AllocateSlices(items, |all|);
    if plan.Planned? {
      var jobs := plan.jobs;
      PlacedNames(items, Shares(items, |all|), 0);
      var failed := NoFailure(|jobs|);
      var dispatched := DispatchMerge(all, order, jobs, failed);
      r := dispatched.aggregate;
      ReorderedTotals(all, suffixes, order);
      ReorderedTotals(LeadingRows(all, jobs, failed), suffixes, order);
      if NoOverflow(all, suffixes) {
        AggregateIsLeadingOptimum(all, order, jobs, failed);
        if r.Aggregated? {
          var j := SourceIsFirst(all, order, jobs, failed);
          ReorderedNames(all, suffixes, order, jobs, j, r);
        }
      }
      if NoOverflow(all, suffixes) && forall j :: 0 <= j < |jobs| ==> jobs[j].count <= CHUNK {
        AggregateIsGlobal(all, order, jobs, failed);
      }
    }
  }
}
