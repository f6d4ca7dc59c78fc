/** The merge kernel and its host loop: every prefix takes its first compatible suffix, and the host
    keeps the numerically greatest total. */
module MergeSearch {
  import opened MachineInts
  import opened Limbs
  import opened SuffixOrder
  import Bits
  import LcmWords

  /** Rows per dispatch. */
  const CHUNK := 0x10_0000

  datatype Prefix = Prefix(lo: u32, hi: u32, blocked: u32, weight: Words)

  /** One row of the output buffer; the kernel writes words only with a valid flag. */
  datatype Row = Row(valid: u32, words: Words)

  datatype MergeJob = MergeJob(sliceStart: u32, sliceCount: u32)

  datatype Best = NoTotal | Best(words: Words, maskLo: u32)

  // ---------- what is searched for ----------

  predicate Compatible(p: Prefix, s: Suffix) {
    && Bits.And(s.mask, p.blocked) == 0
    && Bits.And(p.lo, s.feLo) == 0
    && Bits.And(p.hi, s.feHi) == 0
  }

  /** The tests say that no suffix element is blocked and no prefix element is forbidden. */
  lemma {:induction false} CompatibleMeaning(p: Prefix, s: Suffix)
    ensures Compatible(p, s) <==>
      forall i: nat ::
        && !(Bits.Bit(s.mask, i) && Bits.Bit(p.blocked, i))
        && !(Bits.Bit(p.lo, i) && Bits.Bit(s.feLo, i))
        && !(Bits.Bit(p.hi, i) && Bits.Bit(s.feHi, i))
  {
    DisjointBits(s.mask, p.blocked);
    DisjointBits(p.lo, s.feLo);
    DisjointBits(p.hi, s.feHi);
  }

  lemma {:induction false} DisjointBits(x: nat, y: nat)
    ensures Bits.And(x, y) == 0 <==> forall i: nat :: !(Bits.Bit(x, i) && Bits.Bit(y, i))
  {
    if Bits.And(x, y) == 0 {
      forall i: nat ensures !(Bits.Bit(x, i) && Bits.Bit(y, i)) {
        Bits.AndBit(x, y, i);
        Bits.ZeroBit(i);
      }
    } else {
      var i := Bits.HasBit(Bits.And(x, y));
      Bits.AndBit(x, y, i);
      assert Bits.Bit(x, i) && Bits.Bit(y, i);
    }
  }

  /** The exact total of a pair. */
  function PairTotal(p: Prefix, s: Suffix): nat {
    Value(p.weight) + SuffixValue(s)
  }

  ghost predicate NoOverflow(prefixes: seq<Prefix>, suffixes: seq<Suffix>) {
    forall p, s :: p in prefixes && s in suffixes ==> PairTotal(p, s) < TWO_192
  }

  /** `v` is the total of a compatible pair. */
  ghost predicate IsTotal(prefixes: seq<Prefix>, suffixes: seq<Suffix>, v: nat) {
    exists p, s :: p in prefixes && s in suffixes && Compatible(p, s) && v == PairTotal(p, s)
  }

  ghost predicate IsOptimum(prefixes: seq<Prefix>, suffixes: seq<Suffix>, v: nat) {
    && IsTotal(prefixes, suffixes, v)
    && forall u: nat :: IsTotal(prefixes, suffixes, u) ==> u <= v
  }

  // ---------- the first compatible suffix ----------

  /** The index of the first compatible suffix; the length of the list when there is none. */
  function FirstFit(p: Prefix, suffixes: seq<Suffix>): (r: nat)
    ensures r <= |suffixes|
    ensures r < |suffixes| ==> Compatible(p, suffixes[r])
    ensures forall k :: 0 <= k < r ==> !Compatible(p, suffixes[k])
  {
    if suffixes == [] then 0
    else if Compatible(p, suffixes[0]) then 0
    else 1 + FirstFit(p, suffixes[1..])
  }

  predicate HasFit(p: Prefix, suffixes: seq<Suffix>) {
    FirstFit(p, suffixes) < |suffixes|
  }

  function FitWords(p: Prefix, suffixes: seq<Suffix>): Words
    requires HasFit(p, suffixes)
  {
    AddChain(p.weight, SuffixWords(suffixes[FirstFit(p, suffixes)]), 0).words
  }

  /** In a descending list the first compatible suffix is the best compatible one. */
  lemma {:induction false} FirstFitIsBest(p: Prefix, suffixes: seq<Suffix>)
    requires Descending(suffixes)
    ensures HasFit(p, suffixes) <==> exists s :: s in suffixes && Compatible(p, s)
    ensures HasFit(p, suffixes) ==>
      forall s :: s in suffixes && Compatible(p, s) ==>
        PairTotal(p, s) <= PairTotal(p, suffixes[FirstFit(p, suffixes)])
  {
    var f := FirstFit(p, suffixes);
    if f < |suffixes| { assert suffixes[f] in suffixes; }
    forall s | s in suffixes && Compatible(p, s)
      ensures f < |suffixes| && SuffixValue(s) <= SuffixValue(suffixes[f])
    {
      var k :| 0 <= k < |suffixes| && suffixes[k] == s;
      assert f <= k;
    }
  }

  /** Each row holds the greatest compatible total of its prefix. */
  lemma {:induction false} FitIsOptimum(p: Prefix, suffixes: seq<Suffix>)
    requires Descending(suffixes) && NoOverflow([p], suffixes)
    ensures !HasFit(p, suffixes) ==> forall v: nat :: !IsTotal([p], suffixes, v)
    ensures HasFit(p, suffixes) ==> IsOptimum([p], suffixes, Value(FitWords(p, suffixes)))
  {
    FirstFitIsBest(p, suffixes);
    if HasFit(p, suffixes) {
      var s := suffixes[FirstFit(p, suffixes)];
      assert p in [p] && s in suffixes;
      AddModulo(p.weight, SuffixWords(s));
      Small(PairTotal(p, s));
    }
  }

  lemma {:induction false} Small(v: nat)
    requires v < TWO_192
    ensures v % TWO_192 == v
  {
  }

  // ---------- the kernel ----------

  /** What a lane leaves in its row: a total, or a cleared flag over the old words. */
  function RowFor(p: Prefix, suffixes: seq<Suffix>, was: Row): Row {
    if HasFit(p, suffixes) then Row(1, FitWords(p, suffixes)) else Row(0, was.words)
  }

  lemma {:induction false} ScanStep(p: Prefix, suffixes: seq<Suffix>, s: nat)
    requires s < |suffixes|
    ensures FirstFit(p, suffixes[s..])
         == if Compatible(p, suffixes[s]) then 0 else 1 + FirstFit(p, suffixes[s + 1..])
  {
    assert suffixes[s..][1..] == suffixes[s + 1..];
  }

  /** One lane of `merge_pass`. The row it reads is its own lane number: `sliceStart` plays no part. */
  method MergeLane(job: MergeJob, prefixes: seq<Prefix>, suffixes: seq<Suffix>, out: array<Row>, i: nat)
    requires job.sliceCount <= |prefixes| && job.sliceCount <= out.Length
    modifies out
    ensures i < job.sliceCount ==> out[..] == old(out[..])[i := RowFor(prefixes[i], suffixes, old(out[i]))]
    ensures i >= job.sliceCount ==> out[..] == old(out[..])
  {
    if i >= job.sliceCount { return; }
    var p := prefixes[i];
    assert suffixes[0..] == suffixes;
    for s := 0 to |suffixes|
      invariant out[..] == old(out[..])
      invariant FirstFit(p, suffixes) == s + FirstFit(p, suffixes[s..])
    {
      ScanStep(p, suffixes, s);
      var x := suffixes[s];
      if Bits.And(x.mask, p.blocked) == 0 && Bits.And(p.lo, x.feLo) == 0 && Bits.And(p.hi, x.feHi) == 0 {
        var w := WgslAdd(p.weight, SuffixWords(x));
        out[i] := Row(1, w);
        return;
      }
    }
    out[i] := Row(0, out[i].words);
  }

  /** One dispatch: a lane for every row, in whole groups of 64. */
  method Dispatch(job: MergeJob, prefixes: seq<Prefix>, suffixes: seq<Suffix>, out: array<Row>)
    requires job.sliceCount <= |prefixes| && job.sliceCount <= out.Length
    modifies out
    ensures forall i :: 0 <= i < job.sliceCount ==>
              out[i] == RowFor(prefixes[i], suffixes, old(out[i]))
    ensures forall i :: job.sliceCount <= i < out.Length ==> out[i] == old(out[i])
  {
    var lanes: nat := (job.sliceCount + 63) / 64 * 64;
    for i := 0 to lanes
      invariant forall k :: 0 <= k < job.sliceCount && k < i ==>
                  out[k] == RowFor(prefixes[k], suffixes, old(out[k]))
      invariant forall k :: 0 <= k < out.Length && (k >= i || k >= job.sliceCount) ==> out[k] == old(out[k])
    {
      ghost var was := out[..];
      MergeLane(job, prefixes, suffixes, out, i);
      assert forall k :: 0 <= k < out.Length ==> out[k] == out[..][k] && was[k] == was[..][k];
    }
  }

  // ---------- the host loop ----------

  datatype Total = NoFit | Fit(words: Words)
  datatype Pick = NoPick | Pick(index: nat)

  function RowTotal(p: Prefix, suffixes: seq<Suffix>): Total {
    if HasFit(p, suffixes) then Fit(FitWords(p, suffixes)) else NoFit
  }

  function RowTotals(prefixes: seq<Prefix>, suffixes: seq<Suffix>): (r: seq<Total>)
    ensures |r| == |prefixes|
    ensures forall i :: 0 <= i < |r| ==> r[i] == RowTotal(prefixes[i], suffixes)
  {
    seq(|prefixes|, i requires 0 <= i < |prefixes| => RowTotal(prefixes[i], suffixes))
  }

  /** The scan that keeps the first greatest total. */
  function FirstBest(totals: seq<Total>): (r: Pick)
    ensures r.Pick? ==> r.index < |totals| && totals[r.index].Fit?
  {
    if totals == [] then NoPick
    else
      var n := |totals| - 1;
      var before := FirstBest(totals[..n]);
      if totals[n].Fit? && (before == NoPick || Value(totals[n].words) > Value(totals[before.index].words))
      then Pick(n)
      else before
  }

  /** No total in the list exceeds `v`. */
  ghost predicate Tops(totals: seq<Total>, v: nat) {
    forall k :: 0 <= k < |totals| && totals[k].Fit? ==> Value(totals[k].words) <= v
  }

  ghost predicate TopsStrictly(totals: seq<Total>, v: nat) {
    forall k :: 0 <= k < |totals| && totals[k].Fit? ==> Value(totals[k].words) < v
  }

  /** The scan finds the first of the greatest totals, if there is a total at all. */
  lemma {:induction false} FirstBestTops(totals: seq<Total>)
    ensures var r := FirstBest(totals);
            && (r == NoPick <==> forall k :: 0 <= k < |totals| ==> totals[k] == NoFit)
            && (r.Pick? ==> Tops(totals, Value(totals[r.index].words)))
            && (r.Pick? ==> TopsStrictly(totals[..r.index], Value(totals[r.index].words)))
  {
    if totals != [] {
      var n := |totals| - 1;
      FirstBestTops(totals[..n]);
      var before := FirstBest(totals[..n]);
      if before.Pick? { assert totals[..n][..before.index] == totals[..before.index]; }
    }
  }

  function Window(count: nat): nat { if count <= CHUNK then count else CHUNK }

  /** The best of the leading `n` rows and the low mask word of its prefix. */
  function ReadBest(prefixes: seq<Prefix>, totals: seq<Total>, n: nat): Best
    requires n <= |prefixes| == |totals|
  {
    match FirstBest(totals[..n])
    case NoPick => NoTotal
    case Pick(row) => Best(totals[row].words, prefixes[row].lo)
  }

  lemma {:induction false} ReadStep(prefixes: seq<Prefix>, totals: seq<Total>, i: nat)
    requires i < |prefixes| == |totals|
    ensures ReadBest(prefixes, totals, i + 1) ==
      var before := ReadBest(prefixes, totals, i);
      if totals[i].Fit? && (before == NoTotal || Value(totals[i].words) > Value(before.words))
      then Best(totals[i].words, prefixes[i].lo)
      else before
  {
    assert totals[..i + 1][..i] == totals[..i];
  }

  lemma {:induction false} ReadTops(prefixes: seq<Prefix>, totals: seq<Total>, n: nat)
    requires n <= |prefixes| == |totals|
    ensures ReadBest(prefixes, totals, n) == NoTotal ==> forall k :: 0 <= k < n ==> totals[k] == NoFit
    ensures ReadBest(prefixes, totals, n).Best? ==>
              && Tops(totals[..n], Value(ReadBest(prefixes, totals, n).words))
              && exists k :: 0 <= k < n && totals[k] == Fit(ReadBest(prefixes, totals, n).words)
  {
    FirstBestTops(totals[..n]);
    var r := FirstBest(totals[..n]);
    if r.Pick? {
      assert totals[r.index] == Fit(ReadBest(prefixes, totals, n).words);
    } else {
      forall k | 0 <= k < n ensures totals[k] == NoFit {
        assert totals[..n][k] == totals[k];
      }
    }
  }

  /** What `run_merge` reports for a slice: the best of its first 2^20 rows. */
  function SliceBest(prefixes: seq<Prefix>, suffixes: seq<Suffix>): Best {
    ReadBest(prefixes, RowTotals(prefixes, suffixes), Window(|prefixes|))
  }

  /** The buffer shows the totals of the leading rows. */
  ghost predicate Shows(rows: seq<Row>, totals: seq<Total>, n: nat) {
    && n <= |rows| && n <= |totals|
    && forall i :: 0 <= i < n ==>
         if totals[i].Fit? then rows[i] == Row(1, totals[i].words) else rows[i].valid == 0
  }

  /** One row of the readback loop. */
  method Better(best: Best, row: Row, maskLo: u32) returns (r: Best)
    ensures r == if row.valid == 1 && (best == NoTotal || Value(row.words) > Value(best.words))
                 then Best(row.words, maskLo) else best
  {
    r := best;
    if row.valid == 1 {
      var better := true;
      if best.Best? { better := LexGt(row.words, best.words); }
      if better { r := Best(row.words, maskLo); }
    }
  }

  /** The readback loop of one chunk. A later chunk shows the leading rows again and changes nothing. */
  method ReadChunk(prefixes: seq<Prefix>, ghost totals: seq<Total>, out: array<Row>, processed: nat, n: nat,
                   best0: Best)
    returns (best: Best)
    requires processed + n <= |prefixes| == |totals| && n <= Window(|prefixes|)
    requires Shows(out[..], totals, n)
    requires best0 == if processed == 0 then NoTotal else ReadBest(prefixes, totals, Window(|prefixes|))
    ensures best == if processed == 0 then ReadBest(prefixes, totals, n) else best0
  {
    best := best0;
    ReadTops(prefixes, totals, Window(|prefixes|));
    for i := 0 to n
      invariant best == if processed == 0 then ReadBest(prefixes, totals, i) else best0
    {
      assert out[i] == out[..][i];
      assert totals[i] == totals[..Window(|prefixes|)][i];
      ReadStep(prefixes, totals, i);
      best := Better(best, out[i], prefixes[processed + i].lo);
    }
  }

  /** The chunk loop of `run_merge`; `NoTotal` is its panic. Every chunk restarts at row 0. */
  method RunMerge(prefixes: seq<Prefix>, suffixes: seq<Suffix>) returns (best: Best)
    requires |prefixes| < U32
    ensures best == SliceBest(prefixes, suffixes)
  {
    var count := |prefixes|;
    var chunk := Window(count);
    ghost var totals := RowTotals(prefixes, suffixes);
    var out := new Row[chunk](_ => Row(0, ZERO));
    best := NoTotal;
    var processed := 0;
    while processed < count
      invariant 0 <= processed <= count && out.Length == chunk
      invariant processed > 0 ==> processed >= chunk
      invariant best == if processed == 0 then NoTotal else ReadBest(prefixes, totals, chunk)
    {
      var n := if count - processed <= chunk then count - processed else chunk;
      Dispatch(MergeJob(processed, n), prefixes, suffixes, out);
      best := ReadChunk(prefixes, totals, out, processed, n, best);
      processed := processed + n;
    }
  }

  // ---------- what the host loop reports ----------

  lemma {:induction false} RowOptimum(prefixes: seq<Prefix>, suffixes: seq<Suffix>, i: nat)
    requires Descending(suffixes) && NoOverflow(prefixes, suffixes) && i < |prefixes|
    ensures var t := RowTotal(prefixes[i], suffixes);
            && (t == NoFit <==> forall v: nat :: !IsTotal([prefixes[i]], suffixes, v))
            && (t.Fit? ==> IsOptimum([prefixes[i]], suffixes, Value(t.words)))
  {
    assert prefixes[i] in prefixes;
    FitIsOptimum(prefixes[i], suffixes);
  }

  lemma {:induction false} TotalOfRow(prefixes: seq<Prefix>, suffixes: seq<Suffix>, v: nat)
    ensures IsTotal(prefixes, suffixes, v) <==>
              exists i :: 0 <= i < |prefixes| && IsTotal([prefixes[i]], suffixes, v)
  {
    if IsTotal(prefixes, suffixes, v) {
      var p, s :| p in prefixes && s in suffixes && Compatible(p, s) && v == PairTotal(p, s);
      var i :| 0 <= i < |prefixes| && prefixes[i] == p;
      assert p in [prefixes[i]];
    }
    if i :| 0 <= i < |prefixes| && IsTotal([prefixes[i]], suffixes, v) {
      var p, s :| p in [prefixes[i]] && s in suffixes && Compatible(p, s) && v == PairTotal(p, s);
      assert p == prefixes[i];
    }
  }

  /** What is read is no less than any of the rows read. */
  lemma {:induction false} ReadAbove(prefixes: seq<Prefix>, totals: seq<Total>, n: nat, i: nat)
    requires i < n <= |prefixes| == |totals| && totals[i].Fit?
    ensures var best := ReadBest(prefixes, totals, n); best.Best? && Value(totals[i].words) <= Value(best.words)
  {
    ReadTops(prefixes, totals, n);
    assert totals[..n][i] == totals[i];
  }

  lemma {:induction false} RowIsRead(prefixes: seq<Prefix>, suffixes: seq<Suffix>, n: nat, i: nat, v: nat)
    requires Descending(suffixes) && NoOverflow(prefixes, suffixes)
    requires i < n <= |prefixes| && IsTotal([prefixes[i]], suffixes, v)
    ensures var best := ReadBest(prefixes, RowTotals(prefixes, suffixes), n); best.Best? && v <= Value(best.words)
  {
    RowOptimum(prefixes, suffixes, i);
    ReadAbove(prefixes, RowTotals(prefixes, suffixes), n, i);
  }

  /** Every total of the leading rows is at most what is read from them. */
  lemma {:induction false} LeadingTotalIsRead(prefixes: seq<Prefix>, suffixes: seq<Suffix>, n: nat, v: nat)
    requires Descending(suffixes) && NoOverflow(prefixes, suffixes)
    requires n <= |prefixes| && IsTotal(prefixes[..n], suffixes, v)
    ensures var best := ReadBest(prefixes, RowTotals(prefixes, suffixes), n); best.Best? && v <= Value(best.words)
  {
    var i := RowOfTotal(prefixes[..n], suffixes, v);
    assert prefixes[..n][i] == prefixes[i];
    RowIsRead(prefixes, suffixes, n, i, v);
  }

  lemma {:induction false} RowOfTotal(prefixes: seq<Prefix>, suffixes: seq<Suffix>, v: nat) returns (i: nat)
    requires IsTotal(prefixes, suffixes, v)
    ensures i < |prefixes| && IsTotal([prefixes[i]], suffixes, v)
  {
    TotalOfRow(prefixes, suffixes, v);
    i :| 0 <= i < |prefixes| && IsTotal([prefixes[i]], suffixes, v);
  }

  /** The best of the leading rows is the best of their pairs. */
  lemma {:induction false} LeadingOptimum(prefixes: seq<Prefix>, suffixes: seq<Suffix>, n: nat)
    requires Descending(suffixes) && NoOverflow(prefixes, suffixes) && n <= |prefixes|
    ensures ReportsOptimum(prefixes[..n], suffixes, ReadBest(prefixes, RowTotals(prefixes, suffixes), n))
  {
    var totals, leading := RowTotals(prefixes, suffixes), prefixes[..n];
    var best := ReadBest(prefixes, totals, n);
    ReadTops(prefixes, totals, n);
    forall v: nat | IsTotal(leading, suffixes, v)
      ensures best.Best? && v <= Value(best.words)
    {
      LeadingTotalIsRead(prefixes, suffixes, n, v);
    }
    if best.Best? {
      var k :| 0 <= k < n && totals[k] == Fit(best.words);
      RowOptimum(prefixes, suffixes, k);
      assert leading[k] == prefixes[k];
      TotalOfRow(leading, suffixes, Value(best.words));
    }
  }

  /** The best row is the best pair: a slice reports the optimum over its first 2^20 prefixes. */
  lemma {:induction false} SliceBestIsWindowOptimum(prefixes: seq<Prefix>, suffixes: seq<Suffix>)
    requires Descending(suffixes) && NoOverflow(prefixes, suffixes)
    ensures var best, window := SliceBest(prefixes, suffixes), prefixes[..Window(|prefixes|)];
            && (best == NoTotal <==> forall v: nat :: !IsTotal(window, suffixes, v))
            && (best.Best? ==> IsOptimum(window, suffixes, Value(best.words)))
  {
    LeadingOptimum(prefixes, suffixes, Window(|prefixes|));
  }

  /** Every total of a row beyond the first 2^20 is matched by one of those rows. */
  ghost predicate LeadingRowsSuffice(prefixes: seq<Prefix>, suffixes: seq<Suffix>) {
    forall v: nat :: IsTotal(prefixes[Window(|prefixes|)..], suffixes, v) ==>
      exists u: nat :: IsTotal(prefixes[..Window(|prefixes|)], suffixes, u) && v <= u
  }

  /** The report is right: the slice optimum, or nothing when the slice has no compatible pair. */
  ghost predicate ReportsOptimum(prefixes: seq<Prefix>, suffixes: seq<Suffix>, best: Best) {
    match best
    case NoTotal => forall v: nat :: !IsTotal(prefixes, suffixes, v)
    case Best(words, _) => IsOptimum(prefixes, suffixes, Value(words))
  }

  lemma {:induction false} TotalsSplit(prefixes: seq<Prefix>, suffixes: seq<Suffix>, n: nat, v: nat)
    requires n <= |prefixes|
    ensures IsTotal(prefixes, suffixes, v) <==>
              IsTotal(prefixes[..n], suffixes, v) || IsTotal(prefixes[n..], suffixes, v)
  {
    assert prefixes == prefixes[..n] + prefixes[n..];
  }

  /** A slice report is the optimum of the slice exactly when the leading rows suffice. */
  lemma {:induction false} SliceExactness(prefixes: seq<Prefix>, suffixes: seq<Suffix>)
    requires Descending(suffixes) && NoOverflow(prefixes, suffixes)
    ensures ReportsOptimum(prefixes, suffixes, SliceBest(prefixes, suffixes))
       <==> LeadingRowsSuffice(prefixes, suffixes)
  {
    var n, best := Window(|prefixes|), SliceBest(prefixes, suffixes);
    SliceBestIsWindowOptimum(prefixes, suffixes);
    forall v: nat
      ensures IsTotal(prefixes, suffixes, v) <==>
                IsTotal(prefixes[..n], suffixes, v) || IsTotal(prefixes[n..], suffixes, v)
    {
      TotalsSplit(prefixes, suffixes, n, v);
    }
    WindowDecides(prefixes, prefixes[..n], prefixes[n..], suffixes, best);
  }

  /** The optimum of the leading rows is that of all rows exactly when the later totals are matched. */
  lemma {:induction false} WindowDecides(prefixes: seq<Prefix>, leading: seq<Prefix>, later: seq<Prefix>,
                                         suffixes: seq<Suffix>, best: Best)
    requires ReportsOptimum(leading, suffixes, best)
    requires forall v: nat :: IsTotal(prefixes, suffixes, v) <==>
               IsTotal(leading, suffixes, v) || IsTotal(later, suffixes, v)
    ensures ReportsOptimum(prefixes, suffixes, best) <==>
              forall v: nat :: IsTotal(later, suffixes, v) ==>
                exists u: nat :: IsTotal(leading, suffixes, u) && v <= u
  {
  }

  /** One dispatch covers the slice. */
  lemma {:induction false} OneChunkIsExact(prefixes: seq<Prefix>, suffixes: seq<Suffix>)
    requires Descending(suffixes) && NoOverflow(prefixes, suffixes) && |prefixes| <= 1048576
    ensures ReportsOptimum(prefixes, suffixes, SliceBest(prefixes, suffixes))
  {
    assert prefixes[..|prefixes|] == prefixes;
    SliceBestIsWindowOptimum(prefixes, suffixes);
  }

  // ---------- beyond one chunk ----------

  function Heavy(): Prefix { Prefix(0, 0, 0, [1, 0, 0, 0, 0, 0]) }
  function Light(): Prefix { Prefix(0, 0, 0, ZERO) }

  /** For every slice length beyond 2^20 there is a slice whose report is wrong: its last prefix is
      never read. */
  lemma {:induction false} LongSliceCanMiss(count: nat) returns (prefixes: seq<Prefix>, suffixes: seq<Suffix>)
    requires count > CHUNK
    ensures |prefixes| == count && Descending(suffixes) && NoOverflow(prefixes, suffixes)
    ensures !ReportsOptimum(prefixes, suffixes, SliceBest(prefixes, suffixes))
  {
    var empty := Suffix(0, 0, 0, 0, 0, 0);
    prefixes := seq(count, i => if i == count - 1 then Heavy() else Light());
    suffixes := [empty];
    WeightsOfWitnesses();
    assert prefixes[CHUNK..][count - 1 - CHUNK] == Heavy();
    LastCounts(prefixes[CHUNK..], suffixes);
    OnlyZeros(prefixes[..CHUNK], suffixes);
    forall u: nat | IsTotal(prefixes[..CHUNK], suffixes, u) ensures u < 1 {
      assert u == 0;
    }
    SliceExactness(prefixes, suffixes);
  }

  ghost predicate AlwaysExact(count: nat) {
    forall prefixes: seq<Prefix>, suffixes: seq<Suffix> ::
      |prefixes| == count && Descending(suffixes) && NoOverflow(prefixes, suffixes) ==>
        ReportsOptimum(prefixes, suffixes, SliceBest(prefixes, suffixes))
  }

  /** The slice lengths for which the report is always right are those of a single chunk. */
  lemma {:induction false} ExactLengths(count: nat)
    ensures AlwaysExact(count) <==> count <= 1048576
  {
    if count <= CHUNK {
      forall prefixes: seq<Prefix>, suffixes: seq<Suffix>
        | |prefixes| == count && Descending(suffixes) && NoOverflow(prefixes, suffixes)
        ensures ReportsOptimum(prefixes, suffixes, SliceBest(prefixes, suffixes))
      {
        OneChunkIsExact(prefixes, suffixes);
      }
    } else {
      var prefixes, suffixes := LongSliceCanMiss(count);
    }
  }

  // ---------- with the row of the chunk ----------

  /** The readback of `n` rows from row `start` on. */
  function ReadOn(prefixes: seq<Prefix>, totals: seq<Total>, start: nat, n: nat, best: Best): Best
    requires start + n <= |prefixes| == |totals|
  {
    if n == 0 then best
    else
      var before, i := ReadOn(prefixes, totals, start, n - 1, best), start + n - 1;
      if totals[i].Fit? && (before == NoTotal || Value(totals[i].words) > Value(before.words))
      then Best(totals[i].words, prefixes[i].lo)
      else before
  }

  /** The chunk loop as it would be if lane `i` of a chunk read row `slice_start + i`. */
  function ChunkLoop(prefixes: seq<Prefix>, totals: seq<Total>, processed: nat, best: Best): Best
    requires processed <= |prefixes| == |totals|
    decreases |prefixes| - processed
  {
    if processed == |prefixes| then best
    else
      var n := Window(|prefixes| - processed);
      ChunkLoop(prefixes, totals, processed + n, ReadOn(prefixes, totals, processed, n, best))
  }

  lemma {:induction false} ReadOnReads(prefixes: seq<Prefix>, totals: seq<Total>, start: nat, n: nat)
    requires start + n <= |prefixes| == |totals|
    ensures ReadOn(prefixes, totals, start, n, ReadBest(prefixes, totals, start))
         == ReadBest(prefixes, totals, start + n)
  {
    if n > 0 {
      ReadOnReads(prefixes, totals, start, n - 1);
      ReadStep(prefixes, totals, start + n - 1);
    }
  }

  lemma {:induction false} LoopReadsAll(prefixes: seq<Prefix>, totals: seq<Total>, processed: nat)
    requires processed <= |prefixes| == |totals|
    ensures ChunkLoop(prefixes, totals, processed, ReadBest(prefixes, totals, processed))
         == ReadBest(prefixes, totals, |prefixes|)
    decreases |prefixes| - processed
  {
    if processed < |prefixes| {
      var n := Window(|prefixes| - processed);
      ReadOnReads(prefixes, totals, processed, n);
      LoopReadsAll(prefixes, totals, processed + n);
    }
  }

  /** If every chunk read its own rows, a slice of any length would report its optimum. */
  lemma {:induction false} OwnRowsAreExact(prefixes: seq<Prefix>, suffixes: seq<Suffix>)
    requires Descending(suffixes) && NoOverflow(prefixes, suffixes)
    ensures ReportsOptimum(prefixes, suffixes, ChunkLoop(prefixes, RowTotals(prefixes, suffixes), 0, NoTotal))
  {
    var totals := RowTotals(prefixes, suffixes);
    assert totals[..0] == [] && prefixes[..|prefixes|] == prefixes;
    LoopReadsAll(prefixes, totals, 0);
    LeadingOptimum(prefixes, suffixes, |prefixes|);
  }

  lemma {:induction false} LastCounts(late: seq<Prefix>, suffixes: seq<Suffix>)
    requires Heavy() in late && suffixes == [Suffix(0, 0, 0, 0, 0, 0)]
    ensures IsTotal(late, suffixes, 1)
  {
    WeightsOfWitnesses();
    assert Compatible(Heavy(), suffixes[0]) && suffixes[0] in suffixes;
  }

  lemma {:induction false} OnlyZeros(early: seq<Prefix>, suffixes: seq<Suffix>)
    requires suffixes == [Suffix(0, 0, 0, 0, 0, 0)] && forall p :: p in early ==> p == Light()
    ensures forall u: nat :: IsTotal(early, suffixes, u) ==> u == 0
  {
    WeightsOfWitnesses();
  }

  lemma {:induction false} WeightsOfWitnesses()
    ensures Value(Heavy().weight) == 1 && Value(Light().weight) == 0
  {
    var zeros: seq<u32> := [0, 0, 0, 0, 0];
    assert Heavy().weight[1..] == zeros && Light().weight[1..] == zeros;
    LcmWords.ZeroValue(zeros);
  }
}
