/** The whole product: the kernel stages compose to the reference list, except for a coefficient at
    the sort sentinel's key. */
module LaurentPipeline {
  import opened Bits
  import opened Options
  import opened MachineInts
  import opened BitonicNetwork
  import opened LaurentReference
  import opened LaurentKernel

  // ---------- sums over cells ----------

  function CellAt(c: Cell, key: Key): int {
    if c.key == key then c.coef else 0
  }

  function SumAt(s: seq<Cell>, key: Key): int {
    if s == [] then 0 else SumAt(s[..|s| - 1], key) + CellAt(s[|s| - 1], key)
  }

  lemma {:induction false} SumAtConcat(u: seq<Cell>, v: seq<Cell>, key: Key)
    ensures SumAt(u + v, key) == SumAt(u, key) + SumAt(v, key)
  {
    if v == [] {
      assert u + v == u;
    } else {
      assert (u + v)[..|u + v| - 1] == u + v[..|v| - 1];
      SumAtConcat(u, v[..|v| - 1], key);
    }
  }

  /** Taking one cell out. */
  lemma {:induction false} Without(v: seq<Cell>, i: nat, key: Key)
    requires i < |v|
    ensures SumAt(v, key) == SumAt(v[..i] + v[i + 1..], key) + CellAt(v[i], key)
    ensures multiset(v) == multiset(v[..i] + v[i + 1..]) + multiset{v[i]}
  {
    assert v == v[..i] + [v[i]] + v[i + 1..];
    SumAtConcat(v[..i] + [v[i]], v[i + 1..], key);
    SumAtConcat(v[..i], [v[i]], key);
    SumAtConcat(v[..i], v[i + 1..], key);
    assert [v[i]][..0] == [];
  }

  /** Moving cells about does not change the sum at a key. */
  lemma {:induction false} SumAtPermuted(u: seq<Cell>, v: seq<Cell>, key: Key)
    requires multiset(u) == multiset(v)
    ensures SumAt(u, key) == SumAt(v, key)
  {
    if u == [] {
      assert |multiset(v)| == 0;
    } else {
      var n := |u| - 1;
      assert u[n] in multiset(v);
      var i :| 0 <= i < |v| && v[i] == u[n];
      Without(u, n, key);
      Without(v, i, key);
      assert u[..n] + u[n + 1..] == u[..n];
      var rest := v[..i] + v[i + 1..];
      assert multiset(u[..n]) == multiset(u) - multiset{u[n]} == multiset(rest);
      SumAtPermuted(u[..n], rest, key);
    }
  }

  lemma {:induction false} AbsentSum(s: seq<Cell>, key: Key)
    requires forall c :: c in s ==> c.key != key
    ensures SumAt(s, key) == 0
  {
    if s != [] { AbsentSum(s[..|s| - 1], key); }
  }

  // ---------- the products ----------

  function Slots(a: seq<Triple>, b: seq<Triple>): (s: seq<Cell>)
    requires |a| <= WIDTH && |b| <= WIDTH
    ensures |s| == N
  {
    seq(N, idx requires 0 <= idx < N => Load(ProductLane(Padded(a), Padded(b), idx)))
  }

  /** What row `j`, column `i` of the grid of slots contributes. */
  function GridCoef(a: seq<Triple>, b: seq<Triple>, i: nat, j: nat, key: Key): int {
    if i < |a| && j < |b| then PairCoef(b[j], a[i], key) else 0
  }

  lemma {:induction false} SlotSum(a: seq<Triple>, b: seq<Triple>, i: nat, j: nat, key: Key)
    requires |a| <= WIDTH && |b| <= WIDTH && i < WIDTH && j < WIDTH && PairsFit(a, b)
    ensures CellAt(Slots(a, b)[WIDTH * j + i], key) == GridCoef(a, b, i, j, key)
  {
    var idx := WIDTH * j + i;
    assert idx % WIDTH == i && idx / WIDTH == j;
    if i < |a| && j < |b| {
      assert a[i] in a && b[j] in b;
      assert Unwrapped(a[i], b[j]);
      assert a[i].coef * b[j].coef == b[j].coef * a[i].coef;
    }
  }

  lemma {:induction false} SumAtNext(s: seq<Cell>, n: nat, key: Key)
    requires n < |s|
    ensures SumAt(s[..n + 1], key) == SumAt(s[..n], key) + CellAt(s[n], key)
  {
    assert s[..n + 1][..n] == s[..n];
  }

  function Upto(x: nat, y: nat): nat {
    if x <= y then x else y
  }

  /** The sum of the first `i` columns of row `j`. */
  function GridRow(a: seq<Triple>, b: seq<Triple>, i: nat, j: nat, key: Key): int {
    if j < |b| then RowCoef(b[j], a[..Upto(i, |a|)], key) else 0
  }

  lemma {:induction false} GridRowNext(a: seq<Triple>, b: seq<Triple>, i: nat, j: nat, key: Key)
    ensures GridRow(a, b, i + 1, j, key) == GridRow(a, b, i, j, key) + GridCoef(a, b, i, j, key)
  {
    if i < |a| {
      assert a[..i + 1][..i] == a[..i];
    }
  }

  /** The sum at a key over the first `n` slots. */
  function SlotsSum(a: seq<Triple>, b: seq<Triple>, n: nat, key: Key): int
    requires |a| <= WIDTH && |b| <= WIDTH && n <= N
  {
    SumAt(Slots(a, b)[..n], key)
  }

  lemma {:induction false} SlotStep(a: seq<Triple>, b: seq<Triple>, i: nat, j: nat, key: Key)
    requires |a| <= WIDTH && |b| <= WIDTH && i < WIDTH && j < WIDTH && PairsFit(a, b)
    ensures SlotsSum(a, b, WIDTH * j + i + 1, key)
         == SlotsSum(a, b, WIDTH * j + i, key) + GridCoef(a, b, i, j, key)
  {
    SlotSum(a, b, i, j, key);
    SumAtNext(Slots(a, b), WIDTH * j + i, key);
  }

  /** A row of the grid of slots adds up to a row of the product. */
  lemma {:induction false} SlotRow(a: seq<Triple>, b: seq<Triple>, i: nat, j: nat, key: Key)
    requires |a| <= WIDTH && |b| <= WIDTH && i <= WIDTH && j < WIDTH && PairsFit(a, b)
    ensures SlotsSum(a, b, WIDTH * j + i, key)
         == SlotsSum(a, b, WIDTH * j, key) + GridRow(a, b, i, j, key)
  {
    if i > 0 {
      SlotRow(a, b, i - 1, j, key);
      SlotStep(a, b, i - 1, j, key);
      GridRowNext(a, b, i - 1, j, key);
    } else {
      NoColumns(a, b, j, key);
    }
  }

  lemma {:induction false} NoColumns(a: seq<Triple>, b: seq<Triple>, j: nat, key: Key)
    ensures GridRow(a, b, 0, j, key) == 0
  {
  }

  lemma {:induction false} ProductNext(a: seq<Triple>, b: seq<Triple>, j: nat, key: Key)
    ensures ProductCoef(b[..Upto(j + 1, |b|)], a, key)
         == ProductCoef(b[..Upto(j, |b|)], a, key) + if j < |b| then RowCoef(b[j], a, key) else 0
  {
    if j < |b| {
      assert b[..j + 1][..j] == b[..j];
    }
  }

  /** One more row of slots. */
  lemma {:induction false} RowNext(a: seq<Triple>, b: seq<Triple>, j: nat, key: Key)
    requires |a| <= WIDTH && |b| <= WIDTH && j < WIDTH && PairsFit(a, b)
    ensures SlotsSum(a, b, WIDTH * (j + 1), key)
         == SlotsSum(a, b, WIDTH * j, key) + if j < |b| then RowCoef(b[j], a, key) else 0
  {
    SlotRow(a, b, WIDTH, j, key);
    assert a[..|a|] == a;
    assert WIDTH * j + WIDTH == WIDTH * (j + 1);
  }

  lemma {:induction false} NoSlots(a: seq<Triple>, b: seq<Triple>, key: Key)
    requires |a| <= WIDTH && |b| <= WIDTH
    ensures SlotsSum(a, b, 0, key) == 0 && ProductCoef(b[..Upto(0, |b|)], a, key) == 0
  {
  }

  lemma {:induction false} SlotRows(a: seq<Triple>, b: seq<Triple>, j: nat, key: Key)
    requires |a| <= WIDTH && |b| <= WIDTH && j <= WIDTH && PairsFit(a, b)
    ensures SlotsSum(a, b, WIDTH * j, key) == ProductCoef(b[..Upto(j, |b|)], a, key)
  {
    if j > 0 {
      SlotRows(a, b, j - 1, key);
      RowNext(a, b, j - 1, key);
      ProductNext(a, b, j - 1, key);
    } else {
      NoSlots(a, b, key);
    }
  }

  lemma {:induction false} RowOfProduct(x: Triple, a: seq<Triple>, b: seq<Triple>, key: Key)
    ensures ProductCoef(a, b + [x], key) == ProductCoef(a, b, key) + RowCoef(x, a, key)
  {
    if a != [] {
      var rest, y := a[..|a| - 1], a[|a| - 1];
      RowOfProduct(x, rest, b, key);
      assert (b + [x])[..|b|] == b;
      assert x.coef * y.coef == y.coef * x.coef;
    }
  }

  lemma {:induction false} ProductCommutes(a: seq<Triple>, b: seq<Triple>, key: Key)
    ensures ProductCoef(a, b, key) == ProductCoef(b, a, key)
  {
    if b == [] {
      EmptyProduct(a, key);
    } else {
      var rest, x := b[..|b| - 1], b[|b| - 1];
      assert b == rest + [x];
      ProductCommutes(a, rest, key);
      RowOfProduct(x, a, rest, key);
    }
  }

  lemma {:induction false} EmptyProduct(a: seq<Triple>, key: Key)
    ensures ProductCoef(a, [], key) == 0
  {
    if a != [] { EmptyProduct(a[..|a| - 1], key); }
  }

  /** The cells loaded for sorting carry exactly the product of the factors. */
  lemma {:induction false} SlotsCarryProduct(a: seq<Triple>, b: seq<Triple>, key: Key)
    requires |a| <= WIDTH && |b| <= WIDTH && PairsFit(a, b)
    ensures SumAt(Slots(a, b), key) == ProductCoef(a, b, key)
  {
    SlotRows(a, b, WIDTH, key);
    assert Slots(a, b)[..WIDTH * WIDTH] == Slots(a, b);
    assert b[..|b|] == b;
    ProductCommutes(a, b, key);
  }

  // ---------- the reduction ----------

  lemma {:induction false} SumFrom(s: seq<Cell>, j: nat, key: Key)
    requires j < |s|
    ensures SumAt(s[j..], key) == CellAt(s[j], key) + SumAt(s[j + 1..], key)
  {
    assert s[j..] == [s[j]] + s[j + 1..];
    SumAtConcat([s[j]], s[j + 1..], key);
    assert [s[j]][..0] == [];
  }

  lemma {:induction false} RunSumIsSum(s: seq<Cell>, lane: nat, j: nat)
    requires Sorted(s, true) && lane <= j <= |s| && lane < |s| && s[lane].key != SENTINEL
    ensures RunSum(Stored(s), lane, j) == SumAt(s[j..], s[lane].key)
    decreases |s| - j
  {
    var key := s[lane].key;
    if j < |s| {
      if s[j].key == key {
        RunSumIsSum(s, lane, j + 1);
        SumFrom(s, j, key);
      } else {
        assert !KeyLess(s[j].key, key);
        forall c | c in s[j..] ensures c.key != key {
          var x :| j <= x < |s| && s[x] == c;
          assert x > j ==> !KeyLess(s[x].key, s[j].key);
        }
        AbsentSum(s[j..], key);
      }
    }
  }

  ghost predicate StartsKey(s: seq<Cell>, lane: nat) {
    lane < |s| && s[lane].key != SENTINEL && (lane == 0 || s[lane - 1].key != s[lane].key)
  }

  lemma {:induction false} KeyStartsHere(s: seq<Cell>, lane: nat)
    requires Sorted(s, true) && StartsKey(s, lane)
    ensures forall x :: 0 <= x < lane ==> s[x].key != s[lane].key
    ensures RunSum(Stored(s), lane, lane) == SumAt(s, s[lane].key)
  {
    var key := s[lane].key;
    forall x | 0 <= x < lane ensures s[x].key != key {
      assert !KeyLess(key, s[lane - 1].key);
      assert x < lane - 1 ==> !KeyLess(s[lane - 1].key, s[x].key);
    }
    RunSumIsSum(s, lane, lane);
    AbsentSum(s[..lane], key);
    SumAtConcat(s[..lane], s[lane..], key);
    assert s == s[..lane] + s[lane..];
  }

  /** At the start of a run, the wrapped run sum is the wrapped sum over all cells of that key. */
  lemma {:induction false} ReducedLane(s: seq<Cell>, lane: nat)
    requires Sorted(s, true) && lane < |s|
    ensures ReduceLane(Stored(s), lane) ==
      if StartsKey(s, lane)
      then Term(s[lane].key.q, s[lane].key.t, WrapI32(SumAt(s, s[lane].key)), 1)
      else EMPTY
  {
    if StartsKey(s, lane) {
      KeyStartsHere(s, lane);
    }
  }

  lemma {:induction false} RunStartExists(s: seq<Cell>, key: Key) returns (lane: nat)
    requires Sorted(s, true) && exists c :: c in s && c.key == key
    ensures lane < |s| && s[lane].key == key && (key != SENTINEL ==> StartsKey(s, lane))
  {
    lane :| lane < |s| && s[lane].key == key;
    while lane > 0 && s[lane - 1].key == key
      invariant lane < |s| && s[lane].key == key
    {
      lane := lane - 1;
    }
  }

  // ---------- compaction and readback ----------

  function AsTriple(f: Term): Triple {
    Triple(f.qe, f.te, f.coef)
  }

  ghost predicate KeptKeysDistinct(fs: seq<Term>) {
    forall i, j :: 0 <= i < j < |fs| && Kept(fs[i]) && Kept(fs[j]) ==>
      KeyOf(AsTriple(fs[i])) != KeyOf(AsTriple(fs[j]))
  }

  /** `x` is the record of a kept lane of the order. */
  ghost predicate FromKept(x: Triple, fs: seq<Term>, order: seq<nat>)
    requires LanesBelow(order, |fs|)
  {
    exists l :: l in order && Kept(fs[l]) && AsTriple(fs[l]) == x
  }

  lemma {:induction false} FilteredMembers(fs: seq<Term>, order: seq<nat>, x: Triple)
    requires LanesBelow(order, |fs|)
    ensures x in Filtered(KeptIn(fs, order)) <==> FromKept(x, fs, order)
  {
    if order != [] {
      var rest, last := order[..|order| - 1], order[|order| - 1];
      FilteredMembers(fs, rest, x);
      FilteredNext(fs, order);
      FromKeptNext(fs, order, x);
    }
  }

  lemma {:induction false} FromKeptNext(fs: seq<Term>, order: seq<nat>, x: Triple)
    requires LanesBelow(order, |fs|) && order != []
    ensures var rest, last := order[..|order| - 1], fs[order[|order| - 1]];
            FromKept(x, fs, order) <==> FromKept(x, fs, rest) || (Kept(last) && AsTriple(last) == x)
  {
    var rest, last := order[..|order| - 1], order[|order| - 1];
    assert order == rest + [last];
    if FromKept(x, fs, rest) {
      var l :| l in rest && Kept(fs[l]) && AsTriple(fs[l]) == x;
      assert l in order;
    }
    assert last in order;
  }

  lemma {:induction false} AppendDistinct(s: seq<Triple>, t: Triple)
    requires DistinctKeys(s) && forall x :: x in s ==> KeyOf(x) != KeyOf(t)
    ensures DistinctKeys(s + [t])
  {
  }

  /** No lane occurs twice in the order, so the last one is not among the others. */
  lemma {:induction false} LastIsNew(order: seq<nat>)
    requires order != [] && NoRepeats(order)
    ensures order[|order| - 1] !in order[..|order| - 1]
  {
  }

  /** Reading the compacted records back gives the kept lanes, once each, whatever the order of
      arrival. */
  lemma {:induction false} FilteredKept(fs: seq<Term>, order: seq<nat>)
    requires LanesBelow(order, |fs|) && NoRepeats(order) && KeptKeysDistinct(fs)
    ensures DistinctKeys(Filtered(KeptIn(fs, order)))
    ensures forall x :: x in Filtered(KeptIn(fs, order)) <==> FromKept(x, fs, order)
  {
    forall x ensures x in Filtered(KeptIn(fs, order)) <==> FromKept(x, fs, order) {
      FilteredMembers(fs, order, x);
    }
    if order != [] {
      var rest, last := order[..|order| - 1], order[|order| - 1];
      FilteredKept(fs, rest);
      FilteredNext(fs, order);
      if Kept(fs[last]) {
        LastIsNew(order);
        forall x | x in Filtered(KeptIn(fs, rest)) ensures KeyOf(x) != KeyOf(AsTriple(fs[last])) {
          var l :| l in rest && Kept(fs[l]) && AsTriple(fs[l]) == x;
          OtherLane(fs, l, last);
        }
        AppendDistinct(Filtered(KeptIn(fs, rest)), AsTriple(fs[last]));
      }
    }
  }

  lemma {:induction false} OtherLane(fs: seq<Term>, l: nat, m: nat)
    requires KeptKeysDistinct(fs) && l < |fs| && m < |fs| && l != m && Kept(fs[l]) && Kept(fs[m])
    ensures KeyOf(AsTriple(fs[l])) != KeyOf(AsTriple(fs[m]))
  {
  }

  lemma {:induction false} FilteredNext(fs: seq<Term>, order: seq<nat>)
    requires LanesBelow(order, |fs|) && order != []
    ensures var before, last := Filtered(KeptIn(fs, order[..|order| - 1])), fs[order[|order| - 1]];
            Filtered(KeptIn(fs, order)) == if Kept(last) then before + [AsTriple(last)] else before
  {
    var kept, last := KeptIn(fs, order[..|order| - 1]), fs[order[|order| - 1]];
    if Kept(last) {
      var t := Term(last.qe, last.te, last.coef, 1);
      assert (kept + [t])[..|kept|] == kept;
    }
  }

  lemma {:induction false} PaddingFiltered(u: seq<Term>, n: nat)
    ensures Filtered(u + Empties(n)) == Filtered(u)
  {
    if n == 0 {
      assert u + Empties(0) == u;
    } else {
      assert (u + Empties(n))[..|u| + n - 1] == u + Empties(n - 1);
      PaddingFiltered(u, n - 1);
    }
  }

  lemma {:induction false} CompactedFiltered(fs: seq<Term>, order: seq<nat>)
    requires LanesBelow(order, |fs|) && |order| <= |fs|
    ensures Filtered(Compacted(fs, order)) == Filtered(KeptIn(fs, order))
  {
    PaddingFiltered(KeptIn(fs, order), |fs| - |KeptIn(fs, order)|);
  }

  ghost predicate Reduced(s: seq<Cell>, fs: seq<Term>) {
    |fs| == |s| && forall lane :: 0 <= lane < |s| ==> fs[lane] == ReduceLane(Stored(s), lane)
  }

  lemma {:induction false} ReducedKeysDistinct(s: seq<Cell>, fs: seq<Term>)
    requires Sorted(s, true) && Reduced(s, fs)
    ensures KeptKeysDistinct(fs)
  {
    forall i, j | 0 <= i < j < |fs| && Kept(fs[i]) && Kept(fs[j])
      ensures KeyOf(AsTriple(fs[i])) != KeyOf(AsTriple(fs[j]))
    {
      ReducedLane(s, i);
      ReducedLane(s, j);
      KeyStartsHere(s, j);
    }
  }

  /** The kept lanes carry the nonzero wrapped sums and nothing else. */
  lemma {:induction false} KeptLane(s: seq<Cell>, fs: seq<Term>, lane: nat)
    requires Sorted(s, true) && Reduced(s, fs) && lane < |s| && Kept(fs[lane])
    ensures var x := AsTriple(fs[lane]);
            KeyOf(x) != SENTINEL && x.coef == WrapI32(SumAt(s, KeyOf(x))) != 0
  {
    ReducedLane(s, lane);
  }

  lemma {:induction false} KeyIsKept(s: seq<Cell>, fs: seq<Term>, key: Key) returns (lane: nat)
    requires Sorted(s, true) && Reduced(s, fs) && key != SENTINEL && WrapI32(SumAt(s, key)) != 0
    ensures lane < |s| && Kept(fs[lane]) && KeyOf(AsTriple(fs[lane])) == key
  {
    assert exists c :: c in s && c.key == key by {
      if forall c :: c in s ==> c.key != key { AbsentSum(s, key); }
    }
    lane := RunStartExists(s, key);
    ReducedLane(s, lane);
  }

  /** Sorting the kept lanes of a reduced, sorted cell list gives the nonzero wrapped sums. */
  lemma {:induction false} ReadbackLists(s: seq<Cell>, fs: seq<Term>, order: seq<nat>, out: seq<Triple>)
    requires Sorted(s, true) && Reduced(s, fs) && LaneOrder(order, |s|)
    requires out == SortByKey(Filtered(KeptIn(fs, order)))
    ensures AscendingTerms(out)
    ensures forall x :: x in out ==>
      KeyOf(x) != SENTINEL && x.coef == WrapI32(SumAt(s, KeyOf(x))) != 0
    ensures forall key :: key != SENTINEL && WrapI32(SumAt(s, key)) != 0 ==>
      exists x :: x in out && KeyOf(x) == key
  {
    ReducedKeysDistinct(s, fs);
    FilteredKept(fs, order);
    var r := Filtered(KeptIn(fs, order));
    SortAscends(r);
    forall x ensures x in out <==> x in r {
      assert x in multiset(out) <==> x in multiset(r);
    }
    forall x | x in out
      ensures KeyOf(x) != SENTINEL && x.coef == WrapI32(SumAt(s, KeyOf(x))) != 0
    {
      var l :| l in order && Kept(fs[l]) && AsTriple(fs[l]) == x;
      KeptLane(s, fs, l);
    }
    forall key | key != SENTINEL && WrapI32(SumAt(s, key)) != 0
      ensures exists x :: x in out && KeyOf(x) == key
    {
      var lane := KeyIsKept(s, fs, key);
      assert AsTriple(fs[lane]) in r;
    }
  }

  lemma {:induction false} KernelListsProduct(a: seq<Triple>, b: seq<Triple>, s: seq<Cell>, fs: seq<Term>,
                           order: seq<nat>, out: seq<Triple>)
    requires |a| <= WIDTH && |b| <= WIDTH && PairsFit(a, b) && SumsFit(a, b)
    requires Sorted(s, true) && multiset(s) == multiset(Slots(a, b))
    requires Reduced(s, fs) && LaneOrder(order, |s|)
    requires out == SortByKey(Filtered(KeptIn(fs, order)))
    ensures ListsProduct(out, a, b, {SENTINEL})
  {
    ReadbackLists(s, fs, order, out);
    forall key ensures WrapI32(SumAt(s, key)) == ProductCoef(a, b, key) {
      SumAtPermuted(s, Slots(a, b), key);
      SlotsCarryProduct(a, b, key);
    }
  }

  // ---------- the pipeline ----------

  /** `gpu_product`. `schedule` and `order` are the orders in which the lanes of the sort stages and
      of the compaction happen to run. */
  method GpuProduct(a: seq<Triple>, b: seq<Triple>, schedule: (nat, nat) -> seq<nat>, order: seq<nat>)
    returns (r: Outcome)
    requires forall k, j :: LaneOrder(schedule(k, j), N)
    requires LaneOrder(order, N)
    ensures |a| > WIDTH || |b| > WIDTH <==> r == Failed(TooManyTerms)
    ensures r.Terms? || r == Failed(TooManyTerms)
    ensures r.Terms? && PairsFit(a, b) && SumsFit(a, b) ==> ListsProduct(r.terms, a, b, {SENTINEL})
  {
    var aTerms, okA := PaddedTerms(a);
    if !okA { return Failed(TooManyTerms); }
    var bTerms, okB := PaddedTerms(b);
    if !okB { return Failed(TooManyTerms); }
    var prods := ProductPass(aTerms, bTerms);
    LoadedSlots(a, b, prods[..]);
    ghost var s, fs;
    var out;
    out, s, fs := RunPasses(prods, schedule, order);
    r := Terms(out);
    SameLength(s, Slots(a, b));
    if PairsFit(a, b) && SumsFit(a, b) {
      KernelListsProduct(a, b, s, fs, order, out);
    }
  }

  lemma {:induction false} LoadedSlots(a: seq<Triple>, b: seq<Triple>, prods: seq<Term>)
    requires |a| <= WIDTH && |b| <= WIDTH && |prods| == N
    requires forall idx :: 0 <= idx < N ==> prods[idx] == ProductLane(Padded(a), Padded(b), idx)
    ensures Loaded(prods) == Slots(a, b)
  {
  }

  lemma {:induction false} SameLength(s: seq<Cell>, t: seq<Cell>)
    requires multiset(s) == multiset(t)
    ensures |s| == |t|
  {
    assert |multiset(s)| == |multiset(t)|;
  }

  lemma {:induction false} ReducedFrom(s: seq<Cell>, prods: seq<Term>, fs: seq<Term>)
    requires |fs| == |s| && prods == Stored(s)
    requires forall lane :: 0 <= lane < |s| ==> fs[lane] == ReduceLane(prods, lane)
    ensures Reduced(s, fs)
  {
  }

  /** The passes after the products, and the readback. */
  method RunPasses(prods: array<Term>, schedule: (nat, nat) -> seq<nat>, order: seq<nat>)
    returns (out: seq<Triple>, ghost s: seq<Cell>, ghost fs: seq<Term>)
    requires prods.Length == N && LaneOrder(order, N)
    requires forall k, j :: LaneOrder(schedule(k, j), N)
    modifies prods
    ensures Sorted(s, true) && multiset(s) == multiset(Loaded(old(prods[..])))
    ensures |fs| == N && Reduced(s, fs) && out == SortByKey(Filtered(KeptIn(fs, order)))
  {
    s := SortProducts(prods, schedule);
    var finals := ReducePass(prods);
    fs := finals[..];
    ReducedFrom(s, prods[..], fs);
    out := CompactAndRead(finals, order);
  }

  method CompactAndRead(finals: array<Term>, order: seq<nat>) returns (out: seq<Triple>)
    requires finals.Length == N && LaneOrder(order, N)
    ensures out == SortByKey(Filtered(KeptIn(finals[..], order)))
  {
    CompactedFiltered(finals[..], order);
    var finalOut := CompactPass(finals, order);
    out := Readback(finalOut);
  }

  /** `compute_exact`: the reference first, then the kernel, then the comparison. The product is
      returned exactly when it has no coefficient at the sentinel key; otherwise the comparison
      reports a mismatch. */
  method ComputeExact(a: seq<Triple>, b: seq<Triple>, schedule: (nat, nat) -> seq<nat>, order: seq<nat>)
    returns (r: Outcome)
    requires forall k, j :: LaneOrder(schedule(k, j), N)
    requires LaneOrder(order, N)
    ensures !PairsFit(a, b) ==> r.Failed? && FirstFault(a, b, r.fault)
    ensures PairsFit(a, b) && !SumsFit(a, b) ==> r == Failed(ReducedOutOfRange)
    ensures PairsFit(a, b) && SumsFit(a, b) ==>
      if |a| > 8 || |b| > 8 then r == Failed(TooManyTerms)
      else if ProductCoef(a, b, SENTINEL) != 0 then r == Failed(ExactnessMismatch)
      else r.Terms? && ListsProduct(r.terms, a, b, {})
  {
    var expected := ExactReference(a, b);
    if expected.Failed? { return expected; }
    var actual := GpuProduct(a, b, schedule, order);
    if actual.Failed? { return actual; }
    AgreesUnlessSentinel(expected.terms, actual.terms, a, b);
    if actual != expected { return Failed(ExactnessMismatch); }
    r := actual;
  }

  /** The kernel's list is the reference's exactly when the coefficient at the sentinel is zero. */
  lemma {:induction false} AgreesUnlessSentinel(expected: seq<Triple>, actual: seq<Triple>, a: seq<Triple>,
                                                b: seq<Triple>)
    requires ListsProduct(expected, a, b, {}) && ListsProduct(actual, a, b, {SENTINEL})
    ensures actual == expected <==> ProductCoef(a, b, SENTINEL) == 0
  {
    if ProductCoef(a, b, SENTINEL) == 0 {
      ListIsUnique(expected, actual, a, b, {});
    } else {
      var x :| x in expected && KeyOf(x) == SENTINEL;
      assert x !in actual;
    }
  }

  /** A product the reference accepts and the kernel loses. */
  lemma {:induction false} SentinelProductIsLost()
    ensures var a, b := [Triple(0xffff_ffff, 0xffff_ffff, 1)], [Triple(0, 0, 1)];
            && PairsFit(a, b)
            && ListsProduct([Triple(0xffff_ffff, 0xffff_ffff, 1)], a, b, {})
            && ListsProduct([], a, b, {SENTINEL})
  {
    var x, y := Triple(0xffff_ffff, 0xffff_ffff, 1), Triple(0, 0, 1);
    forall key ensures ProductCoef([x], [y], key) == if key == SENTINEL then 1 else 0 {
      assert [x][..0] == [] && [y][..0] == [];
      assert RowCoef(x, [y], key) == RowCoef(x, [], key) + PairCoef(x, y, key);
    }
    assert KeyOf(x) == SENTINEL;
    assert x in [x];
  }
}
