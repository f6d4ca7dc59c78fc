/** The GPU product pipeline: products, sort, reduce, compact, host readback. */
module LaurentKernel {
  import opened Bits
  import opened MachineInts
  import opened BitonicNetwork
  import opened LaurentReference

  const N := 64
  const SENTINEL := Key(0xffff_ffff, 0xffff_ffff)

  /** A texel or storage-buffer record; the coefficient's bits are a u32 in a texture. */
  datatype Term = Term(qe: u32, te: u32, coef: i32, valid: u32)

  const EMPTY := Term(0, 0, 0, 0)

  // ---------- stage 1: products ----------

  method PaddedTerms(input: seq<Triple>) returns (r: seq<Term>, ok: bool)
    ensures ok <==> |input| <= WIDTH
    ensures ok ==> r == Padded(input)
  {
    ok := |input| <= WIDTH;
    if ok {
      var out := new Term[WIDTH](_ => EMPTY);
      for i := 0 to |input|
        invariant forall k :: 0 <= k < i ==> out[k] == Padded(input)[k]
        invariant forall k :: i <= k < WIDTH ==> out[k] == EMPTY
      {
        out[i] := Term(input[i].qe, input[i].te, input[i].coef, 1);
      }
      r := out[..];
    } else {
      r := [];
    }
  }

  function Padded(input: seq<Triple>): (r: seq<Term>)
    requires |input| <= WIDTH
    ensures |r| == WIDTH
  {
    seq(WIDTH, k requires 0 <= k < WIDTH =>
      if k < |input| then Term(input[k].qe, input[k].te, input[k].coef, 1) else EMPTY)
  }

  /** One lane of `product_pass`, in wrapping u32 and i32 arithmetic. */
  function ProductLane(a: seq<Term>, b: seq<Term>, idx: nat): Term
    requires |a| == |b| == WIDTH && idx < N
  {
    var x, y := a[idx % WIDTH], b[idx / WIDTH];
    if x.valid == 0 || y.valid == 0 then EMPTY
    else Term(WrapU32(x.qe + y.qe), WrapU32(x.te + y.te), WrapI32(x.coef * y.coef), 1)
  }

  method ProductPass(a: seq<Term>, b: seq<Term>) returns (prods: array<Term>)
    requires |a| == |b| == WIDTH
    ensures fresh(prods) && prods.Length == N
    ensures forall idx :: 0 <= idx < N ==> prods[idx] == ProductLane(a, b, idx)
  {
    prods := new Term[N](_ => EMPTY);
    for idx := 0 to N
      invariant forall k :: 0 <= k < idx ==> prods[k] == ProductLane(a, b, k)
    {
      prods[idx] := ProductLane(a, b, idx);
    }
  }

  // ---------- stage 3: sort ----------

  /** What a lane loads into the workgroup arrays. */
  function Load(p: Term): Cell {
    if p.valid == 0 then Cell(SENTINEL, 0) else Cell(Key(p.qe, p.te), p.coef)
  }

  /** What a lane writes back: validity travels with the key. */
  function Store(c: Cell): Term {
    Term(c.key.q, c.key.t, c.coef, if c.key != SENTINEL then 1 else 0)
  }

  function Loaded(prods: seq<Term>): (s: seq<Cell>)
    ensures |s| == |prods|
  {
    seq(|prods|, i requires 0 <= i < |prods| => Load(prods[i]))
  }

  function Stored(s: seq<Cell>): (r: seq<Term>)
    ensures |r| == |s|
  {
    seq(|s|, i requires 0 <= i < |s| => Store(s[i]))
  }

  method LoadProducts(prods: array<Term>) returns (wq: array<u32>, wt: array<u32>, wcoef: array<i32>)
    requires prods.Length == N
    ensures fresh(wq) && fresh(wt) && fresh(wcoef) && wq != wt
    ensures wq.Length == wt.Length == wcoef.Length == N
    ensures Cells(wq, wt, wcoef) == Loaded(prods[..])
  {
    wq, wt, wcoef := new u32[N], new u32[N], new i32[N];
    for lane := 0 to N
      invariant forall i :: 0 <= i < lane ==> Cell(Key(wq[i], wt[i]), wcoef[i]) == Load(prods[i])
    {
      var c := Load(prods[lane]);
      wq[lane], wt[lane], wcoef[lane] := c.key.q, c.key.t, c.coef;
    }
    assert Cells(wq, wt, wcoef) == Loaded(prods[..]);
  }

  method StoreProducts(prods: array<Term>, wq: array<u32>, wt: array<u32>, wcoef: array<i32>)
    requires prods.Length == wq.Length == wt.Length == wcoef.Length == N
    modifies prods
    ensures prods[..] == Stored(Cells(wq, wt, wcoef))
  {
    ghost var s := Cells(wq, wt, wcoef);
    for lane := 0 to N
      invariant s == Cells(wq, wt, wcoef)
      invariant forall i :: 0 <= i < lane ==> prods[i] == Store(s[i])
    {
      prods[lane] := Store(Cell(Key(wq[lane], wt[lane]), wcoef[lane]));
    }
    assert prods[..] == Stored(s);
  }

  /** `sort_pass` with its loads and stores. */
  method SortProducts(prods: array<Term>, schedule: (nat, nat) -> seq<nat>) returns (ghost s: seq<Cell>)
    requires prods.Length == N
    requires forall k, j :: LaneOrder(schedule(k, j), N)
    modifies prods
    ensures Sorted(s, true) && multiset(s) == multiset(Loaded(old(prods[..])))
    ensures prods[..] == Stored(s)
  {
    var wq, wt, wcoef := LoadProducts(prods);
    assert Pow2(6) == N;
    SortPass(wq, wt, wcoef, schedule, 6);
    s := Cells(wq, wt, wcoef);
    StoreProducts(prods, wq, wt, wcoef);
  }

  // ---------- stage 4: reduce ----------

  predicate SameKey(x: Term, y: Term) {
    x.qe == y.qe && x.te == y.te
  }

  predicate RunStart(prods: seq<Term>, lane: nat)
    requires lane < |prods|
  {
    lane == 0 || prods[lane - 1].valid == 0 || !SameKey(prods[lane], prods[lane - 1])
  }

  /** The exact sum of the coefficients from `lane` to the end of its run. */
  function RunSum(prods: seq<Term>, lane: nat, j: nat): int
    requires lane < |prods| && j <= |prods|
    decreases |prods| - j
  {
    if j == |prods| || prods[j].valid == 0 || !SameKey(prods[j], prods[lane]) then 0
    else prods[j].coef + RunSum(prods, lane, j + 1)
  }

  function ReduceLane(prods: seq<Term>, lane: nat): Term
    requires lane < |prods|
  {
    if prods[lane].valid != 0 && RunStart(prods, lane)
    then Term(prods[lane].qe, prods[lane].te, WrapI32(RunSum(prods, lane, lane)), 1)
    else EMPTY
  }

  method ReducePass(prods: array<Term>) returns (finals: array<Term>)
    ensures fresh(finals) && finals.Length == prods.Length
    ensures prods[..] == old(prods[..])
    ensures forall lane :: 0 <= lane < prods.Length ==> finals[lane] == ReduceLane(prods[..], lane)
  {
    finals := new Term[prods.Length](_ => EMPTY);
    ghost var ps := prods[..];
    for lane := 0 to prods.Length
      invariant prods[..] == ps
      invariant forall i :: 0 <= i < lane ==> finals[i] == ReduceLane(ps, i)
      invariant forall i :: lane <= i < prods.Length ==> finals[i] == EMPTY
    {
      var isStart :=
        lane == 0 || prods[lane - 1].valid == 0 || !SameKey(prods[lane], prods[lane - 1]);
      if prods[lane].valid != 0 && isStart {
        var acc := SumRun(prods, lane);
        finals[lane] := Term(prods[lane].qe, prods[lane].te, acc, 1);
      }
    }
  }

  /** The accumulation loop of one lane, in wrapping i32 additions. */
  method SumRun(prods: array<Term>, lane: nat) returns (acc: i32)
    requires lane < prods.Length && prods[lane].valid != 0
    ensures acc == WrapI32(RunSum(prods[..], lane, lane))
  {
    ghost var ps := prods[..];
    acc := prods[lane].coef;
    var j := lane + 1;
    ghost var sum: int := acc;
    while j < prods.Length && prods[j].valid != 0 && SameKey(prods[j], prods[lane])
      invariant lane < j <= prods.Length
      invariant acc == WrapI32(sum)
      invariant sum + RunSum(ps, lane, j) == RunSum(ps, lane, lane)
    {
      WrapI32Add(sum, prods[j].coef);
      sum := sum + prods[j].coef;
      acc := WrapI32(acc + prods[j].coef);
      j := j + 1;
    }
  }

  // ---------- stage 5: compact ----------

  predicate Kept(x: Term) {
    x.valid != 0 && x.coef != 0
  }

  /** `compact_pass`: each kept lane takes the next slot of an atomic counter, so the output order is
      the order in which the lanes happen to arrive. */
  method CompactPass(finals: array<Term>, order: seq<nat>) returns (finalOut: array<Term>)
    requires finals.Length == N && LaneOrder(order, N)
    ensures fresh(finalOut) && finalOut.Length == N
    ensures finalOut[..] == Compacted(finals[..], order)
  {
    finalOut := new Term[N](_ => EMPTY);
    var counter := 0;
    ghost var fs := finals[..];
    for x := 0 to |order|
      invariant finals[..] == fs
      invariant counter == |KeptIn(fs, order[..x])| <= x
      invariant finalOut[..counter] == KeptIn(fs, order[..x])
      invariant forall i :: counter <= i < N ==> finalOut[i] == EMPTY
    {
      assert order[..x + 1][..x] == order[..x];
      var f := finals[order[x]];
      if Kept(f) {
        var slot := counter;
        counter := counter + 1;
        finalOut[slot] := Term(f.qe, f.te, f.coef, 1);
        assert finalOut[..counter] == finalOut[..slot] + [finalOut[slot]];
      }
    }
    assert order[..|order|] == order;
    assert finalOut[..] == finalOut[..counter] + finalOut[counter..];
  }

  function KeptIn(finals: seq<Term>, order: seq<nat>): (r: seq<Term>)
    requires LanesBelow(order, |finals|)
    ensures |r| <= |order|
  {
    if order == [] then []
    else
      var rest, f := KeptIn(finals, order[..|order| - 1]), finals[order[|order| - 1]];
      if Kept(f) then rest + [Term(f.qe, f.te, f.coef, 1)] else rest
  }

  /** The output buffer: the kept records in order of arrival, then empty records. */
  function Compacted(finals: seq<Term>, order: seq<nat>): (r: seq<Term>)
    requires LanesBelow(order, |finals|) && |order| <= |finals|
    ensures |r| == |finals|
  {
    KeptIn(finals, order) + Empties(|finals| - |KeptIn(finals, order)|)
  }

  function Empties(n: nat): seq<Term> {
    seq(n, _ => EMPTY)
  }

  // ---------- host ----------

  /** Insert by key, after the equal keys: one step of the stable `sort_by_key`. */
  function Insert(x: Triple, s: seq<Triple>): (r: seq<Triple>)
    ensures multiset(r) == multiset(s) + multiset{x}
  {
    if s == [] then [x]
    else if KeyLess(KeyOf(x), KeyOf(s[|s| - 1])) then
      assert s == s[..|s| - 1] + [s[|s| - 1]];
      Insert(x, s[..|s| - 1]) + [s[|s| - 1]]
    else s + [x]
  }

  function SortByKey(s: seq<Triple>): (r: seq<Triple>)
    ensures multiset(r) == multiset(s)
  {
    if s == [] then []
    else
      assert s == s[..|s| - 1] + [s[|s| - 1]];
      Insert(s[|s| - 1], SortByKey(s[..|s| - 1]))
  }

  ghost predicate DistinctKeys(s: seq<Triple>) {
    forall i, j :: 0 <= i < j < |s| ==> KeyOf(s[i]) != KeyOf(s[j])
  }

  lemma {:induction false} InsertAscends(x: Triple, s: seq<Triple>)
    requires AscendingTerms(s) && forall y :: y in s ==> KeyOf(y) != KeyOf(x)
    ensures AscendingTerms(Insert(x, s))
  {
    if s != [] && KeyLess(KeyOf(x), KeyOf(s[|s| - 1])) {
      var rest, last := s[..|s| - 1], s[|s| - 1];
      InsertAscends(x, rest);
      var r := Insert(x, rest);
      forall i | 0 <= i < |r| ensures KeyLess(KeyOf(r[i]), KeyOf(last)) {
        assert r[i] in multiset(r);
        assert r[i] == x || r[i] in rest;
      }
    }
  }

  lemma {:induction false} SortAscends(s: seq<Triple>)
    requires DistinctKeys(s)
    ensures AscendingTerms(SortByKey(s))
  {
    if s != [] {
      var rest, last := s[..|s| - 1], s[|s| - 1];
      SortAscends(rest);
      forall y | y in SortByKey(rest) ensures KeyOf(y) != KeyOf(last) {
        assert y in multiset(rest);
      }
      InsertAscends(last, SortByKey(rest));
    }
  }

  /** The readback: filter the valid nonzero records and sort them. */
  method Readback(finalOut: array<Term>) returns (out: seq<Triple>)
    ensures out == SortByKey(Filtered(finalOut[..]))
  {
    out := [];
    for i := 0 to finalOut.Length
      invariant out == Filtered(finalOut[..i])
    {
      assert finalOut[..i + 1][..i] == finalOut[..i];
      var f := finalOut[i];
      if f.valid == 1 && f.coef != 0 {
        out := out + [Triple(f.qe, f.te, f.coef)];
      }
    }
    assert finalOut[..finalOut.Length] == finalOut[..];
    out := SortByKey(out);
  }

  function Filtered(fs: seq<Term>): seq<Triple> {
    if fs == [] then []
    else
      var rest, f := Filtered(fs[..|fs| - 1]), fs[|fs| - 1];
      if f.valid == 1 && f.coef != 0 then rest + [Triple(f.qe, f.te, f.coef)] else rest
  }
}
