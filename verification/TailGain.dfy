/** The exact tail gain: the heaviest progression-free tail, with weights in units of lcm(1..N2). */
module TailGain {
  import opened Bits
  import opened MachineInts
  import opened Limbs
  import opened LcmWords
  import opened TailConstraints
  import opened TailJob
  import NT = NumberTheory

  // ---------- tails as sets ----------

  ghost predicate TailSet(a: set<int>, n2: u32) {
    forall x :: x in a ==> TAIL <= x <= n2
  }

  /** No progression of the prefix and the tail uses an element of the tail. */
  ghost predicate Admissible(p: seq<u32>, a: set<int>, n2: u32) {
    && TailSet(a, n2)
    && (forall x, y, z :: (x in p || x in a) && (y in p || y in a) && z in a ==> !Progression(x, y, z))
  }

  /** The weight of the elements TAIL..TAIL+d-1 of a tail, each element `e` weighing `l / e`. */
  function Weight(a: set<int>, d: nat, l: nat): nat {
    if d == 0 then 0
    else Weight(a, d - 1, l) + if TAIL + d - 1 in a then l / (TAIL + d - 1) else 0
  }

  /** `g` is the greatest weight of an admissible tail. */
  ghost predicate IsGain(g: nat, p: seq<u32>, n2: u32, l: nat) {
    && (exists a :: Admissible(p, a, n2) && Weight(a, DomainSize(n2), l) == g)
    && (forall a :: Admissible(p, a, n2) ==> Weight(a, DomainSize(n2), l) <= g)
  }

  /** The sum of the reciprocals of a tail. */
  ghost function Reciprocals(a: set<int>, d: nat): real {
    if d == 0 then 0.0
    else Reciprocals(a, d - 1) + if TAIL + d - 1 in a then 1.0 / (TAIL + d - 1) as real else 0.0
  }

  /** In units of lcm(1..N2) a weight is exactly the sum of the reciprocals. */
  lemma {:induction false} WeightIsExact(a: set<int>, d: nat, l: nat)
    requires forall e :: TAIL <= e < TAIL + d ==> NT.Divides(e, l)
    ensures InUnits(Weight(a, d, l), l, Reciprocals(a, d))
  {
    if d > 0 {
      WeightIsExact(a, d - 1, l);
      var e := TAIL + d - 1;
      if e in a {
        var k := NT.ExactQuotient(e, l);
        RealStep(Weight(a, d - 1, l), k, l, e, Reciprocals(a, d - 1));
      }
    }
  }

  /** `w` is `r` times the unit `l`. */
  ghost predicate InUnits(w: nat, l: nat, r: real) {
    w as real == l as real * r
  }

  lemma {:induction false} RealStep(w: nat, k: nat, l: nat, e: nat, r: real)
    requires e > 0 && l == e * k && InUnits(w, l, r)
    ensures InUnits(w + k, l, r + 1.0 / e as real)
  {
    var x, y, z := l as real, e as real, k as real;
    assert x == y * z;
    assert x * (1.0 / y) == z;
    assert x * (r + 1.0 / y) == x * r + x * (1.0 / y);
  }

  lemma {:induction false} QuotientBound(l: nat, e: nat)
    requires e >= TAIL
    ensures l / e * TAIL <= l
  {
    var q := l / e;
    NT.MulMono(q, TAIL, e);
    assert l == e * q + l % e;
  }

  lemma {:induction false} AddBound(w: nat, q: nat, d: nat, l: nat)
    requires d > 0 && w * TAIL <= (d - 1) * l && q * TAIL <= l
    ensures (w + q) * TAIL <= d * l
  {
    NT.MulSplit(l, d - 1, 1);
  }

  /** A tail of at most 65 elements never outweighs the unit. */
  lemma {:induction false} WeightBound(a: set<int>, d: nat, l: nat)
    ensures Weight(a, d, l) * TAIL <= d * l
  {
    if d > 0 {
      WeightBound(a, d - 1, l);
      QuotientBound(l, TAIL + d - 1);
      AddBound(Weight(a, d - 1, l), if TAIL + d - 1 in a then l / (TAIL + d - 1) else 0, d, l);
    }
  }

  lemma {:induction false} WeightFits(a: set<int>, d: nat, l: nat)
    requires d <= MAX_DOMAIN && l < TWO_192
    ensures Weight(a, d, l) < TWO_192
  {
    WeightBound(a, d, l);
    NT.MulMono(l, d, MAX_DOMAIN);
  }

  // ---------- masks and sets ----------

  ghost function SetOf(mask: nat, n2: u32): (a: set<int>)
    ensures TailSet(a, n2)
  {
    set x: int | TAIL <= x <= n2 && InTail(mask, x)
  }

  lemma {:induction false} InSetOf(mask: nat, n2: u32)
    requires mask < Pow2(DomainSize(n2))
    ensures forall x :: x in SetOf(mask, n2) <==> InTail(mask, x)
  {
    forall x ensures x in SetOf(mask, n2) <==> InTail(mask, x) {
      if InTail(mask, x) { TailBelow(mask, n2, x); }
    }
  }

  function MaskOf(a: set<int>, d: nat): (m: nat)
    ensures m < Pow2(d)
  {
    if d == 0 then 0
    else MaskOf(a, d - 1) + if TAIL + d - 1 in a then Pow2(d - 1) else 0
  }

  lemma {:induction false} MaskOfBit(a: set<int>, d: nat, i: nat)
    ensures Bit(MaskOf(a, d), i) <==> i < d && TAIL + i in a
  {
    if d == 0 {
      ZeroBit(i);
    } else {
      MaskOfBit(a, d - 1, i);
      var m := MaskOf(a, d - 1);
      if i < d - 1 {
        ShiftedBit(m, d - 1, i);
      } else if i == d - 1 {
        TopBit(m, d - 1);
        HighBitsClear(m, d - 1, i);
      } else {
        HighBitsClear(MaskOf(a, d), d, i);
      }
    }
  }

  lemma {:induction false} EveryTailHasMask(a: set<int>, n2: u32) returns (mask: nat)
    requires TailSet(a, n2)
    ensures mask < Pow2(DomainSize(n2)) && SetOf(mask, n2) == a
  {
    mask := MaskOf(a, DomainSize(n2));
    InSetOf(mask, n2);
    forall x ensures x in SetOf(mask, n2) <==> x in a {
      if x >= TAIL { MaskOfBit(a, DomainSize(n2), x - TAIL); }
    }
  }

  lemma {:induction false} AdmissibleMask(p: seq<u32>, mask: nat, n2: u32)
    requires mask < Pow2(DomainSize(n2))
    ensures Admissible(p, SetOf(mask, n2), n2) <==> !TailProgression(p, mask)
  {
    var a := SetOf(mask, n2);
    InSetOf(mask, n2);
    if TailProgression(p, mask) {
      var x, y, z :| x in Chosen(p, mask) && y in Chosen(p, mask) && InTail(mask, z) && Progression(x, y, z);
      assert (x in p || x in a) && (y in p || y in a) && z in a;
    } else {
      forall x, y, z | (x in p || x in a) && (y in p || y in a) && z in a ensures !Progression(x, y, z) {
        assert x in Chosen(p, mask) && y in Chosen(p, mask) && InTail(mask, z);
      }
    }
  }

  // ---------- weights ----------

  method WeightWords(e: u32, l: Words) returns (w: Words)
    requires e > 0
    ensures Value(w) == Value(l) / e
  {
    var buffer := new u32[6](i requires 0 <= i < 6 => l[i]);
    assert buffer[..] == l;
    DivWord(buffer, e);
    w := buffer[..];
  }

  ghost predicate WeightTable(weights: seq<Words>, d: nat, l: nat) {
    |weights| == d && forall i :: 0 <= i < d ==> Value(weights[i]) == l / (TAIL + i)
  }

  method BuildWeights(n2: u32, l: Words) returns (weights: seq<Words>)
    ensures WeightTable(weights, DomainSize(n2), Value(l))
  {
    weights := [];
    var e := TAIL;
    while e <= n2
      invariant e >= TAIL && (e <= n2 + 1 || e == TAIL)
      invariant WeightTable(weights, e - TAIL, Value(l))
      decreases n2 + 1 - e
    {
      var w := WeightWords(e, l);
      weights := weights + [w];
      e := e + 1;
    }
  }

  // ---------- the kernel ----------

  datatype Row = Row(valid: u32, words: Words)

  const EMPTY_ROW := Row(0, ZERO)

  /** The accumulation of `tail_gain_pass`: no carry leaves the sixth word. */
  method Accumulate(mask: nat, weights: seq<Words>, ghost n2: u32, ghost l: nat) returns (w: Words)
    requires DomainSize(n2) <= MAX_DOMAIN && mask < Pow2(DomainSize(n2)) && l < TWO_192
    requires WeightTable(weights, DomainSize(n2), l)
    ensures Value(w) == Weight(SetOf(mask, n2), DomainSize(n2), l)
  {
    w := ZERO;
    ZeroValue(ZERO);
    for e := 0 to |weights|
      invariant Value(w) == Weight(SetOf(mask, n2), e, l)
    {
      NextWeight(mask, n2, e, l);
      if Bit(mask, e) {
        w := WgslAdd(w, weights[e]);
      }
    }
  }

  /** One turn of the accumulation, below 2^192. */
  lemma {:induction false} NextWeight(mask: nat, n2: u32, e: nat, l: nat)
    requires e < DomainSize(n2) <= MAX_DOMAIN && mask < Pow2(DomainSize(n2)) && l < TWO_192
    ensures var a, step := SetOf(mask, n2), if Bit(mask, e) then l / (TAIL + e) else 0;
            && Weight(a, e + 1, l) == Weight(a, e, l) + step
            && (Weight(a, e, l) + step) % TWO_192 == Weight(a, e, l) + step
  {
    var a := SetOf(mask, n2);
    InSetOf(mask, n2);
    assert TAIL + e in a <==> InTail(mask, TAIL + e);
    WeightFits(a, e + 1, l);
  }

  ghost predicate RowFor(row: Row, mask: nat, p: seq<u32>, n2: u32, l: nat) {
    if Admissible(p, SetOf(mask, n2), n2)
    then row.valid == 1 && Value(row.words) == Weight(SetOf(mask, n2), DomainSize(n2), l)
    else row == EMPTY_ROW
  }

  method TailGainPass(mask: nat, job: Job, weights: seq<Words>, ghost p: seq<u32>, ghost n2: u32,
                      ghost l: nat)
    returns (row: Row)
    requires ValidPrefix(p) && JobFor(job, p, n2)
    requires DomainSize(n2) <= MAX_DOMAIN && mask < Pow2(DomainSize(n2)) && l < TWO_192
    requires WeightTable(weights, DomainSize(n2), l)
    ensures RowFor(row, mask, p, n2, l)
  {
    var valid := MaskTest(mask, job);
    MaskTestExact(mask, job, p, n2);
    AdmissibleMask(p, mask, n2);
    if !valid { return EMPTY_ROW; }
    var w := Accumulate(mask, weights, n2, l);
    row := Row(1, w);
  }

  ghost predicate RowsFor(rows: seq<Row>, p: seq<u32>, n2: u32, l: nat) {
    && |rows| == Pow2(DomainSize(n2))
    && forall mask :: 0 <= mask < |rows| ==> RowFor(rows[mask], mask, p, n2, l)
  }

  // ---------- selection ----------

  datatype Best = NoBest | Best(words: Words)

  /** The selection of `tailgain`: the greatest valid row, comparing the low word first. */
  method SelectLowFirst(rows: seq<Row>) returns (best: Best)
    ensures best == NoBest <==> forall r :: r in rows ==> r.valid != 1
    ensures best.Best? ==> Row(1, best.words) in rows
    ensures best.Best? ==> forall r :: r in rows && r.valid == 1 ==> !TupleGreater(r.words, best.words)
  {
    best := NoBest;
    for i := 0 to |rows|
      invariant best == NoBest <==> forall r :: r in rows[..i] ==> r.valid != 1
      invariant best.Best? ==> Row(1, best.words) in rows[..i]
      invariant best.Best? ==>
        forall r :: r in rows[..i] && r.valid == 1 ==> !TupleGreater(r.words, best.words)
    {
      assert rows[..i + 1] == rows[..i] + [rows[i]];
      if rows[i].valid == 1 {
        if best == NoBest || TupleGreater(rows[i].words, best.words) {
          forall r | r in rows[..i + 1] && r.valid == 1
            ensures !TupleGreater(r.words, rows[i].words)
          {
            TupleIrreflexive(rows[i].words);
            if r in rows[..i] { TupleOrder(r.words, best.words, rows[i].words); }
          }
          best := Best(rows[i].words);
        }
      }
    }
    assert rows[..|rows|] == rows;
  }

  lemma {:induction false} TupleIrreflexive(x: seq<u32>)
    ensures !TupleGreater(x, x)
  {
    if x != [] { TupleIrreflexive(x[1..]); }
  }

  lemma {:induction false} TupleOrder(x: seq<u32>, y: seq<u32>, z: seq<u32>)
    requires |x| == |y| == |z| && !TupleGreater(x, y) && TupleGreater(z, y)
    ensures !TupleGreater(x, z)
  {
    if x != [] && x[0] == y[0] == z[0] {
      TupleOrder(x[1..], y[1..], z[1..]);
    }
  }

  // ---------- the job ----------

  datatype Gain = TooLarge | Gain(words: Words, num: nat, den: nat)

  /** The weight words of some admissible tail. */
  ghost predicate TotalOf(w: Words, p: seq<u32>, n2: u32, l: nat) {
    exists a :: Admissible(p, a, n2) && Value(w) == Weight(a, DomainSize(n2), l)
  }

  /** `w` is a total and no total precedes it when low words are compared first. */
  ghost predicate LowFirstGreatest(w: Words, p: seq<u32>, n2: u32, l: nat) {
    && TotalOf(w, p, n2, l)
    && forall v: Words :: TotalOf(v, p, n2, l) ==> !TupleGreater(v, w)
  }

  lemma {:induction false} RowsAreTotals(rows: seq<Row>, p: seq<u32>, n2: u32, l: nat)
    requires RowsFor(rows, p, n2, l)
    ensures forall w: Words :: Row(1, w) in rows <==> TotalOf(w, p, n2, l)
  {
    forall w: Words ensures Row(1, w) in rows <==> TotalOf(w, p, n2, l) {
      if Row(1, w) in rows {
        var mask :| 0 <= mask < |rows| && rows[mask] == Row(1, w);
        assert RowFor(rows[mask], mask, p, n2, l);
      }
      if TotalOf(w, p, n2, l) {
        var a :| Admissible(p, a, n2) && Value(w) == Weight(a, DomainSize(n2), l);
        var mask := EveryTailHasMask(a, n2);
        assert RowFor(rows[mask], mask, p, n2, l);
        ValueInjective(w, rows[mask].words);
      }
    }
  }

  lemma {:induction false} EmptyTailIsAdmissible(p: seq<u32>, n2: u32, l: nat)
    ensures TotalOf(ZERO, p, n2, l)
  {
    ZeroValue(ZERO);
    EmptyWeight(DomainSize(n2), l);
    assert Admissible(p, {}, n2);
  }

  lemma {:induction false} EmptyWeight(d: nat, l: nat)
    ensures Weight({}, d, l) == 0
  {
    if d > 0 { EmptyWeight(d - 1, l); }
  }

  method AllRows(job: Job, weights: seq<Words>, ghost p: seq<u32>, n2: u32, ghost l: nat)
    returns (rows: seq<Row>)
    requires ValidPrefix(p) && JobFor(job, p, n2)
    requires DomainSize(n2) <= MAX_DOMAIN && l < TWO_192
    requires WeightTable(weights, DomainSize(n2), l)
    ensures RowsFor(rows, p, n2, l)
  {
    rows := [];
    for mask := 0 to Pow2(DomainSize(n2))
      invariant |rows| == mask
      invariant forall m :: 0 <= m < mask ==> RowFor(rows[m], m, p, n2, l)
    {
      var row := TailGainPass(mask, job, weights, p, n2, l);
      rows := rows + [row];
    }
  }

  method BuildJob(n2: u32, p: seq<u32>) returns (job: Job)
    requires ValidPrefix(p) && DomainSize(n2) <= MAX_DOMAIN
    ensures JobFor(job, p, n2)
    ensures |job.pairs| <= PAIR_SLOTS && |job.triples| <= TRIPLE_SLOTS
  {
    var blocked := BuildBlocked(p, n2);
    var pairs := BuildPairs(p, n2);
    PairsFit(pairs, p, n2);
    var triples := BuildTriples(n2);
    job := Job(DomainSize(n2), blocked, pairs, triples);
  }

  /** The kernel and the selection of one job. */
  method SelectTotal(n2: u32, p: seq<u32>, l: Words) returns (best: Words)
    requires ValidPrefix(p) && DomainSize(n2) <= MAX_DOMAIN && Value(l) < TWO_192
    ensures LowFirstGreatest(best, p, n2, Value(l))
  {
    var job := BuildJob(n2, p);
    var weights := BuildWeights(n2, l);
    var rows := AllRows(job, weights, p, n2, Value(l));
    var selected := SelectLowFirst(rows);
    RowsAreTotals(rows, p, n2, Value(l));
    EmptyTailIsAdmissible(p, n2, Value(l));
    assert Row(1, ZERO) in rows;
    best := selected.words;
    forall v: Words | TotalOf(v, p, n2, Value(l)) ensures !TupleGreater(v, best) {
      assert Row(1, v) in rows;
    }
  }

  /** One job of `tailgain`: the low-word-first greatest total, as words and as a fraction of
      lcm(1..N2) in lowest terms. Domains above 24 elements are refused. */
  method RunJob(n2: u32, p: seq<u32>) returns (r: Gain, ghost lcm: nat)
    requires ValidPrefix(p)
    ensures r == TooLarge <==> n2 > 88
    ensures r.Gain? ==> NT.IsLcmUpTo(n2, lcm) && LowFirstGreatest(r.words, p, n2, lcm)
    ensures r.Gain? ==>
      r.den > 0 && r.num * lcm == Value(r.words) * r.den && NT.Gcd(r.num, r.den) == 1
  {
    lcm := 1;
    if DomainSize(n2) > MAX_DOMAIN { return TooLarge, lcm; }
    var l;
    l, lcm := LcmUpTo(n2);
    LcmFits(n2, lcm);
    assert Value(l) == lcm;
    var best := SelectTotal(n2, p, l);
    var val := WordsToBigint(best);
    var lval := WordsToBigint(l);
    var num, den := ReduceFraction(val, lval);
    r := Gain(best, num, den);
  }

  // ---------- numeric order ----------

  /** `w` is ahead of `v` in the highest word in which they differ. */
  ghost predicate AheadAtTop(w: Words, v: Words) {
    exists i :: 0 <= i < 6 && w[i] > v[i] && w[i + 1..] == v[i + 1..]
  }

  lemma {:induction false} TopWordDecides(w: Words, v: Words)
    ensures AheadAtTop(w, v) <==> Value(w) > Value(v)
  {
    if AheadAtTop(w, v) {
      var i :| 0 <= i < 6 && w[i] > v[i] && w[i + 1..] == v[i + 1..];
      HighestDifference(w, v, i);
    } else if Value(w) > Value(v) {
      var i := TopDifference(w, v);
      HighestDifference(v, w, i);
    }
  }

  lemma {:induction false} TopDifference(w: Words, v: Words) returns (i: nat)
    requires w != v
    ensures i < 6 && w[i] != v[i] && w[i + 1..] == v[i + 1..]
  {
    i := 5;
    while w[i] == v[i]
      invariant i < 6 && w[i + 1..] == v[i + 1..]
      decreases i
    {
      assert w[i..] == [w[i]] + w[i + 1..] && v[i..] == [v[i]] + v[i + 1..];
      assert w == w[0..] && v == v[0..];
      i := i - 1;
    }
  }

  /** Comparing the high words first, as the merge does, always selects the gain. */
  lemma {:induction false} HighFirstSelectsGain(w: Words, p: seq<u32>, n2: u32, l: nat)
    requires DomainSize(n2) <= MAX_DOMAIN && l < TWO_192 && TotalOf(w, p, n2, l)
    ensures IsGain(Value(w), p, n2, l)
       <==> forall v: Words :: TotalOf(v, p, n2, l) ==> !TupleGreater(Reversed(v), Reversed(w))
  {
    var d := DomainSize(n2);
    forall v: Words ensures TupleGreater(Reversed(v), Reversed(w)) <==> Value(v) > Value(w) {
      ReversedKeyOrder(v, w);
    }
    if forall v: Words :: TotalOf(v, p, n2, l) ==> !TupleGreater(Reversed(v), Reversed(w)) {
      forall a | Admissible(p, a, n2) ensures Weight(a, d, l) <= Value(w) {
        WeightFits(a, d, l);
        var v: Words := WordsOf(Weight(a, d, l), 6);
        WordsBijection(Weight(a, d, l), v);
        assert TotalOf(v, p, n2, l);
      }
    }
  }

  /** `num / den` is in lowest terms and is the greatest sum of reciprocals of an admissible tail. */
  ghost predicate IsGreatestSum(num: nat, den: nat, p: seq<u32>, n2: u32) {
    && den > 0 && NT.Gcd(num, den) == 1
    && (exists a :: Admissible(p, a, n2) && SumIs(num, den, a, DomainSize(n2)))
    && (forall a :: Admissible(p, a, n2) ==> SumIsAtMost(num, den, a, DomainSize(n2)))
  }

  ghost predicate SumIs(num: nat, den: nat, a: set<int>, d: nat) {
    num as real == den as real * Reciprocals(a, d)
  }

  ghost predicate SumIsAtMost(num: nat, den: nat, a: set<int>, d: nat) {
    den as real * Reciprocals(a, d) <= num as real
  }

  /** `num / den` against the sum of the reciprocals of a tail, both in units of `l`. */
  lemma {:induction false} FractionOfWeight(num: nat, den: nat, l: nat, g: nat, weight: nat, r: real)
    requires l > 0 && den > 0 && num * l == g * den && InUnits(weight, l, r)
    ensures weight == g ==> num as real == den as real * r
    ensures weight <= g ==> den as real * r <= num as real
  {
    var x, y, n, v := l as real, den as real, num as real, g as real;
    assert n * x == v * y;
    assert weight as real * y == x * (y * r);
    if weight <= g { ScaledOrder(y, weight as real, v); }
    CancelUnit(x, y * r, n);
  }

  /** The converse: a fraction no tail exceeds stands for a weight no tail exceeds. */
  lemma {:induction false} WeightOfFraction(num: nat, den: nat, l: nat, g: nat, weight: nat, r: real)
    requires l > 0 && den > 0 && num * l == g * den && InUnits(weight, l, r)
    requires den as real * r <= num as real
    ensures weight <= g
  {
    var x, y, n, v, q := l as real, den as real, num as real, g as real, weight as real;
    assert n * x == v * y;
    ScaledOrder(x, y * r, n);
    assert y * r * x == y * q;
    CancelUnit(y, q, v);
  }

  lemma {:induction false} ScaledOrder(y: real, a: real, b: real)
    requires y > 0.0 && a <= b
    ensures a * y <= b * y
  {
    assert (b - a) * y >= 0.0;
  }

  lemma {:induction false} CancelUnit(x: real, a: real, b: real)
    requires x > 0.0
    ensures x * a == b * x ==> a == b
    ensures x * a <= b * x ==> a <= b
  {
    var gap := (a - b) * x;
    assert gap == x * a - b * x;
    if a > b { assert gap > 0.0; }
    if a < b { assert gap < 0.0; }
  }

  /** The gain in units of lcm(1..N2), reduced, is the greatest sum of reciprocals. */
  lemma {:induction false} GainIsGreatestSum(g: nat, p: seq<u32>, n2: u32, l: nat, num: nat, den: nat)
    requires NT.IsLcmUpTo(n2, l) && IsGain(g, p, n2, l)
    requires den > 0 && num * l == g * den && NT.Gcd(num, den) == 1
    ensures IsGreatestSum(num, den, p, n2)
  {
    var d := DomainSize(n2);
    forall a | Admissible(p, a, n2)
      ensures SumIsAtMost(num, den, a, d)
      ensures Weight(a, d, l) == g ==> SumIs(num, den, a, d)
    {
      TailFraction(g, a, n2, l, num, den);
    }
  }

  lemma {:induction false} TailFraction(g: nat, a: set<int>, n2: u32, l: nat, num: nat, den: nat)
    requires NT.IsLcmUpTo(n2, l) && den > 0 && num * l == g * den
    requires Weight(a, DomainSize(n2), l) <= g
    ensures SumIsAtMost(num, den, a, DomainSize(n2))
    ensures Weight(a, DomainSize(n2), l) == g ==> SumIs(num, den, a, DomainSize(n2))
  {
    var d := DomainSize(n2);
    WeightIsExact(a, d, l);
    FractionOfWeight(num, den, l, g, Weight(a, d, l), Reciprocals(a, d));
  }

  /** And a total whose reduced fraction is the greatest sum is the gain. */
  lemma {:induction false} GreatestSumIsGain(w: Words, p: seq<u32>, n2: u32, l: nat, num: nat, den: nat)
    requires NT.IsLcmUpTo(n2, l) && TotalOf(w, p, n2, l) && IsGreatestSum(num, den, p, n2)
    requires num * l == Value(w) * den
    ensures IsGain(Value(w), p, n2, l)
  {
    var d := DomainSize(n2);
    forall a | Admissible(p, a, n2) ensures Weight(a, d, l) <= Value(w) {
      assert SumIsAtMost(num, den, a, d);
      WeightIsExact(a, d, l);
      WeightOfFraction(num, den, l, Value(w), Weight(a, d, l), Reciprocals(a, d));
    }
  }

  /** The numerically greatest total, reduced, is the greatest sum of reciprocals in lowest terms. */
  lemma {:induction false} NumericMaximumIsGreatestSum(w: Words, p: seq<u32>, n2: u32, l: nat, num: nat, den: nat)
    requires DomainSize(n2) <= MAX_DOMAIN && l < TWO_192 && NT.IsLcmUpTo(n2, l)
    requires TotalOf(w, p, n2, l)
    requires forall v: Words :: TotalOf(v, p, n2, l) ==> !TupleGreater(Reversed(v), Reversed(w))
    requires den > 0 && num * l == Value(w) * den && NT.Gcd(num, den) == 1
    ensures IsGreatestSum(num, den, p, n2)
  {
    HighFirstSelectsGain(w, p, n2, l);
    GainIsGreatestSum(Value(w), p, n2, l, num, den);
  }

  // ---------- lcm(1..88) fits ----------

  predicate DividedByAll(c: nat, n: nat) {
    n == 0 || (c % n == 0 && DividedByAll(c, n - 1))
  }

  lemma {:induction false} DividedByAllIsMultiple(c: nat, n: nat)
    requires DividedByAll(c, n)
    ensures NT.CommonMultiple(n, c)
  {
    if n > 0 {
      DividedByAllIsMultiple(c, n - 1);
      NT.RemainderZero(n, c);
    }
  }

  const LCM_88 := 8076030954443701744994070304101969600

  /** With at most 24 tail elements, lcm(1..N2) is far below 2^192. */
  lemma {:induction false} LcmFits(n2: nat, l: nat)
    requires n2 <= 88 && NT.IsLcmUpTo(n2, l)
    ensures l <= LCM_88 < TWO_192
  {
    assert DividedByAll(LCM_88, 11);
    assert DividedByAll(LCM_88, 22);
    assert DividedByAll(LCM_88, 33);
    assert DividedByAll(LCM_88, 44);
    assert DividedByAll(LCM_88, 55);
    assert DividedByAll(LCM_88, 66);
    assert DividedByAll(LCM_88, 77);
    assert DividedByAll(LCM_88, 88);
    DividedByAllIsMultiple(LCM_88, 88);
    assert NT.CommonMultiple(n2, LCM_88);
    NT.DividesLeq(l, LCM_88);
  }
}
