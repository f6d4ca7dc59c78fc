/** The daemon's CPU reference product (`exact_reference`) and what its answer means. */
module LaurentReference {
  import opened Options
  import opened MachineInts
  import opened BitonicNetwork

  /** Terms per factor. */
  const WIDTH := 8

  datatype Triple = Triple(qe: u32, te: u32, coef: i32)

  datatype Fault =
    | QExponentOverflow
    | TExponentOverflow
    | ProductOutOfRange
    | ReducedOutOfRange
    | TooManyTerms
    | ExactnessMismatch

  datatype Outcome = Terms(terms: seq<Triple>) | Failed(fault: Fault)

  // ---------- meaning ----------

  /** What the pair `x`, `y` contributes to the coefficient at `key`, in exact arithmetic. */
  function PairCoef(x: Triple, y: Triple, key: Key): int {
    if x.qe + y.qe == key.q && x.te + y.te == key.t then x.coef * y.coef else 0
  }

  function RowCoef(x: Triple, b: seq<Triple>, key: Key): int {
    if b == [] then 0
    else RowCoef(x, b[..|b| - 1], key) + PairCoef(x, b[|b| - 1], key)
  }

  /** The coefficient of the product of two factors at `key`. */
  function ProductCoef(a: seq<Triple>, b: seq<Triple>, key: Key): int {
    if a == [] then 0
    else ProductCoef(a[..|a| - 1], b, key) + RowCoef(a[|a| - 1], b, key)
  }

  /** The pair keeps its exact exponents and coefficient in the widths of a kernel lane. */
  predicate Unwrapped(x: Triple, y: Triple) {
    && WrapU32(x.qe + y.qe) == x.qe + y.qe
    && WrapU32(x.te + y.te) == x.te + y.te
    && WrapI32(x.coef * y.coef) == x.coef * y.coef
  }

  /** `f` names the first of the three results of the pair that wraps. */
  predicate FirstWrap(x: Triple, y: Triple, f: Fault) {
    var q, t, c := x.qe + y.qe, x.te + y.te, x.coef * y.coef;
    match f
    case QExponentOverflow => WrapU32(q) != q
    case TExponentOverflow => WrapU32(q) == q && WrapU32(t) != t
    case ProductOutOfRange => WrapU32(q) == q && WrapU32(t) == t && WrapI32(c) != c
    case _ => false
  }

  /** No pair of terms wraps. */
  ghost predicate PairsFit(a: seq<Triple>, b: seq<Triple>) {
    forall x, y :: x in a && y in b ==> Unwrapped(x, y)
  }

  /** `f` is the first wrap of the first pair, in reading order, that has one. */
  ghost predicate FirstFault(a: seq<Triple>, b: seq<Triple>, f: Fault) {
    exists i, j :: 0 <= i < |a| && 0 <= j < |b| && FirstWrap(a[i], b[j], f)
                   && PairsFit(a[..i], b) && PairsFit([a[i]], b[..j])
  }

  /** No coefficient of the product wraps. */
  ghost predicate SumsFit(a: seq<Triple>, b: seq<Triple>) {
    forall key :: WrapI32(ProductCoef(a, b, key)) == ProductCoef(a, b, key)
  }

  function KeyOf(x: Triple): Key {
    Key(x.qe, x.te)
  }

  ghost predicate AscendingTerms(out: seq<Triple>) {
    forall i, j :: 0 <= i < j < |out| ==>
      out[i].qe < out[j].qe || (out[i].qe == out[j].qe && out[i].te < out[j].te)
  }

  /** `out` lists the nonzero coefficients of the product in ascending key order, leaving out the
      keys of `except`. */
  ghost predicate ListsProduct(out: seq<Triple>, a: seq<Triple>, b: seq<Triple>, except: set<Key>) {
    && AscendingTerms(out)
    && (forall x :: x in out ==>
          x.coef == ProductCoef(a, b, KeyOf(x)) != 0 && KeyOf(x) !in except)
    && (forall key :: ProductCoef(a, b, key) != 0 && key !in except ==>
          exists x :: x in out && KeyOf(x) == key)
  }

  /** There is at most one such list. */
  lemma {:induction false} ListIsUnique(u: seq<Triple>, v: seq<Triple>, a: seq<Triple>, b: seq<Triple>,
                                        except: set<Key>)
    requires ListsProduct(u, a, b, except) && ListsProduct(v, a, b, except)
    ensures u == v
  {
    forall x ensures x in u <==> x in v {
      if x in u { assert ProductCoef(a, b, KeyOf(x)) != 0; }
      if x in v { assert ProductCoef(a, b, KeyOf(x)) != 0; }
    }
    SameMembers(u, v);
  }

  lemma {:induction false} TailMembers(u: seq<Triple>, v: seq<Triple>)
    requires AscendingTerms(u) && AscendingTerms(v) && u != [] && v != [] && u[0] == v[0]
    requires forall x :: x in u ==> x in v
    ensures forall x :: x in u[1..] ==> x in v[1..]
  {
    forall x | x in u[1..] ensures x in v[1..] {
      var i :| 1 <= i < |u| && u[i] == x;
      assert KeyLess(KeyOf(u[0]), KeyOf(x));
      assert v == [v[0]] + v[1..] && x in v;
    }
  }

  lemma {:induction false} SameMembers(u: seq<Triple>, v: seq<Triple>)
    requires AscendingTerms(u) && AscendingTerms(v)
    requires forall x :: x in u <==> x in v
    ensures u == v
  {
    assert (u != [] ==> u[0] in v) && (v != [] ==> v[0] in u);
    if u != [] {
      assert u[0] in v && v[0] in u;
      assert u[0] == v[0];
      TailMembers(u, v);
      TailMembers(v, u);
      SameMembers(u[1..], v[1..]);
      assert u == [u[0]] + u[1..] && v == [v[0]] + v[1..];
    }
  }

  // ---------- the accumulator ----------

  /** One entry of the ordered map from keys to exact sums. */
  datatype Entry = Entry(key: Key, sum: int)

  ghost predicate AscendingKeys(acc: seq<Entry>) {
    forall i, j :: 0 <= i < j < |acc| ==> KeyLess(acc[i].key, acc[j].key)
  }

  function Lookup(acc: seq<Entry>, key: Key): int {
    if acc == [] then 0 else if acc[0].key == key then acc[0].sum else Lookup(acc[1..], key)
  }

  /** `*acc.entry(key).or_insert(0) += amount` on an ordered map. */
  function AddTo(acc: seq<Entry>, key: Key, amount: int): (r: seq<Entry>)
    requires AscendingKeys(acc)
    ensures AscendingKeys(r)
    ensures forall k :: Lookup(r, k) == Lookup(acc, k) + if k == key then amount else 0
    ensures forall e :: e in r ==> e.key == key || e in acc
  {
    if acc == [] then [Entry(key, amount)]
    else if acc[0].key == key then
      AbsentBelow(acc[1..], key);
      [Entry(key, acc[0].sum + amount)] + acc[1..]
    else if KeyLess(key, acc[0].key) then
      AbsentBelow(acc, key);
      [Entry(key, amount)] + acc
    else
      var rest := AddTo(acc[1..], key, amount);
      [acc[0]] + rest
  }

  lemma {:induction false} AbsentBelow(acc: seq<Entry>, key: Key)
    requires AscendingKeys(acc)
    requires forall e :: e in acc ==> KeyLess(key, e.key)
    ensures Lookup(acc, key) == 0
  {
    if acc != [] { AbsentBelow(acc[1..], key); }
  }

  lemma {:induction false} EntryFound(acc: seq<Entry>, e: Entry)
    requires AscendingKeys(acc) && e in acc
    ensures Lookup(acc, e.key) == e.sum
  {
    if acc[0] != e { EntryFound(acc[1..], e); }
  }

  lemma {:induction false} NonzeroHasEntry(acc: seq<Entry>, key: Key)
    requires Lookup(acc, key) != 0
    ensures Entry(key, Lookup(acc, key)) in acc
  {
    if acc[0].key != key { NonzeroHasEntry(acc[1..], key); }
  }

  // ---------- the reference ----------

  /** The inner loop: add the products of `x` with all of `b`. */
  method AddRow(acc: seq<Entry>, x: Triple, b: seq<Triple>) returns (r: seq<Entry>, fault: Option<Fault>)
    requires AscendingKeys(acc)
    ensures AscendingKeys(r)
    ensures fault == None <==> PairsFit([x], b)
    ensures fault == None ==> forall k :: Lookup(r, k) == Lookup(acc, k) + RowCoef(x, b, k)
    ensures fault.Some? ==>
      exists j :: 0 <= j < |b| && FirstWrap(x, b[j], fault.value) && PairsFit([x], b[..j])
  {
    r := acc;
    for j := 0 to |b|
      invariant AscendingKeys(r)
      invariant PairsFit([x], b[..j])
      invariant forall k :: Lookup(r, k) == Lookup(acc, k) + RowCoef(x, b[..j], k)
    {
      var y := b[j];
      assert PairsFit([x], b) ==> Unwrapped(x, y);
      if x.qe + y.qe >= U32 { return r, Some(QExponentOverflow); }
      if x.te + y.te >= U32 { return r, Some(TExponentOverflow); }
      var product := x.coef * y.coef;
      if !FitsI32(product) { return r, Some(ProductOutOfRange); }
      var key := Key(x.qe + y.qe, x.te + y.te);
      r := AddTo(r, key, product);
      forall k ensures Lookup(r, k) == Lookup(acc, k) + RowCoef(x, b[..j + 1], k) {
        assert b[..j + 1][..j] == b[..j];
        assert PairCoef(x, y, k) == if k == key then product else 0;
      }
      assert b[..j + 1] == b[..j] + [b[j]];
    }
    fault := None;
    assert b[..|b|] == b;
  }

  method ExactReference(a: seq<Triple>, b: seq<Triple>) returns (r: Outcome)
    ensures r.Terms? <==> PairsFit(a, b) && SumsFit(a, b)
    ensures r.Terms? ==> ListsProduct(r.terms, a, b, {})
    ensures r.Failed? && !PairsFit(a, b) ==> FirstFault(a, b, r.fault)
    ensures r.Failed? && PairsFit(a, b) ==> r.fault == ReducedOutOfRange
  {
    var acc: seq<Entry> := [];
    for i := 0 to |a|
      invariant AscendingKeys(acc)
      invariant PairsFit(a[..i], b)
      invariant forall k :: Lookup(acc, k) == ProductCoef(a[..i], b, k)
    {
      var fault;
      acc, fault := AddRow(acc, a[i], b);
      if fault != None {
        assert FirstFault(a, b, fault.value);
        assert a[i] in a && !PairsFit([a[i]], b);
        return Failed(fault.value);
      }
      forall k ensures Lookup(acc, k) == ProductCoef(a[..i + 1], b, k) {
        assert a[..i + 1][..i] == a[..i];
      }
      assert a[..i + 1] == a[..i] + [a[i]];
    }
    assert a[..|a|] == a;
    r := Collect(acc, a, b);
  }

  /** The second loop: drop zeros, check the range, keep the order. */
  method Collect(acc: seq<Entry>, ghost a: seq<Triple>, ghost b: seq<Triple>) returns (r: Outcome)
    requires AscendingKeys(acc)
    requires forall k :: Lookup(acc, k) == ProductCoef(a, b, k)
    ensures r == Failed(ReducedOutOfRange) || r.Terms?
    ensures r.Terms? <==> SumsFit(a, b)
    ensures r.Terms? ==> ListsProduct(r.terms, a, b, {})
  {
    var out: seq<Triple> := [];
    for i := 0 to |acc|
      invariant AscendingTerms(out)
      invariant forall x :: x in out ==> Entry(KeyOf(x), x.coef) in acc[..i] && x.coef != 0
      invariant forall e :: e in acc[..i] ==> FitsI32(e.sum)
      invariant forall e :: e in acc[..i] && e.sum != 0 ==> Triple(e.key.q, e.key.t, e.sum) in out
    {
      var e := acc[i];
      EntryFound(acc, e);
      if e.sum != 0 {
        if !FitsI32(e.sum) {
          assert !FitsI32(ProductCoef(a, b, e.key));
          return Failed(ReducedOutOfRange);
        }
        forall x | x in out ensures KeyLess(KeyOf(x), e.key) {
          assert Entry(KeyOf(x), x.coef) in acc[..i];
        }
        out := out + [Triple(e.key.q, e.key.t, e.sum)];
      }
      assert acc[..i + 1] == acc[..i] + [e];
    }
    assert acc[..|acc|] == acc;
    forall x | x in out ensures x.coef == ProductCoef(a, b, KeyOf(x)) != 0 {
      EntryFound(acc, Entry(KeyOf(x), x.coef));
    }
    forall key ensures FitsI32(ProductCoef(a, b, key))
      ensures ProductCoef(a, b, key) != 0 ==> exists x :: x in out && KeyOf(x) == key
    {
      if ProductCoef(a, b, key) != 0 {
        NonzeroHasEntry(acc, key);
        assert KeyOf(Triple(key.q, key.t, Lookup(acc, key))) == key;
      }
    }
    r := Terms(out);
  }
}
