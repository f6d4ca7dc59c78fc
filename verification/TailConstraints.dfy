/** The tail-gain job: the bit-mask tables that stand for "no three-term arithmetic progression", and
    why testing a mask against them is exact. */
module TailConstraints {
  import opened Bits
  import opened MachineInts

  /** The tail starts after the prefix range 1..64; bit `i` of a mask stands for `TAIL + i`. */
  const TAIL := 65
  const MAX_DOMAIN := 24
  const PAIR_SLOTS := 256
  const TRIPLE_SLOTS := 512

  ghost predicate ValidPrefix(p: seq<u32>) {
    forall x :: x in p ==> 1 <= x < TAIL
  }

  function DomainSize(n2: u32): nat {
    if n2 >= TAIL then n2 - TAIL + 1 else 0
  }

  // ---------- progressions ----------

  predicate Progression(a: int, b: int, c: int) {
    a < b && a + c == 2 * b
  }

  ghost predicate ProgressionFree(s: iset<int>) {
    forall a, b, c :: a in s && b in s && c in s ==> !Progression(a, b, c)
  }

  predicate InTail(mask: nat, x: int) {
    x >= TAIL && Bit(mask, x - TAIL)
  }

  /** The prefix together with the tail elements of a mask. */
  ghost function Chosen(p: seq<u32>, mask: nat): iset<int> {
    iset x: int | x in p || InTail(mask, x)
  }

  ghost function PrefixSet(p: seq<u32>): iset<int> {
    iset x: int | x in p
  }

  /** Some progression of the chosen elements uses the tail. */
  ghost predicate TailProgression(p: seq<u32>, mask: nat) {
    exists a, b, c :: a in Chosen(p, mask) && b in Chosen(p, mask) && InTail(mask, c) && Progression(a, b, c)
  }

  // ---------- tables ----------

  /** `c` completes two prefix elements. */
  ghost predicate Completes(p: seq<u32>, c: int) {
    exists a, b :: a in p && b in p && Progression(a, b, c)
  }

  ghost predicate BlockedFor(blocked: nat, p: seq<u32>, n2: u32) {
    forall i: nat :: Bit(blocked, i) <==> TAIL + i <= n2 && Completes(p, TAIL + i)
  }

  function PairMask(b: nat, c: nat): nat
    requires TAIL <= b && TAIL <= c
  {
    Or(Pow2(b - TAIL), Pow2(c - TAIL))
  }

  ghost predicate ReflectionPair(p: seq<u32>, n2: u32, b: int, c: int) {
    && TAIL <= b < c <= n2
    && 2 * b - c in p
  }

  ghost predicate OnlyPairs(pairs: seq<nat>, p: seq<u32>, n2: u32) {
    forall m :: m in pairs ==> exists b, c :: ReflectionPair(p, n2, b, c) && m == PairMask(b, c)
  }

  ghost predicate AllPairs(pairs: seq<nat>, p: seq<u32>, n2: u32) {
    forall b, c :: ReflectionPair(p, n2, b, c) ==> PairMask(b, c) in pairs
  }

  ghost predicate PairsFor(pairs: seq<nat>, p: seq<u32>, n2: u32) {
    OnlyPairs(pairs, p, n2) && AllPairs(pairs, p, n2)
  }

  function TripleMask(a: nat, b: nat, c: nat): nat
    requires TAIL <= a && TAIL <= b && TAIL <= c
  {
    Or(Or(Pow2(a - TAIL), Pow2(b - TAIL)), Pow2(c - TAIL))
  }

  ghost predicate InnerTriple(n2: u32, a: int, b: int, c: int) {
    TAIL <= a && c <= n2 && Progression(a, b, c)
  }

  ghost predicate TriplesFor(triples: seq<nat>, n2: u32) {
    && (forall m :: m in triples ==>
          exists a, b, c :: InnerTriple(n2, a, b, c) && m == TripleMask(a, b, c))
    && (forall a, b, c :: InnerTriple(n2, a, b, c) ==> TripleMask(a, b, c) in triples)
  }

  datatype Job = Job(d: nat, blocked: nat, pairs: seq<nat>, triples: seq<nat>)

  ghost predicate JobFor(job: Job, p: seq<u32>, n2: u32) {
    && job.d == DomainSize(n2)
    && BlockedFor(job.blocked, p, n2)
    && PairsFor(job.pairs, p, n2)
    && TriplesFor(job.triples, n2)
  }

  // ---------- the kernel's mask test ----------

  ghost predicate Covers(masks: seq<nat>, mask: nat) {
    exists m :: m in masks && And(mask, m) == m
  }

  ghost predicate Passes(mask: nat, job: Job) {
    && And(mask, job.blocked) == 0
    && !Covers(job.pairs, mask)
    && !Covers(job.triples, mask)
  }

  method CoversAny(masks: seq<nat>, mask: nat) returns (r: bool)
    ensures r <==> Covers(masks, mask)
  {
    for i := 0 to |masks|
      invariant !Covers(masks[..i], mask)
    {
      if And(mask, masks[i]) == masks[i] { return true; }
      assert masks[..i + 1] == masks[..i] + [masks[i]];
    }
    assert masks[..|masks|] == masks;
    r := false;
  }

  method MaskTest(mask: nat, job: Job) returns (valid: bool)
    ensures valid <==> Passes(mask, job)
  {
    if And(mask, job.blocked) != 0 { return false; }
    var r := CoversAny(job.pairs, mask);
    if r { return false; }
    r := CoversAny(job.triples, mask);
    valid := !r;
  }

  // ---------- reading the tests as bits ----------

  ghost predicate BitsWithin(m: nat, mask: nat) {
    forall i: nat :: Bit(m, i) ==> Bit(mask, i)
  }

  /** `mask & m == m` means that every bit of `m` is in `mask`. */
  lemma {:induction false} AndIsWhole(mask: nat, m: nat)
    ensures And(mask, m) == m <==> BitsWithin(m, mask)
  {
    if And(mask, m) == m {
      forall i: nat | Bit(m, i) ensures Bit(mask, i) { AndBit(mask, m, i); }
      assert BitsWithin(m, mask);
    }
    if BitsWithin(m, mask) {
      forall i: nat ensures Bit(And(mask, m), i) <==> Bit(m, i) { AndBit(mask, m, i); }
      SameBits(And(mask, m), m);
    }
  }

  ghost predicate ShareBit(mask: nat, m: nat) {
    exists i: nat :: Bit(m, i) && Bit(mask, i)
  }

  /** `mask & m == 0` means that they share no bit. */
  lemma {:induction false} AndIsZero(mask: nat, m: nat)
    ensures And(mask, m) == 0 <==> !ShareBit(mask, m)
  {
    if ShareBit(mask, m) {
      var i: nat :| Bit(m, i) && Bit(mask, i);
      AndBit(mask, m, i);
      ZeroBit(i);
    } else if And(mask, m) > 0 {
      var i := HasBit(And(mask, m));
      AndBit(mask, m, i);
    }
  }

  lemma {:induction false} PairBits(b: nat, c: nat)
    requires TAIL <= b && TAIL <= c
    ensures forall i: nat :: Bit(PairMask(b, c), i) <==> i == b - TAIL || i == c - TAIL
  {
    forall i: nat ensures Bit(PairMask(b, c), i) <==> i == b - TAIL || i == c - TAIL {
      OrBit(Pow2(b - TAIL), Pow2(c - TAIL), i);
      Pow2Bit(b - TAIL, i);
      Pow2Bit(c - TAIL, i);
    }
  }

  lemma {:induction false} PairCovered(mask: nat, b: nat, c: nat)
    requires TAIL <= b && TAIL <= c
    ensures And(mask, PairMask(b, c)) == PairMask(b, c) <==> InTail(mask, b) && InTail(mask, c)
  {
    var m := PairMask(b, c);
    PairBits(b, c);
    assert Bit(m, b - TAIL) && Bit(m, c - TAIL);
    AndIsWhole(mask, m);
    assert BitsWithin(m, mask) <==> InTail(mask, b) && InTail(mask, c);
  }

  lemma {:induction false} TripleBits(a: nat, b: nat, c: nat)
    requires TAIL <= a && TAIL <= b && TAIL <= c
    ensures forall i: nat ::
      Bit(TripleMask(a, b, c), i) <==> i == a - TAIL || i == b - TAIL || i == c - TAIL
  {
    forall i: nat
      ensures Bit(TripleMask(a, b, c), i) <==> i == a - TAIL || i == b - TAIL || i == c - TAIL
    {
      OrBit(Or(Pow2(a - TAIL), Pow2(b - TAIL)), Pow2(c - TAIL), i);
      OrBit(Pow2(a - TAIL), Pow2(b - TAIL), i);
      Pow2Bit(a - TAIL, i);
      Pow2Bit(b - TAIL, i);
      Pow2Bit(c - TAIL, i);
    }
  }

  lemma {:induction false} TripleCovered(mask: nat, a: nat, b: nat, c: nat)
    requires TAIL <= a && TAIL <= b && TAIL <= c
    ensures And(mask, TripleMask(a, b, c)) == TripleMask(a, b, c)
       <==> InTail(mask, a) && InTail(mask, b) && InTail(mask, c)
  {
    var m := TripleMask(a, b, c);
    TripleBits(a, b, c);
    assert Bit(m, a - TAIL) && Bit(m, b - TAIL) && Bit(m, c - TAIL);
    AndIsWhole(mask, m);
    assert BitsWithin(m, mask) <==> InTail(mask, a) && InTail(mask, b) && InTail(mask, c);
  }

  lemma {:induction false} TailBelow(mask: nat, n2: u32, x: int)
    requires mask < Pow2(DomainSize(n2)) && InTail(mask, x)
    ensures x <= n2
  {
    if x > n2 { HighBitsClear(mask, DomainSize(n2), x - TAIL); }
  }

  // ---------- exactness ----------

  lemma {:induction false} FailureHasProgression(mask: nat, job: Job, p: seq<u32>, n2: u32)
    requires JobFor(job, p, n2) && !Passes(mask, job)
    ensures TailProgression(p, mask)
  {
    if And(mask, job.blocked) != 0 {
      AndIsZero(mask, job.blocked);
      var i: nat :| Bit(job.blocked, i) && Bit(mask, i);
      var a, b :| a in p && b in p && Progression(a, b, TAIL + i);
      assert a in Chosen(p, mask) && b in Chosen(p, mask) && InTail(mask, TAIL + i);
    } else if Covers(job.pairs, mask) {
      var m :| m in job.pairs && And(mask, m) == m;
      var b, c :| ReflectionPair(p, n2, b, c) && m == PairMask(b, c);
      PairCovered(mask, b, c);
      assert 2 * b - c in Chosen(p, mask) && b in Chosen(p, mask) && Progression(2 * b - c, b, c);
    } else {
      var m :| m in job.triples && And(mask, m) == m;
      var a, b, c :| InnerTriple(n2, a, b, c) && m == TripleMask(a, b, c);
      TripleCovered(mask, a, b, c);
      assert a in Chosen(p, mask) && b in Chosen(p, mask);
    }
  }

  lemma {:induction false} ProgressionFails(mask: nat, job: Job, p: seq<u32>, n2: u32, a: int, b: int, c: int)
    requires JobFor(job, p, n2) && ValidPrefix(p) && mask < Pow2(DomainSize(n2))
    requires a in Chosen(p, mask) && b in Chosen(p, mask) && InTail(mask, c) && Progression(a, b, c)
    ensures !Passes(mask, job)
  {
    TailBelow(mask, n2, c);
    if b in p {
      assert a in p;
      assert Completes(p, TAIL + (c - TAIL));
      assert Bit(job.blocked, c - TAIL) && Bit(mask, c - TAIL);
      AndIsZero(mask, job.blocked);
    } else if a in p {
      assert ReflectionPair(p, n2, b, c);
      PairCovered(mask, b, c);
    } else {
      assert InnerTriple(n2, a, b, c);
      TripleCovered(mask, a, b, c);
    }
  }

  /** The tables compile the constraint exactly: a mask passes when no progression uses its tail. */
  lemma {:induction false} MaskTestExact(mask: nat, job: Job, p: seq<u32>, n2: u32)
    requires JobFor(job, p, n2) && ValidPrefix(p) && mask < Pow2(DomainSize(n2))
    ensures Passes(mask, job) <==> !TailProgression(p, mask)
  {
    if TailProgression(p, mask) {
      var a, b, c :| a in Chosen(p, mask) && b in Chosen(p, mask) && InTail(mask, c) && Progression(a, b, c);
      ProgressionFails(mask, job, p, n2, a, b, c);
    }
    if !Passes(mask, job) {
      FailureHasProgression(mask, job, p, n2);
    }
  }

  /** For a progression-free prefix, a mask passes exactly when the union is progression-free. */
  lemma {:induction false} MaskTestFree(mask: nat, job: Job, p: seq<u32>, n2: u32)
    requires JobFor(job, p, n2) && ValidPrefix(p) && mask < Pow2(DomainSize(n2))
    requires ProgressionFree(PrefixSet(p))
    ensures Passes(mask, job) <==> ProgressionFree(Chosen(p, mask))
  {
    MaskTestExact(mask, job, p, n2);
    if !TailProgression(p, mask) {
      forall a, b, c | a in Chosen(p, mask) && b in Chosen(p, mask) && c in Chosen(p, mask)
        ensures !Progression(a, b, c)
      {
        assert c in p && Progression(a, b, c) ==>
          a in PrefixSet(p) && b in PrefixSet(p) && c in PrefixSet(p);
      }
    }
  }
}
