/** Building the tables of a tail-gain job, and why they fit their slots. */
module TailJob {
  import opened Bits
  import opened MachineInts
  import opened TailConstraints

  // ---------- blocked singles ----------

  /** `c` completes a pair of positions that the double loop has passed. */
  ghost predicate CompletedBy(p: seq<u32>, i: nat, j: nat, c: int) {
    exists x, y :: 0 <= x < |p| && 0 <= y < |p| && (x < i || (x == i && y < j))
                   && Progression(p[x], p[y], c)
  }

  method BuildBlocked(p: seq<u32>, n2: u32) returns (blocked: nat)
    requires forall x :: x in p ==> 2 * x < U32
    ensures BlockedFor(blocked, p, n2)
  {
    blocked := 0;
    forall k: nat ensures !Bit(blocked, k) { ZeroBit(k); }
    for i := 0 to |p|
      invariant forall k: nat :: Bit(blocked, k) <==> TAIL + k <= n2 && CompletedBy(p, i, 0, TAIL + k)
    {
      for j := 0 to |p|
        invariant forall k: nat :: Bit(blocked, k) <==> TAIL + k <= n2 && CompletedBy(p, i, j, TAIL + k)
      {
        ghost var before := blocked;
        var a, b := p[i], p[j];
        if b > a {
          var c := 2 * b - a;
          if TAIL <= c <= n2 {
            blocked := Or(blocked, Pow2(c - TAIL));
          }
        }
        forall k: nat
          ensures Bit(blocked, k) <==> TAIL + k <= n2 && CompletedBy(p, i, j + 1, TAIL + k)
        {
          NextCompleted(p, i, j, TAIL + k);
          if b > a && TAIL <= 2 * b - a <= n2 {
            OrBit(before, Pow2(2 * b - a - TAIL), k);
            Pow2Bit(2 * b - a - TAIL, k);
          }
        }
      }
      forall c ensures CompletedBy(p, i, |p|, c) <==> CompletedBy(p, i + 1, 0, c) {
        RowCompleted(p, i, c);
      }
    }
    forall c ensures CompletedBy(p, |p|, 0, c) <==> Completes(p, c) {
      AllCompleted(p, c);
    }
  }

  lemma {:induction false} NextCompleted(p: seq<u32>, i: nat, j: nat, c: int)
    requires i < |p| && j < |p|
    ensures CompletedBy(p, i, j + 1, c) <==> CompletedBy(p, i, j, c) || Progression(p[i], p[j], c)
  {
    if CompletedBy(p, i, j, c) {
      var x, y :| 0 <= x < |p| && 0 <= y < |p| && (x < i || (x == i && y < j)) && Progression(p[x], p[y], c);
    }
  }

  lemma {:induction false} RowCompleted(p: seq<u32>, i: nat, c: int)
    ensures CompletedBy(p, i, |p|, c) <==> CompletedBy(p, i + 1, 0, c)
  {
  }

  lemma {:induction false} AllCompleted(p: seq<u32>, c: int)
    ensures CompletedBy(p, |p|, 0, c) <==> Completes(p, c)
  {
    if Completes(p, c) {
      var a, b :| a in p && b in p && Progression(a, b, c);
      var x :| 0 <= x < |p| && p[x] == a;
      var y :| 0 <= y < |p| && p[y] == b;
    }
  }

  // ---------- reflection pairs ----------

  ghost predicate Increasing(s: seq<nat>) {
    forall i, j :: 0 <= i < j < |s| ==> s[i] < s[j]
  }

  lemma {:induction false} TailAbove(s: seq<nat>)
    requires Increasing(s) && s != []
    ensures Increasing(s[1..]) && forall x :: x in s[1..] ==> s[0] < x
  {
    forall x | x in s[1..] ensures s[0] < x {
      var k :| 0 <= k < |s[1..]| && s[1..][k] == x;
      assert s[k + 1] == x;
    }
  }

  lemma {:induction false} ConsIncreasing(x: nat, s: seq<nat>)
    requires Increasing(s) && forall y :: y in s ==> x < y
    ensures Increasing([x] + s)
  {
    var r := [x] + s;
    forall i, j | 0 <= i < j < |r| ensures r[i] < r[j] {
      assert r[j] == s[j - 1] && s[j - 1] in s;
      if i > 0 { assert r[i] == s[i - 1]; }
    }
  }

  /** Insertion into an ordered set. */
  function InsertMask(s: seq<nat>, m: nat): (r: seq<nat>)
    requires Increasing(s)
    ensures Increasing(r)
    ensures forall x :: x in r <==> x in s || x == m
  {
    if s == [] then [m]
    else if m == s[0] then s
    else if m < s[0] then [m] + s
    else
      var rest := InsertMask(s[1..], m);
      TailAbove(s);
      ConsIncreasing(s[0], rest);
      [s[0]] + rest
  }

  ghost predicate RowInserted(pairs: seq<nat>, q: u32, n2: u32, upTo: nat) {
    forall b: nat, c: nat :: TAIL <= b < upTo && b < c <= n2 && 2 * b - c == q ==> PairMask(b, c) in pairs
  }

  method AddReflections(before: seq<nat>, q: u32, n2: u32, ghost p: seq<u32>) returns (pairs: seq<nat>)
    requires ValidPrefix(p) && q in p
    requires Increasing(before) && OnlyPairs(before, p, n2)
    ensures Increasing(pairs) && OnlyPairs(pairs, p, n2)
    ensures forall m :: m in before ==> m in pairs
    ensures RowInserted(pairs, q, n2, n2 + 1)
  {
    pairs := before;
    var b := TAIL;
    while b <= n2
      invariant b >= TAIL
      invariant Increasing(pairs) && OnlyPairs(pairs, p, n2)
      invariant forall m :: m in before ==> m in pairs
      invariant RowInserted(pairs, q, n2, b)
    {
      var c := 2 * b - q;
      if TAIL <= c <= n2 {
        assert ReflectionPair(p, n2, b, c);
        pairs := InsertMask(pairs, PairMask(b, c));
      }
      b := b + 1;
    }
  }

  ghost predicate RowsInserted(pairs: seq<nat>, p: seq<u32>, n2: u32, i: nat) {
    i <= |p| && forall x :: 0 <= x < i ==> RowInserted(pairs, p[x], n2, n2 + 1)
  }

  lemma {:induction false} RowsKept(before: seq<nat>, pairs: seq<nat>, p: seq<u32>, n2: u32, i: nat)
    requires RowsInserted(before, p, n2, i) && forall m :: m in before ==> m in pairs
    ensures RowsInserted(pairs, p, n2, i)
  {
    forall x | 0 <= x < i ensures RowInserted(pairs, p[x], n2, n2 + 1) {
      assert RowInserted(before, p[x], n2, n2 + 1);
    }
  }

  lemma {:induction false} RowsAreAllPairs(pairs: seq<nat>, p: seq<u32>, n2: u32)
    requires RowsInserted(pairs, p, n2, |p|)
    ensures AllPairs(pairs, p, n2)
  {
    forall b, c | ReflectionPair(p, n2, b, c) ensures PairMask(b, c) in pairs {
      var x :| 0 <= x < |p| && p[x] == 2 * b - c;
      assert RowInserted(pairs, p[x], n2, n2 + 1);
    }
  }

  method BuildPairs(p: seq<u32>, n2: u32) returns (pairs: seq<nat>)
    requires ValidPrefix(p)
    ensures PairsFor(pairs, p, n2)
    ensures Increasing(pairs)
  {
    pairs := [];
    for i := 0 to |p|
      invariant Increasing(pairs) && OnlyPairs(pairs, p, n2)
      invariant RowsInserted(pairs, p, n2, i)
    {
      ghost var before := pairs;
      pairs := AddReflections(pairs, p[i], n2, p);
      RowsKept(before, pairs, p, n2, i);
    }
    RowsAreAllPairs(pairs, p, n2);
  }

  /** All pairs with first offset `x` in a domain of size `d`. */
  function PairRow(d: nat, x: nat): (r: seq<nat>)
    requires 1 <= x && 2 * x <= d
    ensures |r| == d - 2 * x + 1
  {
    seq<nat>(d - 2 * x + 1, k requires 0 <= k => PairMask(TAIL - 1 + x, TAIL - 1 + 2 * x + k))
  }

  function PairRows(d: nat, x: nat): (r: seq<nat>)
    requires 2 * x <= d
    ensures |r| == x * (d - x)
  {
    if x == 0 then [] else PairRows(d, x - 1) + PairRow(d, x)
  }

  lemma {:induction false} InPairRows(d: nat, x: nat, y: nat, rows: nat)
    requires 1 <= x <= rows && 2 * rows <= d && 2 * x <= y <= d
    ensures PairMask(TAIL - 1 + x, TAIL - 1 + y) in PairRows(d, rows)
  {
    if x == rows {
      assert PairRow(d, x)[y - 2 * x] == PairMask(TAIL - 1 + x, TAIL - 1 + y);
    } else {
      InPairRows(d, x, y, rows - 1);
    }
  }

  lemma {:induction false} DistinctWithin(u: seq<nat>, v: seq<nat>)
    requires Increasing(u) && forall m :: m in u ==> m in v
    ensures |u| <= |v|
  {
    if u != [] {
      assert u[0] in u;
      var i :| 0 <= i < |v| && v[i] == u[0];
      var rest := v[..i] + v[i + 1..];
      forall m | m in u[1..] ensures m in rest {
        assert m in v && m != v[i];
      }
      DistinctWithin(u[1..], rest);
    }
  }

  /** At most d^2/4 pairs, so they fit 256 slots up to d = 24. */
  lemma {:induction false} PairsFit(pairs: seq<nat>, p: seq<u32>, n2: u32)
    requires ValidPrefix(p) && PairsFor(pairs, p, n2) && Increasing(pairs)
    ensures var d := DomainSize(n2); |pairs| <= (d / 2) * (d - d / 2)
    ensures DomainSize(n2) <= MAX_DOMAIN ==> |pairs| <= 144 <= PAIR_SLOTS
  {
    var d := DomainSize(n2);
    forall m | m in pairs ensures m in PairRows(d, d / 2) {
      var b, c :| ReflectionPair(p, n2, b, c) && m == PairMask(b, c);
      assert 1 <= 2 * b - c < TAIL;
      InPairRows(d, b - TAIL + 1, c - TAIL + 1, d / 2);
    }
    DistinctWithin(pairs, PairRows(d, d / 2));
    if d <= MAX_DOMAIN { QuarterSquare(d / 2, d - d / 2); }
  }

  lemma {:induction false} QuarterSquare(x: nat, y: nat)
    requires x <= 12 && y <= 12
    ensures x * y <= 144
  {
    assert x * y <= 12 * y;
  }

  // ---------- inner triples ----------

  /** The number of triples with middle offsets 1..y in a span `e`. */
  function TripleCount(e: nat, y: nat): nat
    requires y <= e
  {
    if y == 0 then 0 else TripleCount(e, y - 1) + if y <= e - y then y else e - y
  }

  /** Widening the span by two adds one to every row and a new first row. */
  lemma {:induction false} WiderSpan(e: nat, y: nat)
    requires y <= e
    ensures TripleCount(e + 2, y + 1) == TripleCount(e, y) + y + 1
  {
    if y > 0 { WiderSpan(e, y - 1); } else { assert TripleCount(e + 2, 0) == 0; }
  }

  lemma {:induction false} TripleTotal(e: nat)
    ensures e >= 1 ==> TripleCount(e, e - 1) == e * e / 4
    ensures TripleCount(e, e) == e * e / 4
  {
    if e >= 2 {
      TripleTotal(e - 2);
      WiderSpan(e - 2, e - 2);
      assert e * e == (e - 2) * (e - 2) + 4 * (e - 1);
    } else if e == 1 {
      assert TripleCount(1, 0) == 0;
    }
  }

  ghost predicate OnlyTriples(triples: seq<nat>, n2: u32) {
    forall m :: m in triples ==>
      exists a, b, c :: InnerTriple(n2, a, b, c) && m == TripleMask(a, b, c)
  }

  /** All triples whose middle is below `middle`. */
  ghost predicate TriplesBelow(triples: seq<nat>, n2: u32, middle: nat) {
    forall a, b, c :: InnerTriple(n2, a, b, c) && b < middle ==> TripleMask(a, b, c) in triples
  }

  method TripleRow(n2: u32, b: nat) returns (row: seq<nat>)
    requires TAIL < b < n2
    ensures OnlyTriples(row, n2)
    ensures forall a, c :: InnerTriple(n2, a, b, c) ==> TripleMask(a, b, c) in row
    ensures |row| == if b - TAIL <= n2 - b then b - TAIL else n2 - b
  {
    row := [];
    for a := TAIL to b
      invariant OnlyTriples(row, n2)
      invariant forall a', c :: InnerTriple(n2, a', b, c) && a' < a ==> TripleMask(a', b, c) in row
      invariant |row| == if 2 * b - a < n2 then (if n2 - b <= b - TAIL then a - (2 * b - n2) else a - TAIL) else 0
    {
      var c := 2 * b - a;
      if c <= n2 {
        assert InnerTriple(n2, a, b, c);
        row := row + [TripleMask(a, b, c)];
      }
    }
  }

  method BuildTriples(n2: u32) returns (triples: seq<nat>)
    ensures TriplesFor(triples, n2)
    ensures var d := DomainSize(n2); d > 0 ==> |triples| == (d - 1) * (d - 1) / 4
    ensures DomainSize(n2) <= MAX_DOMAIN ==> |triples| <= 132 <= TRIPLE_SLOTS
  {
    triples := [];
    var b := TAIL + 1;
    var last := if n2 >= 1 then n2 - 1 else 0;
    while b <= last
      invariant TAIL + 1 <= b && (b <= last + 1 || b == TAIL + 1)
      invariant OnlyTriples(triples, n2) && TriplesBelow(triples, n2, b)
      invariant TAIL < n2 ==> |triples| == TripleCount(n2 - TAIL, b - TAIL - 1)
      invariant n2 <= TAIL ==> triples == []
      decreases last + 1 - b
    {
      var row := TripleRow(n2, b);
      triples := triples + row;
      b := b + 1;
    }
    if TAIL < n2 {
      TripleTotal(n2 - TAIL);
      if DomainSize(n2) <= MAX_DOMAIN { SmallSquare(n2 - TAIL); }
    }
  }

  lemma {:induction false} SmallSquare(e: nat)
    requires e <= 23
    ensures e * e / 4 <= 132
  {
    assert e * e <= 23 * e;
  }
}
