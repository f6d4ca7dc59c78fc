/** The sorting network of the Laurent kernel (`sort_pass`), for any power-of-two width.

    `Stage`, `Phase` and `Network` describe the k/j double loop on a sequence of cells; the method
    `SortPass` runs it on the three workgroup arrays with the lanes of every barrier-separated stage
    in an arbitrary order. Sortedness is proved by cutting the keys at every threshold, which turns
    a block into a sequence of Booleans. */
module BitonicNetwork {
  import opened Bits
  import opened MachineInts

  datatype Key = Key(q: u32, t: u32)

  /** One slot of the workgroup arrays `wq`, `wt` and `wcoef`. */
  datatype Cell = Cell(key: Key, coef: i32)

  predicate KeyLess(l: Key, r: Key) {
    l.q < r.q || (l.q == r.q && l.t < r.t)
  }

  /** Whether the lane holding `l` exchanges it with the `o` of its partner. */
  predicate Swaps(l: Cell, o: Cell, ascending: bool) {
    || (ascending && KeyLess(o.key, l.key))
    || (!ascending && KeyLess(l.key, o.key))
  }

  ghost predicate Sorted(s: seq<Cell>, up: bool) {
    forall i, j :: 0 <= i < j < |s| ==>
      if up then !KeyLess(s[j].key, s[i].key) else !KeyLess(s[i].key, s[j].key)
  }

  // ---------- the network as a function ----------

  /** Partners stay inside an array of width `2^m`. */
  lemma {:induction false} PartnerInside(i: nat, m: nat, b: nat)
    requires b < m && i < Pow2(m)
    ensures Xor(i, Pow2(b)) < Pow2(m)
    ensures Xor(Xor(i, Pow2(b)), Pow2(b)) == i
    ensures Xor(i, Pow2(b)) > i <==> !Bit(i, b)
  {
    XorPow2(i, b);
    FlippedBit(i, b, b);
    XorPow2(Xor(i, Pow2(b)), b);
    var p := Xor(i, Pow2(b));
    if p >= Pow2(m) {
      assert p < 2 * Pow2(m) by { Pow2Mono(b, m); }
      TopBit(p - Pow2(m), m);
      FlippedBit(i, b, m);
      HighBitsClear(i, m, m);
      assert false;
    }
  }

  /** The direction of a lane with stride `k = 2^a`: `(lane & k) == 0`, turned round when `!up`. */
  predicate Ascending(lane: nat, a: nat, up: bool) {
    (And(lane, Pow2(a)) == 0) == up
  }

  /** What slot `i` holds after the stage with `k = 2^a` and `j = 2^b`. */
  function After(s: seq<Cell>, m: nat, a: nat, b: nat, up: bool, i: nat): Cell
    requires |s| == Pow2(m) && b < m && i < |s|
  {
    PartnerInside(i, m, b);
    var p := Xor(i, Pow2(b));
    if p > i then (if Swaps(s[i], s[p], Ascending(i, a, up)) then s[p] else s[i])
    else (if Swaps(s[p], s[i], Ascending(p, a, up)) then s[p] else s[i])
  }

  /** One barrier-separated stage: all lanes with stride `k = 2^a` and partner distance `j = 2^b`. */
  function Stage(s: seq<Cell>, m: nat, a: nat, b: nat, up: bool): (r: seq<Cell>)
    requires |s| == Pow2(m) && b < m
    ensures |r| == |s|
  {
    seq(|s|, i requires 0 <= i < |s| => After(s, m, a, b, up, i))
  }

  /** The inner loop: stages with `j = 2^(b-1), ..., 2, 1`. */
  function Phase(s: seq<Cell>, m: nat, a: nat, b: nat, up: bool): (r: seq<Cell>)
    requires |s| == Pow2(m) && b <= m
    ensures |r| == |s|
    decreases b
  {
    if b == 0 then s else Phase(Stage(s, m, a, b - 1, up), m, a, b - 1, up)
  }

  /** The outer loop: phases with `k = 2, 4, ..., 2^a`. Only the last phase can be turned round. */
  function Phases(s: seq<Cell>, m: nat, a: nat, up: bool): (r: seq<Cell>)
    requires |s| == Pow2(m) && a <= m
    ensures |r| == |s|
    decreases a
  {
    if a == 0 then s else Phase(Phases(s, m, a - 1, true), m, a, a, up)
  }

  function Network(s: seq<Cell>, m: nat): (r: seq<Cell>)
    requires |s| == Pow2(m)
    ensures |r| == |s|
  {
    Phases(s, m, m, true)
  }

  // ---------- the network on two halves ----------

  lemma {:induction false} PartnerOnHalves(i: nat, m: nat, b: nat)
    requires b < m && i < Pow2(m)
    ensures Xor(i + Pow2(m), Pow2(b)) == Xor(i, Pow2(b)) + Pow2(m)
  {
    ShiftedBit(i, m, b);
    XorPow2(i, b);
    XorPow2(i + Pow2(m), b);
  }

  lemma {:induction false} LowerCell(x: seq<Cell>, y: seq<Cell>, m: nat, a: nat, b: nat, up: bool, i: nat)
    requires |x| == |y| == Pow2(m) && b < m && i < Pow2(m)
    ensures After(x + y, m + 1, a, b, up, i) == After(x, m, a, b, up, i)
  {
    PartnerInside(i, m, b);
  }

  lemma {:induction false} UpperCell(x: seq<Cell>, y: seq<Cell>, m: nat, a: nat, b: nat, up: bool, i: nat)
    requires |x| == |y| == Pow2(m) && b < m && i < Pow2(m)
    ensures After(x + y, m + 1, a, b, up, i + Pow2(m))
         == After(y, m, a, b, if a == m then !up else up, i)
  {
    PartnerInside(i, m, b);
    PartnerOnHalves(i, m, b);
    var p := Xor(i, Pow2(b));
    DirectionOnHalves(i, m, a, up);
    DirectionOnHalves(p, m, a, up);
  }

  /** Below full distance, a stage works on the two halves separately; with `k` equal to the half
      width the upper half runs in the other direction. */
  lemma {:induction false} StageOnHalves(x: seq<Cell>, y: seq<Cell>, m: nat, a: nat, b: nat, up: bool)
    requires |x| == |y| == Pow2(m) && b < m
    ensures Stage(x + y, m + 1, a, b, up)
         == Stage(x, m, a, b, up) + Stage(y, m, a, b, if a == m then !up else up)
  {
    var h := Pow2(m);
    var l := Stage(x + y, m + 1, a, b, up);
    var r := Stage(x, m, a, b, up) + Stage(y, m, a, b, if a == m then !up else up);
    forall i | 0 <= i < |l| ensures l[i] == r[i] {
      if i < h {
        LowerCell(x, y, m, a, b, up, i);
      } else {
        UpperCell(x, y, m, a, b, up, i - h);
      }
    }
  }

  lemma {:induction false} DirectionOnHalves(i: nat, m: nat, a: nat, up: bool)
    requires i < Pow2(m)
    ensures Ascending(i + Pow2(m), a, up) == Ascending(i, a, if a == m then !up else up)
  {
    AndPow2(i, a);
    AndPow2(i + Pow2(m), a);
    if a < m {
      ShiftedBit(i, m, a);
    } else if a == m {
      TopBit(i, m);
      HighBitsClear(i, m, a);
    } else {
      HighBitsClear(i, m, a);
      HighBitsClear(i + Pow2(m), m + 1, a);
    }
  }

  lemma {:induction false} PhaseOnHalves(x: seq<Cell>, y: seq<Cell>, m: nat, a: nat, b: nat, up: bool)
    requires |x| == |y| == Pow2(m) && b <= m
    ensures Phase(x + y, m + 1, a, b, up)
         == Phase(x, m, a, b, up) + Phase(y, m, a, b, if a == m then !up else up)
    decreases b
  {
    if b > 0 {
      StageOnHalves(x, y, m, a, b - 1, up);
      PhaseOnHalves(Stage(x, m, a, b - 1, up),
                    Stage(y, m, a, b - 1, if a == m then !up else up), m, a, b - 1, up);
    }
  }

  lemma {:induction false} PhasesOnHalves(x: seq<Cell>, y: seq<Cell>, m: nat, a: nat, up: bool)
    requires |x| == |y| == Pow2(m) && a <= m
    ensures Phases(x + y, m + 1, a, up)
         == Phases(x, m, a, up) + Phases(y, m, a, if a == m then !up else up)
    decreases a
  {
    if a > 0 {
      PhasesOnHalves(x, y, m, a - 1, true);
      PhaseOnHalves(Phases(x, m, a - 1, true), Phases(y, m, a - 1, true), m, a, a, up);
    }
  }

  // ---------- thresholds ----------

  /** Which cells have a key above the threshold `th`. */
  function Above(s: seq<Cell>, th: Key): (v: seq<bool>)
    ensures |v| == |s|
    ensures forall i :: 0 <= i < |s| ==> v[i] == KeyLess(th, s[i].key)
  {
    seq(|s|, i requires 0 <= i < |s| => KeyLess(th, s[i].key))
  }

  /** `inside` exactly on the positions from `lo` to `hi`. */
  ghost predicate Block(v: seq<bool>, lo: nat, hi: nat, inside: bool) {
    lo <= hi <= |v| && forall i :: 0 <= i < |v| ==> (v[i] == inside <==> lo <= i < hi)
  }

  ghost predicate BitonicBits(v: seq<bool>) {
    exists lo: nat, hi: nat, inside :: Block(v, lo, hi, inside)
  }

  /** Cut at any threshold, the sequence is one block of one value inside the other. */
  ghost predicate Bitonic(s: seq<Cell>) {
    forall th :: BitonicBits(Above(s, th))
  }

  function Both(v: seq<bool>, h: nat): (r: seq<bool>)
    requires |v| == 2 * h
    ensures |r| == h && forall i :: 0 <= i < h ==> r[i] == (v[i] && v[i + h])
  {
    seq(h, i requires 0 <= i < h => v[i] && v[i + h])
  }

  function Either(v: seq<bool>, h: nat): (r: seq<bool>)
    requires |v| == 2 * h
    ensures |r| == h && forall i :: 0 <= i < h ==> r[i] == (v[i] || v[i + h])
  {
    seq(h, i requires 0 <= i < h => v[i] || v[i + h])
  }

  /** Comparing a bitonic bit sequence with itself half a turn away leaves two bitonic halves, of
      which the lower is all false or the upper all true. */
  lemma {:induction false} HalfClean(v: seq<bool>, h: nat)
    requires |v| == 2 * h && BitonicBits(v)
    ensures BitonicBits(Both(v, h)) && BitonicBits(Either(v, h))
    ensures (forall i :: 0 <= i < h ==> !Both(v, h)[i]) || (forall i :: 0 <= i < h ==> Either(v, h)[i])
  {
    var lo: nat, hi: nat, inside :| Block(v, lo, hi, inside);
    var both, either := Both(v, h), Either(v, h);
    if hi <= h || lo >= h {
      var d := if hi <= h then 0 else h;
      if inside {
        assert Block(either, lo - d, hi - d, true);
        assert Block(both, 0, 0, true);
      } else {
        assert Block(both, lo - d, hi - d, false);
        assert Block(either, 0, 0, false);
      }
    } else if hi - h <= lo {
      if inside {
        assert Block(either, hi - h, lo, false);
        assert Block(both, 0, 0, true);
      } else {
        assert Block(both, hi - h, lo, true);
        assert Block(either, 0, 0, false);
      }
    } else {
      if inside {
        assert Block(both, lo, hi - h, true);
        assert Block(either, 0, 0, false);
      } else {
        assert Block(either, lo, hi - h, false);
        assert Block(both, 0, 0, true);
      }
    }
  }

  /** The full-distance stage of a merge on a bitonic block. */
  lemma {:induction false} FullDistanceCell(s: seq<Cell>, m: nat, a: nat, up: bool, i: nat)
    requires |s| == Pow2(m + 1) && a > m && i < Pow2(m)
    ensures var h := Pow2(m); var r := Stage(s, m + 1, a, m, up);
            if Swaps(s[i], s[i + h], up) then r[i] == s[i + h] && r[i + h] == s[i]
            else r[i] == s[i] && r[i + h] == s[i + h]
  {
    var h := Pow2(m);
    HighBitsClear(i, m, m);
    XorPow2(i, m);
    TopBit(i, m);
    XorPow2(i + h, m);
    AndPow2(i, a);
    HighBitsClear(i, m, a);
  }

  lemma {:induction false} FullDistanceBits(s: seq<Cell>, m: nat, a: nat, up: bool, th: Key)
    requires |s| == Pow2(m + 1) && a > m
    ensures var h := Pow2(m); var r := Stage(s, m + 1, a, m, up); var v := Above(s, th);
            && Above(r[..h], th) == (if up then Both(v, h) else Either(v, h))
            && Above(r[h..], th) == (if up then Either(v, h) else Both(v, h))
  {
    var h := Pow2(m);
    var r := Stage(s, m + 1, a, m, up);
    var v := Above(s, th);
    forall i | 0 <= i < h
      ensures Above(r[..h], th)[i] == (if up then Both(v, h) else Either(v, h))[i]
      ensures Above(r[h..], th)[i] == (if up then Either(v, h) else Both(v, h))[i]
    {
      FullDistanceCell(s, m, a, up, i);
      assert r[h..][i] == r[i + h];
    }
  }

  /** No key of `u` is on the wrong side of a key of `w`. */
  ghost predicate Ordered(u: seq<Cell>, w: seq<Cell>, up: bool) {
    forall x, y :: x in u && y in w ==>
      if up then !KeyLess(y.key, x.key) else !KeyLess(x.key, y.key)
  }

  lemma {:induction false} SplitsBitonic(s: seq<Cell>, m: nat, a: nat, up: bool)
    requires |s| == Pow2(m + 1) && a > m && Bitonic(s)
    ensures var h := Pow2(m); var r := Stage(s, m + 1, a, m, up);
            Bitonic(r[..h]) && Bitonic(r[h..]) && Ordered(r[..h], r[h..], up)
  {
    var h := Pow2(m);
    var r := Stage(s, m + 1, a, m, up);
    forall th ensures BitonicBits(Above(r[..h], th)) && BitonicBits(Above(r[h..], th)) {
      FullDistanceBits(s, m, a, up, th);
      assert BitonicBits(Above(s, th));
      HalfClean(Above(s, th), h);
    }
    forall x, y | x in r[..h] && y in r[h..]
      ensures if up then !KeyLess(y.key, x.key) else !KeyLess(x.key, y.key)
    {
      var i :| 0 <= i < h && r[..h][i] == x;
      var j :| 0 <= j < h && r[h..][j] == y;
      var th := if up then y.key else x.key;
      FullDistanceBits(s, m, a, up, th);
      HalfClean(Above(s, th), h);
      assert Above(r[..h], th)[i] == KeyLess(th, x.key);
      assert Above(r[h..], th)[j] == KeyLess(th, y.key);
    }
  }

  // ---------- permutation ----------

  /** Exchanging cells at equal positions of two sequences keeps their joint multiset. */
  lemma {:induction false} PairwiseExchange(u: seq<Cell>, w: seq<Cell>, u': seq<Cell>, w': seq<Cell>)
    requires |u| == |w| == |u'| == |w'|
    requires forall i :: 0 <= i < |u| ==>
      (u'[i] == u[i] && w'[i] == w[i]) || (u'[i] == w[i] && w'[i] == u[i])
    ensures multiset(u) + multiset(w) == multiset(u') + multiset(w')
  {
    if |u| > 0 {
      PairwiseExchange(u[1..], w[1..], u'[1..], w'[1..]);
      HeadAndTail(u);
      HeadAndTail(w);
      HeadAndTail(u');
      HeadAndTail(w');
      assert multiset(u) + multiset(w)
          == (multiset{u[0]} + multiset{w[0]}) + (multiset(u[1..]) + multiset(w[1..]));
      assert multiset(u') + multiset(w')
          == (multiset{u'[0]} + multiset{w'[0]}) + (multiset(u'[1..]) + multiset(w'[1..]));
      assert multiset{u[0]} + multiset{w[0]} == multiset{u'[0]} + multiset{w'[0]};
    } else {
      assert u == w == u' == w' == [];
    }
  }

  lemma {:induction false} HeadAndTail<T>(s: seq<T>)
    requires |s| > 0
    ensures multiset(s) == multiset{s[0]} + multiset(s[1..])
  {
    assert s == [s[0]] + s[1..];
  }

  lemma {:induction false} FullDistancePair(s: seq<Cell>, m: nat, a: nat, up: bool, i: nat)
    requires |s| == Pow2(m + 1) && i < Pow2(m)
    ensures var h := Pow2(m); var r := Stage(s, m + 1, a, m, up);
            (r[i] == s[i] && r[i + h] == s[i + h]) || (r[i] == s[i + h] && r[i + h] == s[i])
  {
    HighBitsClear(i, m, m);
    XorPow2(i, m);
    TopBit(i, m);
    XorPow2(i + Pow2(m), m);
  }

  lemma {:induction false} FullDistancePermutes(s: seq<Cell>, m: nat, a: nat, up: bool)
    requires |s| == Pow2(m + 1)
    ensures multiset(Stage(s, m + 1, a, m, up)) == multiset(s)
  {
    var h := Pow2(m);
    var r := Stage(s, m + 1, a, m, up);
    var x, y, u, w := s[..h], s[h..], r[..h], r[h..];
    forall i | 0 <= i < h ensures (u[i] == x[i] && w[i] == y[i]) || (u[i] == y[i] && w[i] == x[i]) {
      FullDistancePair(s, m, a, up, i);
    }
    PairwiseExchange(x, y, u, w);
    assert r == r[..h] + r[h..] && s == s[..h] + s[h..];
  }

  lemma {:induction false} StagePermutes(s: seq<Cell>, m: nat, a: nat, b: nat, up: bool)
    requires |s| == Pow2(m) && b < m
    ensures multiset(Stage(s, m, a, b, up)) == multiset(s)
    decreases m
  {
    if b == m - 1 {
      FullDistancePermutes(s, b, a, up);
    } else {
      var x, y := s[..Pow2(m - 1)], s[Pow2(m - 1)..];
      assert s == x + y;
      StageOnHalves(x, y, m - 1, a, b, up);
      StagePermutes(x, m - 1, a, b, up);
      StagePermutes(y, m - 1, a, b, if a == m - 1 then !up else up);
    }
  }

  lemma {:induction false} PhasePermutes(s: seq<Cell>, m: nat, a: nat, b: nat, up: bool)
    requires |s| == Pow2(m) && b <= m
    ensures multiset(Phase(s, m, a, b, up)) == multiset(s)
    decreases b
  {
    if b > 0 {
      StagePermutes(s, m, a, b - 1, up);
      PhasePermutes(Stage(s, m, a, b - 1, up), m, a, b - 1, up);
    }
  }

  lemma {:induction false} PhasesPermute(s: seq<Cell>, m: nat, a: nat, up: bool)
    requires |s| == Pow2(m) && a <= m
    ensures multiset(Phases(s, m, a, up)) == multiset(s)
    decreases a
  {
    if a > 0 {
      PhasesPermute(s, m, a - 1, true);
      PhasePermutes(Phases(s, m, a - 1, true), m, a, a, up);
    }
  }

  // ---------- sorting ----------

  lemma {:induction false} SortedConcat(u: seq<Cell>, w: seq<Cell>, u0: seq<Cell>, w0: seq<Cell>, up: bool)
    requires Sorted(u, up) && Sorted(w, up) && Ordered(u0, w0, up)
    requires multiset(u) == multiset(u0) && multiset(w) == multiset(w0)
    ensures Sorted(u + w, up)
  {
    forall x, y | x in u && y in w
      ensures if up then !KeyLess(y.key, x.key) else !KeyLess(x.key, y.key)
    {
      assert x in multiset(u0) && y in multiset(w0);
    }
  }

  lemma {:induction false} MergeHalves(u: seq<Cell>, w: seq<Cell>, m: nat, a: nat, up: bool)
    requires |u| == |w| == Pow2(m) && a > m && Ordered(u, w, up)
    requires Sorted(Phase(u, m, a, m, up), up) && Sorted(Phase(w, m, a, m, up), up)
    ensures Sorted(Phase(u + w, m + 1, a, m, up), up)
  {
    PhaseOnHalves(u, w, m, a, m, up);
    PhasePermutes(u, m, a, m, up);
    PhasePermutes(w, m, a, m, up);
    SortedConcat(Phase(u, m, a, m, up), Phase(w, m, a, m, up), u, w, up);
  }

  /** The merge phase sorts every bitonic block, in the direction of the block. */
  lemma {:induction false} MergeSorts(s: seq<Cell>, m: nat, a: nat, up: bool)
    requires |s| == Pow2(m) && a >= m && Bitonic(s)
    ensures Sorted(Phase(s, m, a, m, up), up)
    decreases m
  {
    if m > 0 {
      var r := Stage(s, m, a, m - 1, up);
      SplitsBitonic(s, m - 1, a, up);
      var u, w := r[..Pow2(m - 1)], r[Pow2(m - 1)..];
      MergeSorts(u, m - 1, a, up);
      MergeSorts(w, m - 1, a, up);
      MergeHalves(u, w, m - 1, a, up);
      assert r == u + w;
    }
  }

  /** In a sorted sequence, the cells above a threshold are a suffix or a prefix. */
  lemma {:induction false} SortedBits(s: seq<Cell>, up: bool, th: Key) returns (p: nat)
    requires Sorted(s, up)
    ensures p <= |s|
    ensures forall i :: 0 <= i < |s| ==> (Above(s, th)[i] == up <==> p <= i)
  {
    p := 0;
    while p < |s| && KeyLess(th, s[p].key) != up
      invariant 0 <= p <= |s|
      invariant forall i :: 0 <= i < p ==> KeyLess(th, s[i].key) != up
    {
      p := p + 1;
    }
  }

  /** Up then down is bitonic. */
  lemma {:induction false} UpDownBitonic(x: seq<Cell>, y: seq<Cell>)
    requires Sorted(x, true) && Sorted(y, false)
    ensures Bitonic(x + y)
  {
    forall th ensures BitonicBits(Above(x + y, th)) {
      var p := SortedBits(x, true, th);
      var q := SortedBits(y, false, th);
      var v := Above(x + y, th);
      forall i | 0 <= i < |v| ensures v[i] <==> p <= i < |x| + q {
        if i < |x| { assert v[i] == Above(x, th)[i]; } else { assert v[i] == Above(y, th)[i - |x|]; }
      }
      assert Block(v, p, |x| + q, true);
    }
  }

  lemma {:induction false} PhasesSort(s: seq<Cell>, m: nat, up: bool)
    requires |s| == Pow2(m)
    ensures Sorted(Phases(s, m, m, up), up)
    decreases m
  {
    if m > 0 {
      var h := Pow2(m - 1);
      var x, y := s[..h], s[h..];
      assert s == x + y;
      PhasesSort(x, m - 1, true);
      PhasesSort(y, m - 1, false);
      PhasesOnHalves(x, y, m - 1, m - 1, true);
      UpDownBitonic(Phases(x, m - 1, m - 1, true), Phases(y, m - 1, m - 1, false));
      MergeSorts(Phases(s, m, m - 1, true), m, m, up);
    }
  }

  /** The network sorts by key, and only moves cells. */
  lemma {:induction false} NetworkSorts(s: seq<Cell>, m: nat)
    requires |s| == Pow2(m)
    ensures Sorted(Network(s, m), true)
    ensures multiset(Network(s, m)) == multiset(s)
  {
    PhasesSort(s, m, true);
    PhasesPermute(s, m, m, true);
  }

  // ---------- lanes in any order ----------

  /** The code one lane executes between two barriers. */
  function LaneStep(s: seq<Cell>, m: nat, a: nat, b: nat, lane: nat): (r: seq<Cell>)
    requires |s| == Pow2(m) && b < m && lane < |s|
    ensures |r| == |s|
  {
    PartnerInside(lane, m, b);
    var other := Xor(lane, Pow2(b));
    if other > lane && Swaps(s[lane], s[other], Ascending(lane, a, true))
    then s[lane := s[other]][other := s[lane]]
    else s
  }

  function RunLanes(s: seq<Cell>, m: nat, a: nat, b: nat, order: seq<nat>): (r: seq<Cell>)
    requires |s| == Pow2(m) && b < m
    requires LanesBelow(order, |s|)
    ensures |r| == |s|
  {
    if order == [] then s
    else LaneStep(RunLanes(s, m, a, b, order[..|order| - 1]), m, a, b, order[|order| - 1])
  }

  /** A schedule of one stage: every lane once, in any order. */
  ghost predicate LaneOrder(order: seq<nat>, n: nat) {
    && |order| == n
    && LanesBelow(order, n)
    && NoRepeats(order)
    && (forall lane: nat :: lane < n ==> lane in order)
  }

  ghost predicate NoRepeats(order: seq<nat>) {
    forall x, y :: 0 <= x < y < |order| ==> order[x] != order[y]
  }

  predicate LanesBelow(order: seq<nat>, n: nat) {
    forall x :: 0 <= x < |order| ==> order[x] < n
  }

  /** The lane that acts on slot `i`. */
  function Actor(i: nat, b: nat): (r: nat) {
    if Xor(i, Pow2(b)) > i then i else Xor(i, Pow2(b))
  }

  /** Slots of different actors are different, so the steps of a stage do not interfere. */
  lemma {:induction false} LanesSoFar(s: seq<Cell>, m: nat, a: nat, b: nat, order: seq<nat>, i: nat)
    requires |s| == Pow2(m) && b < m && i < |s|
    requires NoRepeats(order)
    requires LanesBelow(order, |s|)
    ensures RunLanes(s, m, a, b, order)[i]
         == if Actor(i, b) in order then After(s, m, a, b, true, i) else s[i]
    decreases |order|
  {
    if order != [] {
      var rest, lane := order[..|order| - 1], order[|order| - 1];
      PartnerInside(i, m, b);
      PartnerInside(lane, m, b);
      var other := Xor(lane, Pow2(b));
      LanesSoFar(s, m, a, b, rest, i);
      assert order == rest + [lane];
      assert other != lane by { FlippedBit(lane, b, b); }
      assert Actor(i, b) == lane <==> other > lane && (i == lane || i == other);
      if Actor(i, b) == lane {
        LanesSoFar(s, m, a, b, rest, lane);
        LanesSoFar(s, m, a, b, rest, other);
        assert Actor(lane, b) == lane && Actor(other, b) == lane && lane !in rest;
      }
    }
  }

  /** Any schedule of a stage has the effect of the stage. */
  lemma {:induction false} AnyLaneOrder(s: seq<Cell>, m: nat, a: nat, b: nat, order: seq<nat>)
    requires |s| == Pow2(m) && b < m && LaneOrder(order, |s|)
    ensures RunLanes(s, m, a, b, order) == Stage(s, m, a, b, true)
  {
    forall i | 0 <= i < |s|
      ensures RunLanes(s, m, a, b, order)[i] == Stage(s, m, a, b, true)[i]
    {
      PartnerInside(i, m, b);
      LanesSoFar(s, m, a, b, order, i);
    }
  }

  // ---------- the kernel ----------

  function Cells(wq: array<u32>, wt: array<u32>, wcoef: array<i32>): (s: seq<Cell>)
    requires wq.Length == wt.Length == wcoef.Length
    reads wq, wt, wcoef
    ensures |s| == wq.Length
    ensures forall i :: 0 <= i < |s| ==> s[i] == Cell(Key(wq[i], wt[i]), wcoef[i])
  {
    seq(wq.Length, i requires 0 <= i < wq.Length reads wq, wt, wcoef => Cell(Key(wq[i], wt[i]), wcoef[i]))
  }

  method RunLane(wq: array<u32>, wt: array<u32>, wcoef: array<i32>, k: nat, j: nat, lane: nat,
                 ghost m: nat, ghost a: nat, ghost b: nat)
    requires wq.Length == wt.Length == wcoef.Length == Pow2(m) && wq != wt
    requires b < m && k == Pow2(a) && j == Pow2(b) && lane < wq.Length
    modifies wq, wt, wcoef
    ensures Cells(wq, wt, wcoef) == LaneStep(old(Cells(wq, wt, wcoef)), m, a, b, lane)
  {
    PartnerInside(lane, m, b);
    var other := Xor(lane, j);
    if other > lane {
      var ascending := And(lane, k) == 0;
      var lq, lt, lcoef := wq[lane], wt[lane], wcoef[lane];
      var oq, ot, ocoef := wq[other], wt[other], wcoef[other];
      if Swaps(Cell(Key(lq, lt), lcoef), Cell(Key(oq, ot), ocoef), ascending) {
        wq[lane], wt[lane], wcoef[lane] := oq, ot, ocoef;
        wq[other], wt[other], wcoef[other] := lq, lt, lcoef;
      }
    }
  }

  method RunStage(wq: array<u32>, wt: array<u32>, wcoef: array<i32>, k: nat, j: nat, order: seq<nat>,
                  ghost m: nat, ghost a: nat, ghost b: nat)
    requires wq.Length == wt.Length == wcoef.Length == Pow2(m) && wq != wt
    requires b < m && k == Pow2(a) && j == Pow2(b) && LaneOrder(order, wq.Length)
    modifies wq, wt, wcoef
    ensures Cells(wq, wt, wcoef) == Stage(old(Cells(wq, wt, wcoef)), m, a, b, true)
  {
    ghost var s := Cells(wq, wt, wcoef);
    for x := 0 to |order|
      invariant Cells(wq, wt, wcoef) == RunLanes(s, m, a, b, order[..x])
    {
      RunLane(wq, wt, wcoef, k, j, order[x], m, a, b);
      assert order[..x + 1][..x] == order[..x];
    }
    assert order[..|order|] == order;
    AnyLaneOrder(s, m, a, b, order);
  }

  /** The inner loop of `sort_pass`. */
  method RunPhase(wq: array<u32>, wt: array<u32>, wcoef: array<i32>, k: nat,
                  schedule: (nat, nat) -> seq<nat>, ghost m: nat, ghost a: nat)
    requires wq.Length == wt.Length == wcoef.Length == Pow2(m) && wq != wt
    requires 1 <= a <= m && k == Pow2(a)
    requires forall k, j :: LaneOrder(schedule(k, j), wq.Length)
    modifies wq, wt, wcoef
    ensures Cells(wq, wt, wcoef) == Phase(old(Cells(wq, wt, wcoef)), m, a, a, true)
  {
    ghost var s := Cells(wq, wt, wcoef);
    var j := k / 2;
    ghost var b := a;
    while j > 0
      invariant 0 <= b <= a && j == (if b == 0 then 0 else Pow2(b - 1))
      invariant Phase(Cells(wq, wt, wcoef), m, a, b, true) == Phase(s, m, a, a, true)
      decreases b
    {
      RunStage(wq, wt, wcoef, k, j, schedule(k, j), m, a, b - 1);
      j := j / 2;
      b := b - 1;
    }
  }

  /** `sort_pass` on the workgroup arrays: `schedule(k, j)` is the order in which the lanes happen to
      run in the stage with stride `k` and distance `j`. */
  method SortPass(wq: array<u32>, wt: array<u32>, wcoef: array<i32>, schedule: (nat, nat) -> seq<nat>,
                  ghost m: nat)
    requires wq.Length == wt.Length == wcoef.Length == Pow2(m) && wq != wt
    requires forall k, j :: LaneOrder(schedule(k, j), wq.Length)
    modifies wq, wt, wcoef
    ensures Cells(wq, wt, wcoef) == Network(old(Cells(wq, wt, wcoef)), m)
    ensures Sorted(Cells(wq, wt, wcoef), true)
    ensures multiset(Cells(wq, wt, wcoef)) == multiset(old(Cells(wq, wt, wcoef)))
  {
    ghost var s := Cells(wq, wt, wcoef);
    var k := 2;
    ghost var a := 1;
    while k <= wq.Length
      invariant 1 <= a <= m + 1 && k == Pow2(a)
      invariant Cells(wq, wt, wcoef) == Phases(s, m, a - 1, true)
      decreases m + 1 - a
    {
      Pow2Order(a, m);
      RunPhase(wq, wt, wcoef, k, schedule, m, a);
      k := k * 2;
      a := a + 1;
    }
    Pow2Order(a, m);
    NetworkSorts(s, m);
  }
}
