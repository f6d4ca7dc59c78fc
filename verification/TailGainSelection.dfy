/** For which domains comparing the low word first selects the gain. */
module TailGainSelection {
  import opened MachineInts
  import opened Limbs
  import opened LcmWords
  import opened TailConstraints
  import opened TailGain
  import opened LcmTable
  import Bits
  import NT = NumberTheory

  /** For every prefix, or for every progression-free one, any low-word-first selection is the gain. */
  ghost predicate AlwaysSelectsGain(n2: u32, freeOnly: bool) {
    forall p: seq<u32>, l: nat, w: Words ::
      ValidPrefix(p) && (freeOnly ==> ProgressionFree(PrefixSet(p))) && NT.IsLcmUpTo(n2, l)
      && LowFirstGreatest(w, p, n2, l) ==>
        IsGain(Value(w), p, n2, l)
  }

  // ---------- agreement of the two orders ----------

  lemma {:induction false} LowWordDecides(v: Words, w: Words)
    requires v[0] > w[0]
    ensures TupleGreater(v, w)
  {
  }

  lemma {:induction false} LowWord(w: Words)
    ensures w[0] == Value(w) % U32
  {
  }

  /** Where heavier admissible tails also have greater low words, the selection is the gain. */
  ghost predicate LowWordsAgree(p: seq<u32>, n2: u32, l: nat) {
    forall a, b :: Admissible(p, a, n2) && Admissible(p, b, n2) ==> Agree(a, b, DomainSize(n2), l)
  }

  ghost predicate Agree(a: set<int>, b: set<int>, d: nat, l: nat) {
    Weight(a, d, l) < Weight(b, d, l) ==> Weight(a, d, l) % U32 < Weight(b, d, l) % U32
  }

  lemma {:induction false} AgreementSelectsGain(w: Words, p: seq<u32>, n2: u32, l: nat)
    requires DomainSize(n2) <= MAX_DOMAIN && l < TWO_192
    requires LowFirstGreatest(w, p, n2, l) && LowWordsAgree(p, n2, l)
    ensures IsGain(Value(w), p, n2, l)
  {
    var d := DomainSize(n2);
    var a :| Admissible(p, a, n2) && Value(w) == Weight(a, d, l);
    forall b | Admissible(p, b, n2) ensures Weight(b, d, l) <= Value(w) {
      WeightFits(b, d, l);
      var v: Words := WordsOf(Weight(b, d, l), 6);
      WordsBijection(Weight(b, d, l), v);
      assert TotalOf(v, p, n2, l);
      assert Agree(a, b, d, l);
      LowWord(v);
      LowWord(w);
      if Weight(b, d, l) > Value(w) { LowWordDecides(v, w); }
    }
  }

  // ---------- domains of at most two elements ----------

  /** L/65 and L/66 for L = lcm(1..66). */
  const UNIT_65 := 18188721293889573346328640
  const UNIT_66 := 17913134607618519204717600

  lemma {:induction false} UnitResidues()
    ensures 0 < UNIT_66 < UNIT_65 && LCM_66 / 65 == UNIT_65 && LCM_66 / 66 == UNIT_66
    ensures UNIT_66 % U32 == 874341408 && UNIT_65 % U32 == 3332620352
    ensures (UNIT_65 + UNIT_66) % U32 == 4206961760
  {
  }

  lemma {:induction false} WeightOfTwo(a: set<int>, d: nat)
    requires d <= 2
    ensures Weight(a, d, LCM_66) == 0 || Weight(a, d, LCM_66) == UNIT_66
         || Weight(a, d, LCM_66) == UNIT_65 || Weight(a, d, LCM_66) == UNIT_65 + UNIT_66
  {
    UnitResidues();
    assert Weight(a, 0, LCM_66) == 0;
    assert Weight(a, 1, LCM_66) == if 65 in a then UNIT_65 else 0;
  }

  /** Up to N2 = 66 the weights 0, L/66, L/65 and their sum ascend in their low words too. */
  lemma {:induction false} SmallDomainsAgree(p: seq<u32>, n2: u32, l: nat)
    requires n2 <= 66 && NT.IsLcmUpTo(n2, l)
    ensures LowWordsAgree(p, n2, l)
  {
    if n2 >= TAIL {
      LcmIs(n2);
      NT.LcmUnique(n2, l, LCM_66);
    }
    forall a, b | Admissible(p, a, n2) && Admissible(p, b, n2) ensures Agree(a, b, DomainSize(n2), l) {
      if n2 >= TAIL { TwoElementsAgree(a, b, DomainSize(n2)); }
    }
  }

  lemma {:induction false} TwoElementsAgree(a: set<int>, b: set<int>, d: nat)
    requires d <= 2
    ensures Agree(a, b, d, LCM_66)
  {
    UnitResidues();
    WeightOfTwo(a, d);
    WeightOfTwo(b, d);
  }

  lemma {:induction false} SmallDomainsSelectGain(n2: u32, freeOnly: bool)
    requires n2 <= 66
    ensures AlwaysSelectsGain(n2, freeOnly)
  {
    forall p: seq<u32>, l: nat, w: Words
      | ValidPrefix(p) && (freeOnly ==> ProgressionFree(PrefixSet(p))) && NT.IsLcmUpTo(n2, l)
        && LowFirstGreatest(w, p, n2, l)
      ensures IsGain(Value(w), p, n2, l)
    {
      LcmFits(n2, l);
      SmallDomainsAgree(p, n2, l);
      AgreementSelectsGain(w, p, n2, l);
    }
  }

  // ---------- prefixes that leave two elements ----------

  /** The prefix blocks every tail element but `x` and `y`, and these two go together. */
  ghost predicate LeavesPair(p: seq<u32>, n2: u32, x: int, y: int) {
    && TAIL <= x < y <= n2
    && (forall c :: TAIL <= c <= n2 && c != x && c != y ==> Completes(p, c))
    && !Completes(p, x) && !Completes(p, y)
    && (forall a :: a in p ==> a != 2 * x - y)
  }

  lemma {:induction false} NotCompleted(p: seq<u32>, n2: u32, a: set<int>, c: int)
    requires Admissible(p, a, n2) && c in a
    ensures TAIL <= c <= n2 && !Completes(p, c)
  {
    forall i, j | i in p && j in p ensures !Progression(i, j, c) {
    }
  }

  lemma {:induction false} PairTails(p: seq<u32>, n2: u32, x: int, y: int, a: set<int>)
    requires ValidPrefix(p) && LeavesPair(p, n2, x, y)
    ensures Admissible(p, a, n2) <==> a <= {x, y}
  {
    if Admissible(p, a, n2) {
      forall c | c in a ensures c == x || c == y {
        NotCompleted(p, n2, a, c);
      }
    }
    if a <= {x, y} {
      forall i, j, c | (i in p || i in a) && (j in p || j in a) && c in a ensures !Progression(i, j, c) {
        if i in p && j in p { assert !Completes(p, c); }
      }
    }
  }

  lemma {:induction false} PairWeight(a: set<int>, d: nat, l: nat, x: int, y: int)
    requires a <= {x, y} && TAIL <= x < y
    ensures Weight(a, d, l)
         == (if x in a && x < TAIL + d then l / x else 0) + (if y in a && y < TAIL + d then l / y else 0)
  {
    if d > 0 { PairWeight(a, d - 1, l, x, y); }
  }

  /** If the low words of the two weights overflow together, the single element is preferred to the
      heavier pair: no low-word-first selection is the gain. */
  lemma {:induction false} PairMisses(w: Words, p: seq<u32>, n2: u32, l: nat, x: int, y: int)
    requires ValidPrefix(p) && LeavesPair(p, n2, x, y) && DomainSize(n2) <= MAX_DOMAIN && l < TWO_192
    requires l / y > 0 && (l / x) % U32 > (l / x + l / y) % U32
    ensures LowFirstGreatest(w, p, n2, l) ==> !IsGain(Value(w), p, n2, l)
  {
    var d := DomainSize(n2);
    if LowFirstGreatest(w, p, n2, l) && IsGain(Value(w), p, n2, l) {
      PairTails(p, n2, x, y, {x, y});
      PairTails(p, n2, x, y, {x});
      PairWeight({x, y}, d, l, x, y);
      PairWeight({x}, d, l, x, y);
      var a :| Admissible(p, a, n2) && Weight(a, d, l) == Value(w);
      PairTails(p, n2, x, y, a);
      PairWeight(a, d, l, x, y);
      WeightFits({x}, d, l);
      var v: Words := WordsOf(l / x, 6);
      WordsBijection(l / x, v);
      assert TotalOf(v, p, n2, l);
      LowWord(v);
      LowWord(w);
      LowWordDecides(v, w);
    }
  }

  // ---------- a selection exists ----------

  lemma {:induction false} GreatestOf(s: seq<Words>) returns (k: nat)
    requires s != []
    ensures k < |s| && forall i :: 0 <= i < |s| ==> !TupleGreater(s[i], s[k])
  {
    k := 0;
    TupleIrreflexive(s[0]);
    for n := 1 to |s|
      invariant k < |s| && forall i :: 0 <= i < n ==> !TupleGreater(s[i], s[k])
    {
      if TupleGreater(s[n], s[k]) {
        forall i | 0 <= i <= n ensures !TupleGreater(s[i], s[n]) {
          TupleIrreflexive(s[n]);
          if i < n { TupleOrder(s[i], s[k], s[n]); }
        }
        k := n;
      }
    }
  }

  lemma {:induction false} SelectionExists(p: seq<u32>, n2: u32, l: nat) returns (w: Words)
    requires ValidPrefix(p) && DomainSize(n2) <= MAX_DOMAIN && l < TWO_192
    ensures LowFirstGreatest(w, p, n2, l)
  {
    var masks := Bits.Pow2(DomainSize(n2));
    var d := DomainSize(n2);
    var words: seq<Words> := [ZERO];
    ZeroValue(ZERO);
    EmptyTailIsAdmissible(p, n2, l);
    for m := 0 to masks
      invariant words != [] && forall v :: v in words ==> TotalOf(v, p, n2, l)
      invariant forall k :: 0 <= k < m && Admissible(p, SetOf(k, n2), n2) ==>
                  WordsOf(Weight(SetOf(k, n2), d, l), 6) in words
    {
      if Admissible(p, SetOf(m, n2), n2) {
        WeightFits(SetOf(m, n2), d, l);
        var v: Words := WordsOf(Weight(SetOf(m, n2), d, l), 6);
        WordsBijection(Weight(SetOf(m, n2), d, l), v);
        words := words + [v];
      }
    }
    var k := GreatestOf(words);
    w := words[k];
    forall v: Words | TotalOf(v, p, n2, l) ensures !TupleGreater(v, w) {
      var a :| Admissible(p, a, n2) && Value(v) == Weight(a, d, l);
      var m := EveryTailHasMask(a, n2);
      WordsBijection(Value(v), v) by { WordsBound(v); }
      assert v in words;
    }
  }

  // ---------- two prefixes ----------

  /** Leaves 66 and 67 up to 88. */
  const FIRST: seq<u32> := [2, 5, 38, 41, 42, 45, 57, 58, 63, 64]

  predicate InFirst(v: int) {
    v == 2 || v == 5 || v == 38 || v == 41 || v == 42 || v == 45 || v == 57 || v == 58 || v == 63 || v == 64
  }

  /** The middle of a progression in `FIRST` that ends in `c`. */
  function FirstMiddle(c: int): int {
    if c == 65 || c == 70 || c == 83 || c == 86 || c == 87 then 64
    else if c == 68 || c == 81 || c == 84 then 63
    else if c == 69 || c == 72 || c == 73 || c == 76 then 57
    else if c == 71 || c == 74 then 38
    else if c == 75 || c == 78 then 58
    else if c == 77 || c == 80 then 41
    else if c == 79 || c == 82 then 42
    else 45
  }

  lemma {:induction false} FirstMembers(v: int)
    ensures v in FIRST <==> InFirst(v)
  {
  }

  lemma {:induction false} FirstIsFree()
    ensures ValidPrefix(FIRST) && ProgressionFree(PrefixSet(FIRST))
  {
    forall v: int ensures v in FIRST <==> InFirst(v) { FirstMembers(v); }
  }

  lemma {:induction false} FirstLeavesPair(n2: u32)
    requires 67 <= n2 <= 88
    ensures LeavesPair(FIRST, n2, 66, 67)
  {
    forall v: int ensures v in FIRST <==> InFirst(v) { FirstMembers(v); }
    forall c | TAIL <= c <= n2 && c != 66 && c != 67 ensures Completes(FIRST, c) {
      var b := FirstMiddle(c);
      assert Progression(2 * b - c, b, c) && InFirst(b) && InFirst(2 * b - c);
    }
  }

  /** Leaves 68 and 70 up to 82. */
  const SECOND: seq<u32> := [16, 45, 46, 49, 59, 60, 62, 63]

  predicate InSecond(v: int) {
    v == 16 || v == 45 || v == 46 || v == 49 || v == 59 || v == 60 || v == 62 || v == 63
  }

  function SecondMiddle(c: int): int {
    if c == 65 || c == 78 || c == 79 then 62
    else if c == 66 || c == 67 || c == 77 || c == 80 || c == 81 then 63
    else if c == 69 || c == 72 || c == 73 then 59
    else if c == 71 || c == 75 then 60
    else if c == 74 then 45
    else if c == 76 then 46
    else 49
  }

  lemma {:induction false} SecondMembers(v: int)
    ensures v in SECOND <==> InSecond(v)
  {
  }

  lemma {:induction false} SecondIsFree()
    ensures ValidPrefix(SECOND) && ProgressionFree(PrefixSet(SECOND))
  {
    forall v: int ensures v in SECOND <==> InSecond(v) { SecondMembers(v); }
  }

  lemma {:induction false} SecondLeavesPair(n2: u32)
    requires 70 <= n2 <= 82
    ensures LeavesPair(SECOND, n2, 68, 70)
  {
    forall v: int ensures v in SECOND <==> InSecond(v) { SecondMembers(v); }
    forall c | TAIL <= c <= n2 && c != 68 && c != 70 ensures Completes(SECOND, c) {
      var b := SecondMiddle(c);
      assert Progression(2 * b - c, b, c) && InSecond(b) && InSecond(2 * b - c);
    }
  }

  /** A progression-free prefix that leaves a pair whose low words overflow. */
  lemma {:induction false} Overflows(n2: u32) returns (p: seq<u32>, x: int, y: int)
    requires 67 <= n2 <= 88
    ensures ValidPrefix(p) && ProgressionFree(PrefixSet(p)) && LeavesPair(p, n2, x, y)
    ensures Lcm(n2) / y > 0 && (Lcm(n2) / x) % U32 > (Lcm(n2) / x + Lcm(n2) / y) % U32
  {
    if n2 < 73 || n2 >= 83 {
      p, x, y := FIRST, 66, 67;
      FirstIsFree();
      FirstLeavesPair(n2);
      FirstOverflows(n2);
    } else {
      p, x, y := SECOND, 68, 70;
      SecondIsFree();
      SecondLeavesPair(n2);
      SecondOverflows(n2);
    }
  }

  lemma {:induction false} Overflow(l: nat, x: nat, y: nat, a: nat, b: nat)
    requires x > 0 && y > 0 && l == x * a && l == y * b && b > 0 && a % U32 > (a + b) % U32
    ensures l / y > 0 && (l / x) % U32 > (l / x + l / y) % U32
  {
    NT.QuotientUnique(l, x, a, 0);
    NT.QuotientUnique(l, y, b, 0);
  }

  lemma {:induction false} FirstOverflows(n2: u32)
    requires 67 <= n2 < 73 || 83 <= n2 <= 88
    ensures Lcm(n2) / 67 > 0 && (Lcm(n2) / 66) % U32 > (Lcm(n2) / 66 + Lcm(n2) / 67) % U32
  {
    if n2 < 71 {
      Overflow(79211881234889091923261227200, 66, 67,
               1200180018710440786716079200, 1182266884102822267511361600);
    } else if n2 < 73 {
      Overflow(5624043567677125526551547131200, 66, 67,
               85212781328441295856841623200, 83940948771300380993306673600);
    } else {
      Overflow(8076030954443701744994070304101969600, 66, 67,
               122364105370359117348395004607605600, 120537775439458234999911497076148800);
    }
  }

  lemma {:induction false} SecondOverflows(n2: u32)
    requires 73 <= n2 < 83
    ensures Lcm(n2) / 70 > 0 && (Lcm(n2) / 68) % U32 > (Lcm(n2) / 68 + Lcm(n2) / 70) % U32
  {
    if n2 < 79 {
      Overflow(410555180440430163438262940577600, 68, 70,
               6037576182947502403503866773200, 5865074006291859477689470579680);
    } else if n2 < 81 {
      Overflow(32433859254793982911622772305630400, 68, 70,
               476968518452852689876805475082800, 463340846497056898737468175794720);
    } else {
      Overflow(97301577764381948734868316916891200, 68, 70,
               1430905555358558069630416425248400, 1390022539491170696212404527384160);
    }
  }

  /** A job whose selection is not the gain. */
  lemma {:induction false} MissedGain(n2: u32) returns (p: seq<u32>, w: Words)
    requires 67 <= n2 <= 88
    ensures ValidPrefix(p) && ProgressionFree(PrefixSet(p)) && NT.IsLcmUpTo(n2, Lcm(n2))
    ensures LowFirstGreatest(w, p, n2, Lcm(n2)) && !IsGain(Value(w), p, n2, Lcm(n2))
  {
    var x, y;
    p, x, y := Overflows(n2);
    var l: nat := Lcm(n2);
    LcmIs(n2);
    LcmFits(n2, l);
    w := SelectionExists(p, n2, l);
    PairMisses(w, p, n2, l, x, y);
  }

  lemma {:induction false} LargeDomainsMiss(n2: u32, freeOnly: bool)
    requires 67 <= n2 <= 88
    ensures !AlwaysSelectsGain(n2, freeOnly)
  {
    var p, w := MissedGain(n2);
  }

  /** The domains on which the selection as coded is the gain for every prefix: those of at most two
      elements. Progression-free prefixes alone make no difference. */
  lemma {:induction false} ExactDomains(n2: u32, freeOnly: bool)
    requires DomainSize(n2) <= MAX_DOMAIN
    ensures AlwaysSelectsGain(n2, freeOnly) <==> n2 <= 66
  {
    if n2 <= 66 { SmallDomainsSelectGain(n2, freeOnly); } else { LargeDomainsMiss(n2, freeOnly); }
  }

  /** What a job prints as a fraction is, for every prefix, the greatest sum of reciprocals in lowest
      terms. */
  ghost predicate AlwaysPrintsGreatestSum(n2: u32) {
    forall p: seq<u32>, l: nat, w: Words, num: nat, den: nat ::
      ValidPrefix(p) && NT.IsLcmUpTo(n2, l) && LowFirstGreatest(w, p, n2, l)
      && PrintedAs(w, l, num, den) ==>
        IsGreatestSum(num, den, p, n2)
  }

  /** The fraction that a job prints for a selection. */
  ghost predicate PrintedAs(w: Words, l: nat, num: nat, den: nat) {
    den > 0 && num * l == Value(w) * den && NT.Gcd(num, den) == 1
  }

  lemma {:induction false} FractionExists(w: Words, l: nat) returns (num: nat, den: nat)
    requires l > 0
    ensures PrintedAs(w, l, num, den)
  {
    var val := Value(w);
    var g := NT.Gcd(val, l);
    NT.ReducedCoprime(val, l);
    num, den := val / g, l / g;
    CrossProduct(num, den, g);
    assert den * g == l && (den > 0 || den * g == 0);
  }

  /** The printed fraction is always the greatest sum of reciprocals exactly on the domains where the
      selection is always the gain. */
  lemma {:induction false} PrintedFraction(n2: u32)
    requires DomainSize(n2) <= MAX_DOMAIN
    ensures AlwaysPrintsGreatestSum(n2) <==> n2 <= 66
  {
    if n2 <= 66 {
      SmallDomainsSelectGain(n2, false);
      forall p: seq<u32>, l: nat, w: Words, num: nat, den: nat
        | ValidPrefix(p) && NT.IsLcmUpTo(n2, l) && LowFirstGreatest(w, p, n2, l) && PrintedAs(w, l, num, den)
        ensures IsGreatestSum(num, den, p, n2)
      {
        GainIsGreatestSum(Value(w), p, n2, l, num, den);
      }
    } else {
      var p, w := MissedGain(n2);
      var num, den := FractionExists(w, Lcm(n2));
      if IsGreatestSum(num, den, p, n2) { GreatestSumIsGain(w, p, n2, Lcm(n2), num, den); }
    }
  }
}
