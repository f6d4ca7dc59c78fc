/** The suffix list of the sharded merge and its order: stable passes from the least significant word
    up (`prepare_suffix`). */
module SuffixOrder {
  import opened MachineInts
  import opened Limbs

  /** A suffix: its mask, the prefix elements it forbids, and its three weight words. */
  datatype Suffix = Suffix(mask: u32, feLo: u32, feHi: u32, w0: u32, w1: u32, w2: u32)

  function SuffixValue(s: Suffix): nat {
    s.w2 * U64 + s.w1 * U32 + s.w0
  }

  /** The six words that are written for the kernel. */
  function SuffixWords(s: Suffix): (w: Words)
    ensures Value(w) == SuffixValue(s)
  {
    SixWords();
    WordsOfValue(SuffixValue(s), 6);
    WordsOf(SuffixValue(s), 6)
  }

  // ---------- stable sorting ----------

  datatype Pass = ByMask | ByWord(k: nat)

  /** The sort key of a pass: masks ascend, weight words descend. */
  function Rank(pass: Pass, s: Suffix): int {
    match pass
    case ByMask => s.mask
    case ByWord(k) =>
      var word: int := if k == 0 then s.w0 else if k == 1 then s.w1 else s.w2;
      -word
  }

  function InsertStable(pass: Pass, x: Suffix, s: seq<Suffix>): (r: seq<Suffix>)
    ensures multiset(r) == multiset(s) + multiset{x}
  {
    if s == [] then [x]
    else if Rank(pass, x) < Rank(pass, s[|s| - 1]) then
      assert s == s[..|s| - 1] + [s[|s| - 1]];
      InsertStable(pass, x, s[..|s| - 1]) + [s[|s| - 1]]
    else s + [x]
  }

  /** A stable sort by the key of one pass. */
  function StableSort(pass: Pass, s: seq<Suffix>): (r: seq<Suffix>)
    ensures multiset(r) == multiset(s)
  {
    if s == [] then []
    else
      assert s == s[..|s| - 1] + [s[|s| - 1]];
      InsertStable(pass, s[|s| - 1], StableSort(pass, s[..|s| - 1]))
  }

  /** Lexicographic precedence by a list of passes, ties allowed. */
  predicate Precedes(passes: seq<Pass>, x: Suffix, y: Suffix) {
    passes == []
    || Rank(passes[0], x) < Rank(passes[0], y)
    || (Rank(passes[0], x) == Rank(passes[0], y) && Precedes(passes[1..], x, y))
  }

  ghost predicate OrderedBy(passes: seq<Pass>, s: seq<Suffix>) {
    forall i, j :: 0 <= i < j < |s| ==> Precedes(passes, s[i], s[j])
  }

  lemma {:induction false} PrecedesFirst(pass: Pass, passes: seq<Pass>, x: Suffix, y: Suffix)
    ensures Precedes([pass] + passes, x, y) <==>
      Rank(pass, x) < Rank(pass, y) || (Rank(pass, x) == Rank(pass, y) && Precedes(passes, x, y))
  {
    assert ([pass] + passes)[1..] == passes;
  }

  lemma {:induction false} InsertKeepsOrder(pass: Pass, passes: seq<Pass>, x: Suffix, s: seq<Suffix>)
    requires OrderedBy([pass] + passes, s)
    requires forall y :: y in s ==> Precedes(passes, y, x)
    ensures OrderedBy([pass] + passes, InsertStable(pass, x, s))
  {
    if s == [] {
    } else if Rank(pass, x) < Rank(pass, s[|s| - 1]) {
      var rest, last := s[..|s| - 1], s[|s| - 1];
      InsertKeepsOrder(pass, passes, x, rest);
      var r := InsertStable(pass, x, rest);
      forall y | y in r ensures Precedes([pass] + passes, y, last) {
        assert y in multiset(r);
        assert y == x || y in s;
        PrecedesFirst(pass, passes, y, last);
      }
    } else {
      var last := s[|s| - 1];
      forall y | y in s ensures Precedes([pass] + passes, y, x) {
        PrecedesFirst(pass, passes, y, last);
        PrecedesFirst(pass, passes, y, x);
      }
    }
  }

  /** A stable pass makes its key the most significant one and keeps the order below it. */
  lemma {:induction false} StablePass(pass: Pass, passes: seq<Pass>, s: seq<Suffix>)
    requires OrderedBy(passes, s)
    ensures OrderedBy([pass] + passes, StableSort(pass, s))
  {
    if s != [] {
      var rest, last := s[..|s| - 1], s[|s| - 1];
      StablePass(pass, passes, rest);
      forall y | y in StableSort(pass, rest) ensures Precedes(passes, y, last) {
        assert y in multiset(rest);
      }
      InsertKeepsOrder(pass, passes, last, StableSort(pass, rest));
    }
  }

  // ---------- the suffix order ----------

  function PassesUpTo(k: nat): seq<Pass> {
    if k == 0 then [ByMask] else [ByWord(k - 1)] + PassesUpTo(k - 1)
  }

  ghost predicate Descending(s: seq<Suffix>) {
    forall i, j :: 0 <= i < j < |s| ==>
      SuffixValue(s[i]) > SuffixValue(s[j])
      || (SuffixValue(s[i]) == SuffixValue(s[j]) && s[i].mask <= s[j].mask)
  }

  lemma {:induction false} AllPassesCompareValues(x: Suffix, y: Suffix)
    requires Precedes(PassesUpTo(3), x, y)
    ensures SuffixValue(x) > SuffixValue(y)
         || (SuffixValue(x) == SuffixValue(y) && x.mask <= y.mask)
  {
    PrecedesFirst(ByWord(2), PassesUpTo(2), x, y);
    PrecedesFirst(ByWord(1), PassesUpTo(1), x, y);
    PrecedesFirst(ByWord(0), PassesUpTo(0), x, y);
    assert PassesUpTo(0) == [ByMask] + [];
    PrecedesFirst(ByMask, [], x, y);
  }

  /** Sorting by mask and then by words 0, 1 and 2 lists the suffixes by descending weight, equal
      weights by ascending mask. */
  method PrepareSuffix(suffixes: seq<Suffix>) returns (order: seq<Suffix>)
    ensures multiset(order) == multiset(suffixes)
    ensures Descending(order)
  {
    order := StableSort(ByMask, suffixes);
    assert OrderedBy([], suffixes);
    StablePass(ByMask, [], suffixes);
    assert [ByMask] + [] == PassesUpTo(0);
    for k := 0 to 3
      invariant multiset(order) == multiset(suffixes)
      invariant OrderedBy(PassesUpTo(k), order)
    {
      StablePass(ByWord(k), PassesUpTo(k), order);
      order := StableSort(ByWord(k), order);
    }
    forall i, j | 0 <= i < j < |order|
      ensures SuffixValue(order[i]) > SuffixValue(order[j])
           || (SuffixValue(order[i]) == SuffixValue(order[j]) && order[i].mask <= order[j].mask)
    {
      AllPassesCompareValues(order[i], order[j]);
    }
  }
}
