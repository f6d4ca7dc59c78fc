/** Numbers held in u32 words, least significant first: the six-word carry chain of the kernels, the
    three-limb 64-bit adder it is checked against, and multiplication, division and comparison. */
module Limbs {
  import opened MachineInts
  import NT = NumberTheory

  type Words = w: seq<u32> | |w| == 6 witness [0, 0, 0, 0, 0, 0]

  const TWO_192 := 0x1_0000_0000_0000_0000_0000_0000_0000_0000_0000_0000_0000_0000

  const ZERO: Words := [0, 0, 0, 0, 0, 0]

  function Value(w: seq<u32>): (v: nat) {
    if w == [] then 0 else w[0] + U32 * Value(w[1..])
  }

  function Base(n: nat): (r: nat)
    ensures r > 0
  {
    if n == 0 then 1 else U32 * Base(n - 1)
  }

  lemma {:induction false} ValueBound(w: seq<u32>)
    ensures Value(w) < Base(|w|)
  {
    if w != [] { ValueBound(w[1..]); }
  }

  lemma {:induction false} ValueInjective(u: seq<u32>, v: seq<u32>)
    requires |u| == |v| && Value(u) == Value(v)
    ensures u == v
  {
    if u != [] {
      ValueInjective(u[1..], v[1..]);
      assert u == [u[0]] + u[1..] && v == [v[0]] + v[1..];
    }
  }

  // ---------- addition ----------

  datatype Sum = Sum(word: u32, carry: u32)
  datatype Chain = Chain(words: seq<u32>, carry: u32)

  /** `add_word`: two wrapping additions, whose carries are joined by an or. */
  function AddWord(a: u32, b: u32, carry: u32): (r: Sum)
    requires carry <= 1
    ensures r.carry <= 1
    ensures r.word + U32 * r.carry == a + b + carry
  {
    var xy := WrapU32(a + b);
    var cXy := xy < a;
    var s := WrapU32(xy + carry);
    var cXc := s < xy;
    Sum(s, if cXy || cXc then 1 else 0)
  }

  /** The two partial carries of a word are never both set, so the or loses nothing. */
  lemma {:induction false} PartialCarriesExclusive(a: u32, b: u32, carry: u32)
    requires carry <= 1
    ensures !(WrapU32(a + b) < a && WrapU32(WrapU32(a + b) + carry) < WrapU32(a + b))
  {
  }

  function AddChain(a: seq<u32>, b: seq<u32>, carry: u32): (r: Chain)
    requires |a| == |b| && carry <= 1
    ensures |r.words| == |a| && r.carry <= 1
  {
    if a == [] then Chain([], carry)
    else
      var s := AddWord(a[0], b[0], carry);
      var rest := AddChain(a[1..], b[1..], s.carry);
      Chain([s.word] + rest.words, rest.carry)
  }

  /** A chain of any length adds; what does not fit is the last carry. */
  lemma {:induction false} AddChainValue(a: seq<u32>, b: seq<u32>, carry: u32)
    requires |a| == |b| && carry <= 1
    ensures var r := AddChain(a, b, carry);
            Value(r.words) + (if r.carry == 1 then Base(|a|) else 0) == Value(a) + Value(b) + carry
  {
    if a != [] {
      var s := AddWord(a[0], b[0], carry);
      var rest := AddChain(a[1..], b[1..], s.carry);
      AddChainValue(a[1..], b[1..], s.carry);
      assert ([s.word] + rest.words)[1..] == rest.words;
    }
  }

  lemma {:induction false} AddChainAt(a: seq<u32>, b: seq<u32>, i: nat, carry: u32)
    requires |a| == |b| && i < |a| && carry <= 1
    ensures var s := AddWord(a[i], b[i], carry); var rest := AddChain(a[i + 1..], b[i + 1..], s.carry);
            AddChain(a[i..], b[i..], carry) == Chain([s.word] + rest.words, rest.carry)
  {
    assert a[i..][1..] == a[i + 1..] && b[i..][1..] == b[i + 1..];
  }

  lemma {:induction false} SixWords()
    ensures Base(6) == Base64(3) == TWO_192
  {
    assert Base(2) == U64 && Base(4) == U64 * U64;
    assert Base64(1) == U64 && Base64(2) == U64 * U64;
  }

  lemma {:induction false} WordsBound(w: Words)
    ensures Value(w) < TWO_192
  {
    ValueBound(w);
    SixWords();
  }

  lemma {:induction false} AddModulo(a: Words, b: Words)
    ensures Value(AddChain(a, b, 0).words) == (Value(a) + Value(b)) % TWO_192
  {
    AddChainValue(a, b, 0);
    WordsBound(AddChain(a, b, 0).words);
    SixWords();
    LowPart(Value(AddChain(a, b, 0).words), AddChain(a, b, 0).carry, Value(a) + Value(b));
  }

  /** `wgsl_add`: the carry loop; the sum modulo 2^192. */
  method WgslAdd(a: Words, b: Words) returns (out: Words)
    ensures out == AddChain(a, b, 0).words
    ensures Value(out) == (Value(a) + Value(b)) % TWO_192
  {
    var sum: seq<u32> := [];
    var carry: u32 := 0;
    ghost var all := AddChain(a, b, 0);
    assert a[0..] == a && b[0..] == b;
    for i := 0 to 6
      invariant carry <= 1 && |sum| == i
      invariant forall k :: 0 <= k < i ==> sum[k] == all.words[k]
      invariant all.words[i..] == AddChain(a[i..], b[i..], carry).words
    {
      AddChainAt(a, b, i, carry);
      assert all.words[i] == all.words[i..][0] && all.words[i + 1..] == all.words[i..][1..];
      var s := AddWord(a[i], b[i], carry);
      sum := sum + [s.word];
      carry := s.carry;
    }
    out := sum;
    assert out == all.words;
    AddModulo(a, b);
  }

  // ---------- the 64-bit reference ----------

  function Value64(x: seq<u64>): nat {
    if x == [] then 0 else x[0] + U64 * Value64(x[1..])
  }

  function Pack64(w: seq<u32>): (x: seq<u64>)
    requires |w| % 2 == 0
    ensures |x| == |w| / 2
    ensures Value64(x) == Value(w)
  {
    if w == [] then []
    else
      assert Value(w[1..]) == w[1] + U32 * Value(w[1..][1..]) && w[1..][1..] == w[2..];
      [w[0] + U32 * w[1]] + Pack64(w[2..])
  }

  function Unpack64(x: seq<u64>): (w: seq<u32>)
    ensures |w| == 2 * |x|
    ensures Value(w) == Value64(x)
  {
    if x == [] then []
    else
      var low, high, rest := x[0] % U32, x[0] / U32, Unpack64(x[1..]);
      assert ([low, high] + rest)[1..] == [high] + rest && ([high] + rest)[1..] == rest;
      [low, high] + rest
  }

  datatype Chain64 = Chain64(limbs: seq<u64>, carry: u64)

  datatype LimbSum = LimbSum(limb: u64, carry: u64)

  /** One 128-bit sum, cut into a limb and a carry. */
  function AddLimb(a: u64, b: u64, carry: u64): (r: LimbSum)
    requires carry <= 1
    ensures r.carry <= 1
    ensures r.limb + U64 * r.carry == a + b + carry
  {
    LimbSum((a + b + carry) % U64, (a + b + carry) / U64)
  }

  function AddChain64(a: seq<u64>, b: seq<u64>, carry: u64): (r: Chain64)
    requires |a| == |b| && carry <= 1
    ensures |r.limbs| == |a| && r.carry <= 1
  {
    if a == [] then Chain64([], carry)
    else
      var s := AddLimb(a[0], b[0], carry);
      var rest := AddChain64(a[1..], b[1..], s.carry);
      Chain64([s.limb] + rest.limbs, rest.carry)
  }

  function Base64(n: nat): nat {
    if n == 0 then 1 else U64 * Base64(n - 1)
  }

  lemma {:induction false} AddChain64Value(a: seq<u64>, b: seq<u64>, carry: u64)
    requires |a| == |b| && carry <= 1
    ensures var r := AddChain64(a, b, carry);
            Value64(r.limbs) + (if r.carry == 1 then Base64(|a|) else 0)
            == Value64(a) + Value64(b) + carry
  {
    if a != [] {
      var s := AddLimb(a[0], b[0], carry);
      var rest := AddChain64(a[1..], b[1..], s.carry);
      AddChain64Value(a[1..], b[1..], s.carry);
      assert ([s.limb] + rest.limbs)[1..] == rest.limbs;
    }
  }

  lemma {:induction false} AddChain64At(a: seq<u64>, b: seq<u64>, i: nat, carry: u64)
    requires |a| == |b| && i < |a| && carry <= 1
    ensures var s := AddLimb(a[i], b[i], carry); var rest := AddChain64(a[i + 1..], b[i + 1..], s.carry);
            AddChain64(a[i..], b[i..], carry) == Chain64([s.limb] + rest.limbs, rest.carry)
  {
    assert a[i..][1..] == a[i + 1..] && b[i..][1..] == b[i + 1..];
  }

  /** `reference_add64`. */
  method ReferenceAdd64(a: Words, b: Words) returns (out: Words)
    ensures Value(out) == (Value(a) + Value(b)) % TWO_192
  {
    var x, y := Pack64(a), Pack64(b);
    ghost var all := AddChain64(x, y, 0);
    assert x[0..] == x && y[0..] == y;
    var limbs: seq<u64> := [];
    var carry: u64 := 0;
    for i := 0 to 3
      invariant carry <= 1 && |limbs| == i
      invariant forall k :: 0 <= k < i ==> limbs[k] == all.limbs[k]
      invariant all.limbs[i..] == AddChain64(x[i..], y[i..], carry).limbs
    {
      assert all.limbs[i] == all.limbs[i..][0] && all.limbs[i + 1..] == all.limbs[i..][1..];
      AddChain64At(x, y, i, carry);
      var s := AddLimb(x[i], y[i], carry);
      limbs := limbs + [s.limb];
      carry := s.carry;
    }
    assert limbs == all.limbs;
    out := Unpack64(limbs);
    ReferenceModulo(a, b);
  }

  lemma {:induction false} ReferenceModulo(a: Words, b: Words)
    ensures Value(Unpack64(AddChain64(Pack64(a), Pack64(b), 0).limbs)) == (Value(a) + Value(b)) % TWO_192
  {
    var r := AddChain64(Pack64(a), Pack64(b), 0);
    AddChain64Value(Pack64(a), Pack64(b), 0);
    WordsBound(Unpack64(r.limbs));
    SixWords();
    LowPart(Value(Unpack64(r.limbs)), r.carry, Value(a) + Value(b));
  }

  /** Both adders give the same words. */
  method AddersAgree(a: Words, b: Words) returns (kernel: Words, reference: Words)
    ensures kernel == reference
    ensures Value(kernel) == (Value(a) + Value(b)) % TWO_192
  {
    kernel := WgslAdd(a, b);
    reference := ReferenceAdd64(a, b);
    ValueInjective(kernel, reference);
  }

  // ---------- multiplication and division by a word ----------

  /** One step of `mul_word`: a 64-bit product with carry. */
  function MulStep(w: u32, m: u32, carry: u32): (r: Sum)
    ensures r.word + U32 * r.carry == w * m + carry < U64
  {
    NT.MulMono(w, m, U32 - 1);
    NT.MulMono(U32 - 1, w, U32 - 1);
    Split64(w * m, carry)
  }

  function Split64(p: nat, carry: u32): (r: Sum)
    requires p <= (U32 - 1) * (U32 - 1)
    ensures r.word + U32 * r.carry == p + carry < U64
  {
    Sum((p + carry) % U32, (p + carry) / U32)
  }

  function MulChain(l: seq<u32>, m: u32, carry: u32): (r: Chain)
    ensures |r.words| == |l|
  {
    if l == [] then Chain([], carry)
    else
      var t := MulStep(l[0], m, carry);
      var rest := MulChain(l[1..], m, t.carry);
      Chain([t.word] + rest.words, rest.carry)
  }

  lemma {:induction false} MulChainValue(l: seq<u32>, m: u32, carry: u32)
    ensures var r := MulChain(l, m, carry);
            Value(r.words) + Base(|l|) * r.carry == Value(l) * m + carry
  {
    if l != [] {
      var t := MulStep(l[0], m, carry);
      var rest := MulChain(l[1..], m, t.carry);
      MulChainValue(l[1..], m, t.carry);
      assert ([t.word] + rest.words)[1..] == rest.words;
      Distribute(l[0], Value(l[1..]), m);
      NT.MulAssoc(U32, Base(|l| - 1), rest.carry);
    }
  }

  lemma {:induction false} Distribute(low: nat, high: nat, m: nat)
    ensures (low + U32 * high) * m == low * m + U32 * (high * m)
  {
    NT.MulSplit(m, low, U32 * high);
    NT.MulAssoc(U32, high, m);
  }

  lemma {:induction false} MulChainAt(l: seq<u32>, i: nat, m: u32, carry: u32)
    requires i < |l|
    ensures var t := MulStep(l[i], m, carry); var rest := MulChain(l[i + 1..], m, t.carry);
            MulChain(l[i..], m, carry) == Chain([t.word] + rest.words, rest.carry)
  {
    assert l[i..][1..] == l[i + 1..];
  }

  lemma {:induction false} MulModulo(w: Words, m: u32)
    ensures Value(MulChain(w, m, 0).words) == (Value(w) * m) % TWO_192
  {
    var r := MulChain(w, m, 0);
    MulChainValue(w, m, 0);
    SixWords();
    WordsBound(r.words);
    LowPart(Value(r.words), r.carry, Value(w) * m);
  }

  lemma {:induction false} LowPart(low: nat, carry: nat, n: nat)
    requires low < TWO_192 && low + TWO_192 * carry == n
    ensures n % TWO_192 == low
  {
  }

  /** `mul_word`, in place; the final carry is dropped. */
  method MulWord(l: array<u32>, m: u32)
    requires l.Length == 6
    modifies l
    ensures Value(l[..]) == (Value(old(l[..])) * m) % TWO_192
  {
    ghost var w := l[..];
    ghost var all := MulChain(w, m, 0);
    assert w[0..] == w;
    var carry: u32 := 0;
    for i := 0 to 6
      invariant forall k :: 0 <= k < i ==> l[k] == all.words[k]
      invariant all.words[i..] == MulChain(w[i..], m, carry).words
      invariant forall k :: i <= k < 6 ==> l[k] == w[k]
    {
      MulChainAt(w, i, m, carry);
      var t := MulStep(l[i], m, carry);
      assert all.words[i] == all.words[i..][0] && all.words[i + 1..] == all.words[i..][1..];
      l[i] := t.word;
      carry := t.carry;
    }
    assert l[..] == all.words;
    MulModulo(w, m);
  }

  datatype WordDivision = WordDivision(quot: u32, rem: nat)
  datatype Division = Division(words: seq<u32>, rem: nat)

  /** One step of `div_word`: the remainder so far and the next word by `d`. */
  function DivStep(rem: nat, w: u32, d: u32): (r: WordDivision)
    requires rem < d
    ensures r.rem < d
    ensures r.quot * d + r.rem == rem * U32 + w < U64
  {
    var cur := rem * U32 + w;
    QuotientFits(cur, d);
    WordDivision(cur / d, cur % d)
  }

  lemma {:induction false} QuotientFits(cur: nat, d: u32)
    requires cur < d * U32
    ensures 0 <= cur / d < U32
    ensures (cur / d) * d + cur % d == cur
  {
    var q := cur / d;
    if q >= U32 { NT.MulMono(d, U32, q); }
  }

  /** Long division from the high word down. */
  function DivChain(l: seq<u32>, d: u32): (r: Division)
    requires d > 0
    ensures |r.words| == |l| && r.rem < d
  {
    if l == [] then Division([], 0)
    else
      var high := DivChain(l[1..], d);
      var s := DivStep(high.rem, l[0], d);
      Division([s.quot] + high.words, s.rem)
  }

  lemma {:induction false} DivChainValue(l: seq<u32>, d: u32)
    requires d > 0
    ensures Value(DivChain(l, d).words) * d + DivChain(l, d).rem == Value(l)
  {
    if l != [] {
      DivChainValue(l[1..], d);
      var high := DivChain(l[1..], d);
      var s := DivStep(high.rem, l[0], d);
      assert ([s.quot] + high.words)[1..] == high.words;
      Distribute(s.quot, Value(high.words), d);
    }
  }

  lemma {:induction false} DivChainAt(l: seq<u32>, i: nat, d: u32)
    requires i < |l| && d > 0
    ensures var high := DivChain(l[i + 1..], d); var s := DivStep(high.rem, l[i], d);
            DivChain(l[i..], d) == Division([s.quot] + high.words, s.rem)
  {
    assert l[i..][1..] == l[i + 1..];
  }

  lemma {:induction false} DivExact(w: seq<u32>, d: u32)
    requires d > 0
    ensures Value(DivChain(w, d).words) == Value(w) / d
  {
    var r := DivChain(w, d);
    DivChainValue(w, d);
    NT.QuotientUnique(Value(w), d, Value(r.words), r.rem);
  }

  /** `div_word`, in place. */
  method DivWord(l: array<u32>, d: u32)
    requires l.Length == 6 && d > 0
    modifies l
    ensures Value(l[..]) == Value(old(l[..])) / d
  {
    ghost var w := l[..];
    var rem: nat := 0;
    var i := 6;
    while i > 0
      invariant 0 <= i <= 6 && rem < d
      invariant l[..i] == w[..i]
      invariant Division(l[i..], rem) == DivChain(w[i..], d)
    {
      i := i - 1;
      DivChainAt(w, i, d);
      assert l[i] == l[..i + 1][i] == w[i];
      var s := DivStep(rem, l[i], d);
      ghost var done := l[i + 1..];
      l[i] := s.quot;
      rem := s.rem;
      assert l[i..] == [s.quot] + done;
    }
    assert l[..] == l[0..] && w == w[0..];
    DivExact(w, d);
  }

  // ---------- comparison ----------

  /** The highest word in which two numbers differ decides. */
  lemma {:induction false} HighestDifference(a: seq<u32>, b: seq<u32>, i: nat)
    requires |a| == |b| && i < |a|
    requires a[i + 1..] == b[i + 1..] && a[i] > b[i]
    ensures Value(a) > Value(b)
  {
    if i > 0 {
      HighestDifference(a[1..], b[1..], i - 1);
    }
  }

  /** `lex_gt`: compare from the high word down. */
  method LexGt(a: Words, b: Words) returns (r: bool)
    ensures r <==> Value(a) > Value(b)
  {
    var i := 6;
    while i > 0
      invariant 0 <= i <= 6
      invariant a[i..] == b[i..]
    {
      i := i - 1;
      if a[i] != b[i] {
        if a[i] > b[i] { HighestDifference(a, b, i); } else { HighestDifference(b, a, i); }
        return a[i] > b[i];
      }
      assert a[i..] == [a[i]] + a[i + 1..] && b[i..] == [b[i]] + b[i + 1..];
    }
    assert a == a[0..] && b == b[0..];
    r := false;
  }

  /** `words_to_bigint`: shift and or from the high word down. */
  method WordsToBigint(w: Words) returns (v: nat)
    ensures v == Value(w)
  {
    v := 0;
    var i := 6;
    while i > 0
      invariant 0 <= i <= 6
      invariant v == Value(w[i..])
    {
      i := i - 1;
      assert w[i..][1..] == w[i + 1..];
      v := v * U32 + w[i];
    }
    assert w == w[0..];
  }

  /** Lexicographic order on tuples, first component first. */
  predicate TupleGreater(x: seq<u32>, y: seq<u32>)
    requires |x| == |y|
  {
    x != [] && (x[0] > y[0] || (x[0] == y[0] && TupleGreater(x[1..], y[1..])))
  }

  function Reversed<T>(w: seq<T>): (r: seq<T>)
    ensures |r| == |w|
    ensures forall i :: 0 <= i < |w| ==> r[i] == w[|w| - 1 - i]
  {
    if w == [] then [] else [w[|w| - 1]] + Reversed(w[..|w| - 1])
  }

  lemma {:induction false} ValueAppend(w: seq<u32>, x: u32)
    ensures Value(w + [x]) == Value(w) + Base(|w|) * x
  {
    if w != [] {
      assert (w + [x])[1..] == w[1..] + [x];
      ValueAppend(w[1..], x);
      NT.MulAssoc(U32, Base(|w| - 1), x);
    }
  }

  /** The reversed tuple is a numeric key. */
  lemma {:induction false} ReversedKeyOrder(a: seq<u32>, b: seq<u32>)
    requires |a| == |b|
    ensures TupleGreater(Reversed(a), Reversed(b)) <==> Value(a) > Value(b)
  {
    if a != [] {
      var n := |a| - 1;
      var a', b' := a[..n], b[..n];
      assert a == a' + [a[n]] && b == b' + [b[n]];
      ReversedKeyOrder(a', b');
      assert Reversed(a)[1..] == Reversed(a') && Reversed(b)[1..] == Reversed(b');
      if a[n] > b[n] {
        HighestDifference(a, b, n);
      } else if a[n] < b[n] {
        HighestDifference(b, a, n);
      } else {
        ValueAppend(a', a[n]);
        ValueAppend(b', b[n]);
      }
    }
  }

  // ---------- from integers ----------

  /** The words of `x`, low word first: word `k` is `(x >> 32 k) & 0xffffffff`. */
  function WordsOf(x: nat, n: nat): (w: seq<u32>)
    ensures |w| == n
  {
    if n == 0 then [] else [x % U32] + WordsOf(x / U32, n - 1)
  }

  lemma {:induction false} WordAt(x: nat, n: nat, k: nat)
    requires k < n
    ensures WordsOf(x, n)[k] == (x / Base(k)) % U32
  {
    if k > 0 {
      WordAt(x / U32, n - 1, k - 1);
      DivideTwice(x, Base(k - 1));
    }
  }

  lemma {:induction false} DivideTwice(x: nat, b: nat)
    requires b > 0
    ensures (x / U32) / b == x / (U32 * b)
  {
    var q := (x / U32) / b;
    var r, s := x % U32, (x / U32) % b;
    assert x == U32 * (b * q + s) + r;
    NT.MulAssoc(U32, b, q);
    NT.RemainderUnique(x, U32 * b, q, U32 * s + r);
  }

  lemma {:induction false} WordsOfValue(x: nat, n: nat)
    requires x < Base(n)
    ensures Value(WordsOf(x, n)) == x
  {
    if n > 0 {
      WordsOfValue(x / U32, n - 1);
      assert WordsOf(x, n)[1..] == WordsOf(x / U32, n - 1);
    }
  }

  /** Six-word values and the integers below 2^192 are in bijection. */
  lemma {:induction false} WordsBijection(x: nat, w: Words)
    requires x < TWO_192
    ensures Value(WordsOf(x, 6)) == x
    ensures WordsOf(Value(w), 6) == w
  {
    SixWords();
    WordsOfValue(x, 6);
    WordsBound(w);
    WordsOfValue(Value(w), 6);
    ValueInjective(WordsOf(Value(w), 6), w);
  }
}
