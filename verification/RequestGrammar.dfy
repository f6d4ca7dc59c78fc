/** The text of a compute request: its tokens, how they may be spelled, and how they are printed. */
module RequestGrammar {
  import opened MachineInts
  import opened LaurentReference

  const QUOTE: byte := 34
  const COMMA: byte := 44
  const MINUS: byte := 45
  const SLASH: byte := 47
  const COLON: byte := 58
  const OPEN: byte := 91
  const BACKSLASH: byte := 92
  const CLOSE: byte := 93
  const LETTER_A: byte := 97
  const LETTER_B: byte := 98
  const LBRACE: byte := 123
  const RBRACE: byte := 125

  /** ASCII whitespace; the form feed is more than JSON allows. */
  predicate Space(b: byte) {
    b == 32 || b == 9 || b == 10 || b == 12 || b == 13
  }

  predicate Digit(b: byte) {
    48 <= b <= 57
  }

  predicate Control(b: byte) {
    b < 32 || b == 127
  }

  ghost predicate AllSpace(s: seq<byte>) {
    forall i :: 0 <= i < |s| ==> Space(s[i])
  }

  ghost predicate AllDigits(s: seq<byte>) {
    forall i :: 0 <= i < |s| ==> Digit(s[i])
  }

  predicate FitsI64(x: int) {
    -0x8000_0000_0000_0000 <= x < 0x8000_0000_0000_0000
  }

  // ---------- numerals ----------

  function Magnitude(digits: seq<byte>): int {
    if digits == [] then 0
    else
      var last: int := digits[|digits| - 1];
      10 * Magnitude(digits[..|digits| - 1]) + (last - 48)
  }

  /** The number that a sign and digits denote; leading zeros are allowed. */
  function NumeralValue(text: seq<byte>): int {
    if text != [] && text[0] == MINUS then -Magnitude(text[1..]) else Magnitude(text)
  }

  /** `text` is a numeral of `v`: an optional minus and at least one digit. */
  ghost predicate Numeral(text: seq<byte>, v: int) {
    && text != []
    && (if text[0] == MINUS then |text| > 1 && AllDigits(text[1..]) else AllDigits(text))
    && v == NumeralValue(text) && FitsI64(v)
  }

  function DecimalDigits(n: nat): (r: seq<byte>)
    ensures |r| >= 1 && AllDigits(r)
    ensures Magnitude(r) == n
  {
    if n < 10 then
      assert Magnitude([48 + n][..0]) == 0;
      [48 + n]
    else
      var head := DecimalDigits(n / 10);
      assert (head + [48 + n % 10])[..|head|] == head;
      head + [48 + n % 10]
  }

  /** How an integer is printed. */
  function Decimal(v: int): (r: seq<byte>)
    ensures FitsI64(v) ==> Numeral(r, v)
  {
    if v < 0 then
      assert ([MINUS] + DecimalDigits(-v))[1..] == DecimalDigits(-v);
      [MINUS] + DecimalDigits(-v)
    else DecimalDigits(v)
  }

  // ---------- tokens ----------

  datatype Token = Punct(mark: byte) | Name(letter: byte) | Number(value: int)

  ghost predicate Writes(text: seq<byte>, t: Token) {
    match t
    case Punct(mark) => text == [mark]
    case Name(letter) => text == [QUOTE, letter, QUOTE]
    case Number(v) => Numeral(text, v)
  }

  /** White space, then the token, in the first `e` bytes. */
  ghost predicate TokenAt(s: seq<byte>, w: nat, e: nat, t: Token) {
    w < e <= |s| && AllSpace(s[..w]) && Writes(s[w..e], t)
  }

  /** `s` spells the tokens, with any white space before each and after the last. */
  ghost predicate Spells(s: seq<byte>, tokens: seq<Token>)
    decreases |tokens|
  {
    if tokens == [] then AllSpace(s)
    else exists w: nat, e: nat :: TokenAt(s, w, e, tokens[0]) && Spells(s[e..], tokens[1..])
  }

  /** The tokens of a term, then `more`. */
  function TermTokens(t: Triple, more: seq<Token>): seq<Token> {
    [Punct(OPEN)] + NumberTokens(t.qe, COMMA, NumberTokens(t.te, COMMA, NumberTokens(t.coef, CLOSE, more)))
  }

  function NumberTokens(v: int, mark: byte, more: seq<Token>): seq<Token> {
    [Number(v)] + ([Punct(mark)] + more)
  }

  /** The terms of a nonempty list after its opening bracket, with its closing bracket. */
  function TermsTokens(terms: seq<Triple>, more: seq<Token>): seq<Token>
    requires terms != []
  {
    TermTokens(terms[0],
      if |terms| == 1 then [Punct(CLOSE)] + more else [Punct(COMMA)] + TermsTokens(terms[1..], more))
  }

  function ArrayTokens(terms: seq<Triple>, more: seq<Token>): seq<Token> {
    [Punct(OPEN)] + if terms == [] then [Punct(CLOSE)] + more else TermsTokens(terms, more)
  }

  function FieldTokens(letter: byte, terms: seq<Triple>, more: seq<Token>): seq<Token> {
    [Name(letter)] + ([Punct(COLON)] + ArrayTokens(terms, more))
  }

  /** A request with its fields in either order. */
  function RequestTokens(a: seq<Triple>, b: seq<Triple>, aFirst: bool): seq<Token> {
    if aFirst then PairTokens(LETTER_A, a, LETTER_B, b) else PairTokens(LETTER_B, b, LETTER_A, a)
  }

  function PairTokens(x: byte, first: seq<Triple>, y: byte, second: seq<Triple>): seq<Token> {
    [Punct(LBRACE)] + FieldTokens(x, first, [Punct(COMMA)] + FieldTokens(y, second, [Punct(RBRACE)]))
  }

  /** `s` is a request for the product of `a` and `b`. */
  ghost predicate IsRequest(s: seq<byte>, a: seq<Triple>, b: seq<Triple>) {
    && |a| <= WIDTH && |b| <= WIDTH
    && (Spells(s, RequestTokens(a, b, true)) || Spells(s, RequestTokens(a, b, false)))
  }

  // ---------- joining ----------

  lemma {:induction false} SpellsIntro(s: seq<byte>, w: nat, e: nat, tokens: seq<Token>)
    requires tokens != [] && TokenAt(s, w, e, tokens[0]) && Spells(s[e..], tokens[1..])
    ensures Spells(s, tokens)
  {
  }

  lemma {:induction false} SpellsElim(s: seq<byte>, tokens: seq<Token>) returns (w: nat, e: nat)
    requires tokens != [] && Spells(s, tokens)
    ensures TokenAt(s, w, e, tokens[0]) && Spells(s[e..], tokens[1..])
  {
    w, e :| TokenAt(s, w, e, tokens[0]) && Spells(s[e..], tokens[1..]);
  }

  lemma {:induction false} TokenShift(gap: seq<byte>, s: seq<byte>, w: nat, e: nat, t: Token)
    requires AllSpace(gap) && TokenAt(s, w, e, t)
    ensures TokenAt(gap + s, |gap| + w, |gap| + e, t) && (gap + s)[|gap| + e..] == s[e..]
  {
    var n := |gap|;
    assert (gap + s)[..n + w] == gap + s[..w];
    assert (gap + s)[n + w..n + e] == s[w..e];
  }

  /** White space in front changes nothing. */
  lemma {:induction false} SpellsAfterSpace(gap: seq<byte>, s: seq<byte>, tokens: seq<Token>)
    requires AllSpace(gap) && Spells(s, tokens)
    ensures Spells(gap + s, tokens)
  {
    if tokens != [] {
      var w, e := SpellsElim(s, tokens);
      TokenShift(gap, s, w, e, tokens[0]);
      SpellsIntro(gap + s, |gap| + w, |gap| + e, tokens);
    }
  }

  /** A token in front. */
  lemma {:induction false} SpellsCons(s: seq<byte>, w: nat, e: nat, t: Token, more: seq<Token>)
    requires TokenAt(s, w, e, t) && Spells(s[e..], more)
    ensures Spells(s, [t] + more)
  {
    assert ([t] + more)[1..] == more;
    SpellsIntro(s, w, e, [t] + more);
  }

  /** A token exactly written in front. */
  lemma {:induction false} SpellsPut(text: seq<byte>, t: Token, s: seq<byte>, more: seq<Token>)
    requires Writes(text, t) && Spells(s, more)
    ensures Spells(text + s, [t] + more)
  {
    var e := |text|;
    assert (text + s)[0..e] == text && (text + s)[e..] == s;
    WrittenIsNonempty(text, t);
    SpellsCons(text + s, 0, e, t, more);
  }

  lemma {:induction false} WrittenIsNonempty(text: seq<byte>, t: Token)
    requires Writes(text, t)
    ensures text != []
  {
  }

  // ---------- printing ----------

  /** How a token is printed. */
  function Print(t: Token): seq<byte> {
    match t
    case Punct(mark) => [mark]
    case Name(letter) => [QUOTE, letter, QUOTE]
    case Number(v) => Decimal(v)
  }

  predicate Printable(t: Token) {
    t.Number? ==> FitsI64(t.value)
  }

  /** The tokens printed with the given white space before each and after the last. */
  function Printed(tokens: seq<Token>, gaps: seq<seq<byte>>): seq<byte>
    requires |gaps| == |tokens| + 1
  {
    if tokens == [] then gaps[0] else gaps[0] + Print(tokens[0]) + Printed(tokens[1..], gaps[1..])
  }

  /** Any spacing of the printed tokens spells them. */
  lemma {:induction false} PrintedSpells(tokens: seq<Token>, gaps: seq<seq<byte>>)
    requires |gaps| == |tokens| + 1
    requires forall i :: 0 <= i < |tokens| ==> Printable(tokens[i])
    requires forall i :: 0 <= i < |gaps| ==> AllSpace(gaps[i])
    ensures Spells(Printed(tokens, gaps), tokens)
    decreases |tokens|
  {
    if tokens != [] {
      var text, rest := Print(tokens[0]), Printed(tokens[1..], gaps[1..]);
      PrintedSpells(tokens[1..], gaps[1..]);
      SpellsPut(text, tokens[0], rest, tokens[1..]);
      SpellsAfterSpace(gaps[0], text + rest, [tokens[0]] + tokens[1..]);
      assert [tokens[0]] + tokens[1..] == tokens;
      assert gaps[0] + text + rest == gaps[0] + (text + rest);
    }
  }

  /** One term of `terms_json`. */
  function TermJson(t: Triple): seq<byte> {
    [OPEN] + (Decimal(t.qe) + ([COMMA] + (Decimal(t.te) + ([COMMA] + (Decimal(t.coef) + [CLOSE])))))
  }

  /** `terms_json`: the terms joined with commas. */
  function TermsJson(terms: seq<Triple>): seq<byte> {
    if terms == [] then []
    else if |terms| == 1 then TermJson(terms[0])
    else TermJson(terms[0]) + ([COMMA] + TermsJson(terms[1..]))
  }

  function FieldJson(letter: byte, terms: seq<Triple>, tail: seq<byte>): seq<byte> {
    [QUOTE, letter, QUOTE] + ([COLON] + ([OPEN] + (TermsJson(terms) + ([CLOSE] + tail))))
  }

  /** A request with the printed terms, `a` first. */
  function RequestJson(a: seq<Triple>, b: seq<Triple>): seq<byte> {
    [LBRACE] + FieldJson(LETTER_A, a, [COMMA] + FieldJson(LETTER_B, b, [RBRACE]))
  }

  lemma {:induction false} Regroup(x: seq<byte>, y: seq<byte>, z: seq<byte>)
    ensures (x + y) + z == x + (y + z)
  {
  }

  lemma {:induction false} SpellsMark(mark: byte, s: seq<byte>, more: seq<Token>)
    requires Spells(s, more)
    ensures Spells([mark] + s, [Punct(mark)] + more)
  {
    SpellsPut([mark], Punct(mark), s, more);
  }

  lemma {:induction false} SpellsNumber(v: int, mark: byte, s: seq<byte>, more: seq<Token>)
    requires FitsI64(v) && Spells(s, more)
    ensures Spells(Decimal(v) + ([mark] + s), NumberTokens(v, mark, more))
  {
    SpellsMark(mark, s, more);
    SpellsPut(Decimal(v), Number(v), [mark] + s, [Punct(mark)] + more);
  }

  lemma {:induction false} SpellsTerm(t: Triple, s: seq<byte>, more: seq<Token>)
    requires Spells(s, more)
    ensures Spells(TermJson(t) + s, TermTokens(t, more))
  {
    var s3 := Decimal(t.coef) + ([CLOSE] + s);
    var s2 := Decimal(t.te) + ([COMMA] + s3);
    var s1 := Decimal(t.qe) + ([COMMA] + s2);
    var m3 := NumberTokens(t.coef, CLOSE, more);
    var m2 := NumberTokens(t.te, COMMA, m3);
    SpellsNumber(t.coef, CLOSE, s, more);
    SpellsNumber(t.te, COMMA, s3, m3);
    SpellsNumber(t.qe, COMMA, s2, m2);
    SpellsMark(OPEN, s1, NumberTokens(t.qe, COMMA, m2));
    TermJsonThen(t, s);
  }

  lemma {:induction false} TermJsonThen(t: Triple, s: seq<byte>)
    ensures TermJson(t) + s
         == [OPEN] + (Decimal(t.qe) + ([COMMA] + (Decimal(t.te) + ([COMMA] + (Decimal(t.coef) + ([CLOSE] + s))))))
  {
    var x3 := Decimal(t.coef) + [CLOSE];
    var x2 := Decimal(t.te) + ([COMMA] + x3);
    var x1 := Decimal(t.qe) + ([COMMA] + x2);
    Regroup(Decimal(t.coef), [CLOSE], s);
    Regroup([COMMA], x3, s);
    Regroup(Decimal(t.te), [COMMA] + x3, s);
    Regroup([COMMA], x2, s);
    Regroup(Decimal(t.qe), [COMMA] + x2, s);
    Regroup([OPEN], x1, s);
  }

  lemma {:induction false} SpellsTerms(terms: seq<Triple>, s: seq<byte>, more: seq<Token>)
    requires terms != [] && Spells(s, more)
    ensures Spells(TermsJson(terms) + ([CLOSE] + s), TermsTokens(terms, more))
    decreases |terms|
  {
    if |terms| == 1 {
      SpellsMark(CLOSE, s, more);
      SpellsTerm(terms[0], [CLOSE] + s, [Punct(CLOSE)] + more);
    } else {
      SpellsTerms(terms[1..], s, more);
      SpellsNextTerm(terms, [CLOSE] + s, TermsTokens(terms[1..], more));
    }
  }

  lemma {:induction false} SpellsNextTerm(terms: seq<Triple>, s: seq<byte>, tokens: seq<Token>)
    requires |terms| > 1 && Spells(TermsJson(terms[1..]) + s, tokens)
    ensures Spells(TermsJson(terms) + s, TermTokens(terms[0], [Punct(COMMA)] + tokens))
  {
    var head, tail := TermJson(terms[0]), TermsJson(terms[1..]);
    SpellsMark(COMMA, tail + s, tokens);
    SpellsTerm(terms[0], [COMMA] + (tail + s), [Punct(COMMA)] + tokens);
    Regroup(head, [COMMA] + tail, s);
    Regroup([COMMA], tail, s);
  }

  lemma {:induction false} SpellsField(letter: byte, terms: seq<Triple>, s: seq<byte>, more: seq<Token>)
    requires Spells(s, more)
    ensures Spells(FieldJson(letter, terms, s), FieldTokens(letter, terms, more))
  {
    var list := TermsJson(terms) + ([CLOSE] + s);
    if terms == [] {
      SpellsMark(CLOSE, s, more);
      assert list == [CLOSE] + s;
      SpellsMark(OPEN, list, [Punct(CLOSE)] + more);
    } else {
      SpellsTerms(terms, s, more);
      SpellsMark(OPEN, list, TermsTokens(terms, more));
    }
    SpellsMark(COLON, [OPEN] + list, ArrayTokens(terms, more));
    SpellsPut([QUOTE, letter, QUOTE], Name(letter), [COLON] + ([OPEN] + list),
              [Punct(COLON)] + ArrayTokens(terms, more));
  }

  /** A printed request is a request. */
  lemma {:induction false} PrintedIsRequest(a: seq<Triple>, b: seq<Triple>)
    ensures Spells(RequestJson(a, b), RequestTokens(a, b, true))
  {
    SpellsOne([RBRACE], Punct(RBRACE));
    var second, secondTokens := FieldJson(LETTER_B, b, [RBRACE]), FieldTokens(LETTER_B, b, [Punct(RBRACE)]);
    SpellsField(LETTER_B, b, [RBRACE], [Punct(RBRACE)]);
    SpellsMark(COMMA, second, secondTokens);
    SpellsField(LETTER_A, a, [COMMA] + second, [Punct(COMMA)] + secondTokens);
    SpellsMark(LBRACE, FieldJson(LETTER_A, a, [COMMA] + second),
               FieldTokens(LETTER_A, a, [Punct(COMMA)] + secondTokens));
  }

  lemma {:induction false} SpellsOne(text: seq<byte>, t: Token)
    requires Writes(text, t)
    ensures Spells(text, [t])
  {
    assert Spells([], []);
    SpellsPut(text, t, [], []);
    assert text + [] == text && [t] + [] == [t];
  }
}
