/** Everything the parser accepts is a request of the grammar, so parsing and printing are inverse. */
module RequestRoundTrip {
  import opened Options
  import opened MachineInts
  import opened LaurentReference
  import opened RequestGrammar
  import opened RequestParser

  // ---------- soundness: what is read was spelled ----------

  lemma {:induction false} SkippedSpaces(s: seq<byte>)
    ensures AllSpace(s[..Spaces(s)])
  {
    if s != [] && Space(s[0]) {
      SkippedSpaces(s[1..]);
      assert s[..Spaces(s)] == [s[0]] + s[1..][..Spaces(s[1..])];
    }
  }

  lemma {:induction false} RunOfDigits(s: seq<byte>)
    ensures AllDigits(s[..DigitRun(s)])
  {
    if s != [] && Digit(s[0]) {
      RunOfDigits(s[1..]);
      assert s[..DigitRun(s)] == [s[0]] + s[1..][..DigitRun(s[1..])];
    }
  }

  lemma {:induction false} MarkSpelled(s: seq<byte>, mark: byte, after: seq<byte>, more: seq<Token>)
    requires After(s, mark) == Some(after) && Spells(after, more)
    ensures Spells(s, [Punct(mark)] + more)
  {
    var w := Spaces(s);
    SkippedSpaces(s);
    var e := w + 1;
    MarkAhead(s, mark, after);
    CutAfter(s, w, [mark], after);
    SpellsCons(s, w, e, Punct(mark), more);
  }

  lemma {:induction false} IntegerSpelled(s: seq<byte>, v: int, after: seq<byte>, tokens: seq<Token>)
    requires IntegerAt(s) == Got(v, after) && Spells(after, tokens)
    ensures Spells(s, [Number(v)] + tokens)
  {
    var w := Spaces(s);
    var text := IntegerAhead(s, v, after);
    SkippedSpaces(s);
    CutAfter(s, w, text, after);
    SpellsCons(s, w, w + |text|, Number(v), tokens);
  }

  lemma {:induction false} IntegerAhead(s: seq<byte>, v: int, after: seq<byte>) returns (text: seq<byte>)
    requires IntegerAt(s) == Got(v, after)
    ensures Numeral(text, v) && s[Spaces(s)..] == text + after
  {
    text := NumeralAhead(Skipped(s), v, after);
  }

  lemma {:induction false} CutAfter(s: seq<byte>, w: nat, text: seq<byte>, after: seq<byte>)
    requires w <= |s| && s[w..] == text + after
    ensures w + |text| <= |s| && s[w..w + |text|] == text && s[w + |text|..] == after
  {
    assert s[w..w + |text|] == s[w..][..|text|];
    assert s[w + |text|..] == s[w..][|text|..];
  }

  /** What `IntegerAt` reads after the white space is a numeral. */
  lemma {:induction false} NumeralAhead(t: seq<byte>, v: int, after: seq<byte>) returns (text: seq<byte>)
    requires DigitRun(t[SignLength(t)..]) > 0
    requires v == NumeralValue(t[..SignLength(t) + DigitRun(t[SignLength(t)..])]) && FitsI64(v)
    requires after == t[SignLength(t) + DigitRun(t[SignLength(t)..])..]
    ensures Numeral(text, v) && t == text + after
  {
    var sign := SignLength(t);
    var n := DigitRun(t[sign..]);
    RunOfDigits(t[sign..]);
    text := t[..sign + n];
    assert text[sign..] == t[sign..][..n];
    assert AllDigits(text[sign..]);
    assert text[0] == t[0];
    if sign == 0 {
      assert text == text[0..];
      assert Digit(text[0]);
    } else {
      assert text[0] == MINUS && |text| == 1 + n;
    }
  }

  lemma {:induction false} LetterBytes(s: seq<byte>, letter: byte, after: seq<byte>)
    requires letter == LETTER_A || letter == LETTER_B
    requires StringBody(s) == Got([letter], after)
    ensures s == [letter, QUOTE] + after
  {
    var rest := s[1..];
    assert s[0] != QUOTE;
    if s[0] == BACKSLASH { EscapesGiveNoLetter(s); }
    assert StringBody(rest) == Got([], after);
    EmptyBody(rest, after);
    assert s == [s[0]] + rest;
  }

  lemma {:induction false} EscapesGiveNoLetter(s: seq<byte>)
    requires s != [] && s[0] == BACKSLASH && StringBody(s).Got?
    ensures StringBody(s).value != [LETTER_A] && StringBody(s).value != [LETTER_B]
  {
    var b := Unescaped(s[1]).value;
    assert StringBody(s).value == [b] + StringBody(s[2..]).value;
    assert StringBody(s).value[0] == b;
  }

  lemma {:induction false} EmptyBody(s: seq<byte>, after: seq<byte>)
    requires StringBody(s) == Got([], after)
    ensures s == [QUOTE] + after
  {
    assert s == [s[0]] + s[1..];
  }

  /** What `StringAt` reads after the white space is the letter in quotes. */
  lemma {:induction false} NameAhead(s: seq<byte>, letter: byte, after: seq<byte>)
    requires letter == LETTER_A || letter == LETTER_B
    requires StringAt(s) == Got([letter], after)
    ensures s[Spaces(s)..] == [QUOTE, letter, QUOTE] + after
  {
    var body := After(s, QUOTE).value;
    MarkAhead(s, QUOTE, body);
    LetterBytes(body, letter, after);
    assert [QUOTE] + ([letter, QUOTE] + after) == [QUOTE, letter, QUOTE] + after;
  }

  lemma {:induction false} MarkAhead(s: seq<byte>, mark: byte, rest: seq<byte>)
    requires After(s, mark) == Some(rest)
    ensures s[Spaces(s)..] == [mark] + rest
  {
  }

  lemma {:induction false} NameSpelled(s: seq<byte>, letter: byte, after: seq<byte>, more: seq<Token>)
    requires letter == LETTER_A || letter == LETTER_B
    requires StringAt(s) == Got([letter], after) && Spells(after, more)
    ensures Spells(s, [Name(letter)] + more)
  {
    var w, text := Spaces(s), [QUOTE, letter, QUOTE];
    SkippedSpaces(s);
    NameAhead(s, letter, after);
    CutAfter(s, w, text, after);
    SpellsCons(s, w, w + |text|, Name(letter), more);
  }

  lemma {:induction false} IntegerThenSpelled(s: seq<byte>, v: int, mark: byte, after: seq<byte>, more: seq<Token>)
    requires IntegerThen(s, mark) == Got(v, after) && Spells(after, more)
    ensures Spells(s, NumberTokens(v, mark, more))
  {
    var rest := IntegerAt(s).rest;
    MarkSpelled(rest, mark, after, more);
    IntegerSpelled(s, v, rest, [Punct(mark)] + more);
  }

  lemma {:induction false} TermSplit(s: seq<byte>, t: Triple, after: seq<byte>)
    returns (s1: seq<byte>, s2: seq<byte>, s3: seq<byte>)
    requires TermAt(s) == Got(t, after)
    ensures After(s, OPEN) == Some(s1) && IntegerThen(s1, COMMA) == Got(t.qe, s2)
    ensures IntegerThen(s2, COMMA) == Got(t.te, s3) && IntegerThen(s3, CLOSE) == Got(t.coef, after)
  {
    s1 := After(s, OPEN).value;
    s2 := IntegerThen(s1, COMMA).rest;
    s3 := TailSplit(s2, IntegerThen(s1, COMMA).value, t, after);
  }

  lemma {:induction false} TailSplit(s: seq<byte>, qe: int, t: Triple, after: seq<byte>) returns (s3: seq<byte>)
    requires TermTail(qe, s) == Got(t, after)
    ensures qe == t.qe && IntegerThen(s, COMMA) == Got(t.te, s3) && IntegerThen(s3, CLOSE) == Got(t.coef, after)
  {
    var p := IntegerThen(s, COMMA);
    s3 := p.rest;
    var q := IntegerThen(s3, CLOSE);
    RangedParts(qe, p.value, q.value, q.rest, t, after);
  }

  lemma {:induction false} RangedParts(qe: int, te: int, coef: int, rest: seq<byte>, t: Triple, after: seq<byte>)
    requires Ranged(qe, te, coef, rest) == Got(t, after)
    ensures qe == t.qe && te == t.te && coef == t.coef && rest == after
  {
  }

  lemma {:induction false} TermSpelled(s: seq<byte>, t: Triple, after: seq<byte>, more: seq<Token>)
    requires TermAt(s) == Got(t, after) && Spells(after, more)
    ensures Spells(s, TermTokens(t, more))
  {
    var s1, s2, s3 := TermSplit(s, t, after);
    var m3 := NumberTokens(t.coef, CLOSE, more);
    var m2 := NumberTokens(t.te, COMMA, m3);
    IntegerThenSpelled(s3, t.coef, CLOSE, after, more);
    IntegerThenSpelled(s2, t.te, COMMA, s3, m3);
    IntegerThenSpelled(s1, t.qe, COMMA, s2, m2);
    MarkSpelled(s, OPEN, s1, NumberTokens(t.qe, COMMA, m2));
  }

  lemma {:induction false} TermsSplit(s: seq<byte>, count: nat, terms: seq<Triple>, after: seq<byte>)
    returns (rest: seq<byte>, s': seq<byte>)
    requires TermsAt(s, count) == Got(terms, after)
    ensures terms != [] && TermAt(s) == Got(terms[0], rest)
    ensures if |terms| == 1 then After(rest, CLOSE) == Some(after) && s' == []
            else After(rest, COMMA) == Some(s') && TermsAt(s', count + 1) == Got(terms[1..], after)
  {
    rest := TermAt(s).rest;
    s' := [];
    if After(rest, COMMA).Some? {
      s' := After(rest, COMMA).value;
      assert terms == [TermAt(s).value] + TermsAt(s', count + 1).value;
    }
  }

  lemma {:induction false} LastTermSpelled(s: seq<byte>, t: Triple, rest: seq<byte>, after: seq<byte>,
                                           more: seq<Token>)
    requires TermAt(s) == Got(t, rest) && After(rest, CLOSE) == Some(after) && Spells(after, more)
    ensures Spells(s, TermTokens(t, [Punct(CLOSE)] + more))
  {
    MarkSpelled(rest, CLOSE, after, more);
    TermSpelled(s, t, rest, [Punct(CLOSE)] + more);
  }

  lemma {:induction false} NextTermSpelled(s: seq<byte>, t: Triple, rest: seq<byte>, s': seq<byte>,
                                           tail: seq<Token>)
    requires TermAt(s) == Got(t, rest) && After(rest, COMMA) == Some(s') && Spells(s', tail)
    ensures Spells(s, TermTokens(t, [Punct(COMMA)] + tail))
  {
    MarkSpelled(rest, COMMA, s', tail);
    TermSpelled(s, t, rest, [Punct(COMMA)] + tail);
  }

  lemma {:induction false} TermsSpelled(s: seq<byte>, count: nat, terms: seq<Triple>, after: seq<byte>,
                                        more: seq<Token>)
    requires TermsAt(s, count) == Got(terms, after) && Spells(after, more)
    ensures terms != [] && Spells(s, TermsTokens(terms, more))
    decreases |terms|
  {
    var rest, s' := TermsSplit(s, count, terms, after);
    if |terms| == 1 {
      LastTermSpelled(s, terms[0], rest, after, more);
    } else {
      TermsSpelled(s', count + 1, terms[1..], after, more);
      NextTermSpelled(s, terms[0], rest, s', TermsTokens(terms[1..], more));
    }
  }

  lemma {:induction false} ArraySpelled(s: seq<byte>, terms: seq<Triple>, after: seq<byte>, more: seq<Token>)
    requires ArrayAt(s) == Got(terms, after) && Spells(after, more)
    ensures Spells(s, ArrayTokens(terms, more))
  {
    var rest := After(s, OPEN).value;
    if After(rest, CLOSE).Some? {
      MarkSpelled(rest, CLOSE, after, more);
      MarkSpelled(s, OPEN, rest, [Punct(CLOSE)] + more);
    } else {
      TermsSpelled(rest, 0, terms, after, more);
      MarkSpelled(s, OPEN, rest, TermsTokens(terms, more));
    }
  }

  /** A field that is read fills a gap. */
  lemma {:induction false} FieldSplit(s: seq<byte>, found: Fields, now: Fields, rest: seq<byte>)
    returns (letter: byte, terms: seq<Triple>, s1: seq<byte>, s2: seq<byte>)
    requires FieldAt(s, found) == Got(now, rest)
    ensures letter == LETTER_A || letter == LETTER_B
    ensures if letter == LETTER_A then found.a.None? else found.b.None?
    ensures now == Filled(found, letter, terms) && |terms| <= WIDTH
    ensures StringAt(s) == Got([letter], s1) && After(s1, COLON) == Some(s2) && ArrayAt(s2) == Got(terms, rest)
  {
    s1 := StringAt(s).rest;
    s2 := After(s1, COLON).value;
    letter := StringAt(s).value[0];
    terms := ArrayAt(s2).value;
  }

  lemma {:induction false} FieldSpelled(s: seq<byte>, found: Fields, now: Fields, rest: seq<byte>)
    returns (letter: byte, terms: seq<Triple>)
    requires FieldAt(s, found) == Got(now, rest)
    ensures letter == LETTER_A || letter == LETTER_B
    ensures if letter == LETTER_A then found.a.None? else found.b.None?
    ensures now == Filled(found, letter, terms) && |terms| <= WIDTH
    ensures forall more :: Spells(rest, more) ==> Spells(s, FieldTokens(letter, terms, more))
  {
    var s1, s2;
    letter, terms, s1, s2 := FieldSplit(s, found, now, rest);
    forall more | Spells(rest, more) ensures Spells(s, FieldTokens(letter, terms, more)) {
      ArraySpelled(s2, terms, rest, more);
      MarkSpelled(s1, COLON, s2, ArrayTokens(terms, more));
      NameSpelled(s, letter, s1, [Punct(COLON)] + ArrayTokens(terms, more));
    }
  }

  /** With both fields found a third one is refused. */
  lemma {:induction false} NoThirdField(s: seq<byte>, found: Fields)
    requires found.a.Some? && found.b.Some?
    ensures FieldAt(s, found).Bad?
  {
  }

  /** One turn of the field loop. */
  lemma {:induction false} FieldsTurn(s: seq<byte>, found: Fields, all: Fields, after: seq<byte>)
    returns (one: Fields, rest: seq<byte>, s': seq<byte>, last: bool)
    requires FieldsAt(s, found) == Got(all, after)
    ensures FieldAt(s, found) == Got(one, rest)
    ensures last ==> one == all && After(rest, RBRACE) == Some(after)
    ensures !last ==> After(rest, COMMA) == Some(s') && FieldsAt(s', one) == Got(all, after)
  {
    one, rest := FieldAt(s, found).value, FieldAt(s, found).rest;
    last := After(rest, COMMA).None?;
    s' := if last then [] else After(rest, COMMA).value;
  }

  lemma {:induction false} NoThirdTurn(s: seq<byte>, found: Fields)
    requires found.a.Some? && found.b.Some?
    ensures FieldsAt(s, found).Bad?
  {
    NoThirdField(s, found);
  }

  /** Both fields are there, once each. */
  lemma {:induction false} FieldsSplit(s: seq<byte>, all: Fields, after: seq<byte>)
    returns (one: Fields, rest: seq<byte>, s': seq<byte>, rest': seq<byte>)
    requires FieldsAt(s, Fields(None, None)) == Got(all, after) && all.a.Some? && all.b.Some?
    ensures FieldAt(s, Fields(None, None)) == Got(one, rest) && After(rest, COMMA) == Some(s')
    ensures FieldAt(s', one) == Got(all, rest') && After(rest', RBRACE) == Some(after)
  {
    var last, two, s'', last';
    one, rest, s', last := FieldsTurn(s, Fields(None, None), all, after);
    var letter, terms := FieldSpelled(s, Fields(None, None), one, rest);
    two, rest', s'', last' := FieldsTurn(s', one, all, after);
    var letter', terms' := FieldSpelled(s', one, two, rest');
    if !last' { NoThirdTurn(s'', two); }
  }

  lemma {:induction false} JudgedSplit(p: Parsed<Fields>, a: seq<Triple>, b: seq<Triple>)
    requires Judged(p) == Factors(a, b)
    ensures p.Got? && p.value == Fields(Some(a), Some(b)) && Skipped(p.rest) == []
  {
  }

  lemma {:induction false} RequestSplit(s: seq<byte>, a: seq<Triple>, b: seq<Triple>)
    returns (rest: seq<byte>, after: seq<byte>)
    requires ParseRequest(s) == Factors(a, b)
    ensures After(s, LBRACE) == Some(rest)
    ensures FieldsAt(rest, Fields(None, None)) == Got(Fields(Some(a), Some(b)), after) && Skipped(after) == []
  {
    rest := After(s, LBRACE).value;
    var p := FieldsAt(rest, Fields(None, None));
    JudgedSplit(p, a, b);
    after := p.rest;
  }

  /** What the parser accepts is a request. */
  lemma {:induction false} AcceptedIsRequest(s: seq<byte>, a: seq<Triple>, b: seq<Triple>)
    requires ParseRequest(s) == Factors(a, b)
    ensures IsRequest(s, a, b)
  {
    var none, both := Fields(None, None), Fields(Some(a), Some(b));
    var s1, after := RequestSplit(s, a, b);
    var one, rest, s2, rest' := FieldsSplit(s1, both, after);
    var x, first := FieldSpelled(s1, none, one, rest);
    var y, second := FieldSpelled(s2, one, both, rest');
    EndSpelled(rest', after);
    PairSpelled(s, s1, rest, s2, x, first, FieldTokens(y, second, [Punct(RBRACE)]));
    InEitherOrder(x, first, y, second, a, b);
  }

  /** The opening brace, the first field and the comma, before the second field. */
  lemma {:induction false} PairSpelled(s: seq<byte>, s1: seq<byte>, rest: seq<byte>, s2: seq<byte>, x: byte,
                                       first: seq<Triple>, tail: seq<Token>)
    requires After(s, LBRACE) == Some(s1) && After(rest, COMMA) == Some(s2) && Spells(s2, tail)
    requires forall more :: Spells(rest, more) ==> Spells(s1, FieldTokens(x, first, more))
    ensures Spells(s, [Punct(LBRACE)] + FieldTokens(x, first, [Punct(COMMA)] + tail))
  {
    MarkSpelled(rest, COMMA, s2, tail);
    MarkSpelled(s, LBRACE, s1, FieldTokens(x, first, [Punct(COMMA)] + tail));
  }

  /** The closing brace with nothing but white space behind it. */
  lemma {:induction false} EndSpelled(s: seq<byte>, after: seq<byte>)
    requires After(s, RBRACE) == Some(after) && Skipped(after) == []
    ensures Spells(s, [Punct(RBRACE)])
  {
    SkippedSpaces(after);
    assert after[..Spaces(after)] == after;
    MarkSpelled(s, RBRACE, after, []);
    assert [Punct(RBRACE)] + [] == [Punct(RBRACE)];
  }

  /** Two different letters fill both fields, in one of the two orders. */
  lemma {:induction false} InEitherOrder(x: byte, first: seq<Triple>, y: byte, second: seq<Triple>,
                                         a: seq<Triple>, b: seq<Triple>)
    requires (x == LETTER_A || x == LETTER_B) && (y == LETTER_A || y == LETTER_B)
    requires Filled(Filled(Fields(None, None), x, first), y, second) == Fields(Some(a), Some(b))
    ensures PairTokens(x, first, y, second) == RequestTokens(a, b, x == LETTER_A)
  {
  }

  // ---------- the main results ----------

  /** The parser accepts exactly the requests, whole, and answers with their factors. */
  lemma {:induction false} ParserIsExact(s: seq<byte>, a: seq<Triple>, b: seq<Triple>)
    ensures ParseRequest(s) == Factors(a, b) <==> IsRequest(s, a, b)
  {
    if IsRequest(s, a, b) { RequestRead(s, a, b); }
    if ParseRequest(s) == Factors(a, b) { AcceptedIsRequest(s, a, b); }
  }

  /** Printed factors are read back, whatever white space is put between the tokens. */
  lemma {:induction false} SpacedRoundTrip(a: seq<Triple>, b: seq<Triple>, aFirst: bool, gaps: seq<seq<byte>>)
    requires |a| <= WIDTH && |b| <= WIDTH
    requires |gaps| == |RequestTokens(a, b, aFirst)| + 1
    requires forall i :: 0 <= i < |gaps| ==> AllSpace(gaps[i])
    ensures ParseRequest(Printed(RequestTokens(a, b, aFirst), gaps)) == Factors(a, b)
  {
    var tokens := RequestTokens(a, b, aFirst);
    RequestPrintable(a, b, aFirst);
    PrintedSpells(tokens, gaps);
    assert IsRequest(Printed(tokens, gaps), a, b);
    RequestRead(Printed(tokens, gaps), a, b);
  }

  ghost predicate AllPrintable(tokens: seq<Token>) {
    forall i :: 0 <= i < |tokens| ==> Printable(tokens[i])
  }

  lemma {:induction false} PrintableTerm(t: Triple, more: seq<Token>)
    requires AllPrintable(more)
    ensures AllPrintable(TermTokens(t, more))
  {
    assert AllPrintable(NumberTokens(t.coef, CLOSE, more));
    assert AllPrintable(NumberTokens(t.te, COMMA, NumberTokens(t.coef, CLOSE, more)));
  }

  lemma {:induction false} PrintableTerms(terms: seq<Triple>, more: seq<Token>)
    requires terms != [] && AllPrintable(more)
    ensures AllPrintable(TermsTokens(terms, more))
    decreases |terms|
  {
    if |terms| == 1 {
      PrintableTerm(terms[0], [Punct(CLOSE)] + more);
    } else {
      PrintableTerms(terms[1..], more);
      PrintableTerm(terms[0], [Punct(COMMA)] + TermsTokens(terms[1..], more));
    }
  }

  lemma {:induction false} PrintableField(letter: byte, terms: seq<Triple>, more: seq<Token>)
    requires AllPrintable(more)
    ensures AllPrintable(FieldTokens(letter, terms, more))
  {
    if terms != [] { PrintableTerms(terms, more); }
  }

  lemma {:induction false} RequestPrintable(a: seq<Triple>, b: seq<Triple>, aFirst: bool)
    ensures AllPrintable(RequestTokens(a, b, aFirst))
  {
    var x, first := if aFirst then LETTER_A else LETTER_B, if aFirst then a else b;
    var y, second := if aFirst then LETTER_B else LETTER_A, if aFirst then b else a;
    PrintableField(y, second, [Punct(RBRACE)]);
    PrintableField(x, first, [Punct(COMMA)] + FieldTokens(y, second, [Punct(RBRACE)]));
  }

  /** The compact form of `terms_json` is read back. */
  lemma {:induction false} JsonRoundTrip(a: seq<Triple>, b: seq<Triple>)
    requires |a| <= WIDTH && |b| <= WIDTH
    ensures ParseRequest(RequestJson(a, b)) == Factors(a, b)
  {
    PrintedIsRequest(a, b);
    RequestRead(RequestJson(a, b), a, b);
  }

  /** Whatever is accepted, printing and parsing again gives the same factors. */
  lemma {:induction false} AcceptedReprints(s: seq<byte>)
    ensures match ParseRequest(s)
            case Factors(a, b) => |a| <= WIDTH && |b| <= WIDTH && ParseRequest(RequestJson(a, b)) == Factors(a, b)
            case Rejected(_) => forall a, b :: !IsRequest(s, a, b)
  {
    match ParseRequest(s)
    case Factors(a, b) =>
      AcceptedIsRequest(s, a, b);
      JsonRoundTrip(a, b);
    case Rejected(_) =>
      forall a, b ensures !IsRequest(s, a, b) {
        ParserIsExact(s, a, b);
      }
  }

  /** Beyond section 2 of RFC 8259: a form feed counts as white space. */
  lemma {:induction false} FormFeedIsSpace(a: seq<Triple>, b: seq<Triple>)
    requires |a| <= WIDTH && |b| <= WIDTH
    ensures ParseRequest([12] + RequestJson(a, b)) == Factors(a, b)
  {
    PrintedIsRequest(a, b);
    SpellsAfterSpace([12], RequestJson(a, b), RequestTokens(a, b, true));
    RequestRead([12] + RequestJson(a, b), a, b);
  }

  /** Beyond section 6 of RFC 8259: leading zeros change nothing. */
  lemma {:induction false} LeadingZeros(zeros: seq<byte>, n: nat)
    requires forall i :: 0 <= i < |zeros| ==> zeros[i] == 48
    requires FitsI64(n)
    ensures Numeral(zeros + DecimalDigits(n), n)
  {
    ZerosInFront(zeros, DecimalDigits(n));
  }

  lemma {:induction false} ZerosInFront(zeros: seq<byte>, digits: seq<byte>)
    requires forall i :: 0 <= i < |zeros| ==> zeros[i] == 48
    ensures Magnitude(zeros + digits) == Magnitude(digits)
    decreases |digits|, |zeros|
  {
    if digits != [] {
      assert (zeros + digits)[..|zeros + digits| - 1] == zeros + digits[..|digits| - 1];
      ZerosInFront(zeros, digits[..|digits| - 1]);
    } else if zeros != [] {
      assert zeros + digits == zeros && zeros[..|zeros| - 1] + digits == zeros[..|zeros| - 1];
      ZerosInFront(zeros[..|zeros| - 1], digits);
    }
  }
}
