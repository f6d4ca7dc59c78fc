/** Requests as RFC 8259 writes them, and exactly where the parser accepts more. */
module StrictRequests {
  import opened MachineInts
  import opened LaurentReference
  import opened RequestGrammar
  import opened RequestParser
  import opened RequestRoundTrip

  const FORM_FEED: byte := 12
  const ZERO_DIGIT: byte := 48

  /** White space of section 2. */
  predicate StrictSpace(b: byte) {
    b == 32 || b == 9 || b == 10 || b == 13
  }

  ghost predicate AllStrictSpace(s: seq<byte>) {
    forall i :: 0 <= i < |s| ==> StrictSpace(s[i])
  }

  /** The digits of section 6: a single zero, or no zero in front. */
  predicate StrictDigits(digits: seq<byte>) {
    digits == [ZERO_DIGIT] || (digits != [] && digits[0] != ZERO_DIGIT)
  }

  function DigitsOf(text: seq<byte>): seq<byte> {
    if text != [] && text[0] == MINUS then text[1..] else text
  }

  ghost predicate StrictWrites(text: seq<byte>, t: Token) {
    Writes(text, t) && (t.Number? ==> StrictDigits(DigitsOf(text)))
  }

  ghost predicate StrictTokenAt(s: seq<byte>, w: nat, e: nat, t: Token) {
    w < e <= |s| && AllStrictSpace(s[..w]) && StrictWrites(s[w..e], t)
  }

  ghost predicate StrictSpells(s: seq<byte>, tokens: seq<Token>)
    decreases |tokens|
  {
    if tokens == [] then AllStrictSpace(s)
    else exists w: nat, e: nat :: StrictTokenAt(s, w, e, tokens[0]) && StrictSpells(s[e..], tokens[1..])
  }

  /** `s` is a request for the product of `a` and `b` in the strict grammar. */
  ghost predicate IsStrictRequest(s: seq<byte>, a: seq<Triple>, b: seq<Triple>) {
    && |a| <= WIDTH && |b| <= WIDTH
    && (StrictSpells(s, RequestTokens(a, b, true)) || StrictSpells(s, RequestTokens(a, b, false)))
  }

  // ---------- what the strict grammar excludes, seen in the bytes ----------

  /** A zero that opens a run of more digits. */
  predicate ZeroInFront(s: seq<byte>, i: int) {
    0 <= i && i + 1 < |s| && s[i] == ZERO_DIGIT && Digit(s[i + 1]) && (i == 0 || !Digit(s[i - 1]))
  }

  ghost predicate Conforms(s: seq<byte>) {
    FORM_FEED !in s && forall i :: !ZeroInFront(s, i)
  }

  /** Marks and letters are neither digits nor form feeds. */
  predicate PlainToken(t: Token) {
    match t
    case Punct(mark) => !Digit(mark) && mark != FORM_FEED
    case Name(letter) => !Digit(letter) && letter != FORM_FEED
    case Number(_) => true
  }

  /** Every number is followed by a mark. */
  ghost predicate Plain(tokens: seq<Token>) {
    && (forall i :: 0 <= i < |tokens| ==> PlainToken(tokens[i]))
    && (forall i :: 0 <= i < |tokens| && tokens[i].Number? ==> i + 1 < |tokens| && tokens[i + 1].Punct?)
  }

  // ---------- one token ----------

  /** The token ends where a run of digits cannot go on. */
  ghost predicate Ends(s: seq<byte>, e: nat, t: Token) {
    t.Number? ==> e < |s| && !Digit(s[e])
  }

  lemma {:induction false} NumeralBytes(text: seq<byte>, v: int, i: nat)
    requires Numeral(text, v) && i < |text|
    ensures text[i] == MINUS || Digit(text[i])
    ensures text[i] == MINUS ==> i == 0 && |text| > 1
  {
    if text[0] == MINUS && i > 0 { assert text[i] == text[1..][i - 1]; }
  }

  /** The bytes of a token that is not a number, and the last byte of any such token. */
  lemma {:induction false} MarkBytes(text: seq<byte>, t: Token, i: nat)
    requires Writes(text, t) && PlainToken(t) && !t.Number? && i < |text|
    ensures !Digit(text[i]) && text[i] != FORM_FEED
  {
  }

  lemma {:induction false} TokenBytes(s: seq<byte>, w: nat, e: nat, t: Token, i: nat)
    requires TokenAt(s, w, e, t) && PlainToken(t) && i < e
    ensures i >= w ==> s[i] != FORM_FEED
    ensures i < w || !t.Number? ==> !Digit(s[i])
  {
    if i < w {
      assert s[i] == s[..w][i];
    } else {
      assert s[i] == s[w..e][i - w];
      if t.Number? {
        NumeralBytes(s[w..e], t.value, i - w);
      } else {
        MarkBytes(s[w..e], t, i - w);
      }
    }
  }

  /** Only the first digit of a numeral can be a zero in front, and it is one exactly if more digits
      follow it. */
  lemma {:induction false} NumeralZeros(s: seq<byte>, w: nat, e: nat, v: int, i: int)
    requires TokenAt(s, w, e, Number(v)) && Ends(s, e, Number(v)) && w <= i < e
    ensures var first := if s[w] == MINUS then w + 1 else w;
            ZeroInFront(s, i) <==> i == first && s[first] == ZERO_DIGIT && first + 1 < e
  {
    var text := s[w..e];
    assert s[w] == text[0] && s[i] == text[i - w];
    NumeralBytes(text, v, 0);
    NumeralBytes(text, v, i - w);
    if w > 0 { TokenBytes(s, w, e, Number(v), w - 1); }
    if w < i {
      assert s[i - 1] == text[i - w - 1];
      NumeralBytes(text, v, i - w - 1);
    }
    if i + 1 < e {
      assert s[i + 1] == text[i + 1 - w];
      NumeralBytes(text, v, i + 1 - w);
    }
  }

  /** A number is strict exactly if it has no zero in front. */
  lemma {:induction false} NumberIsStrict(s: seq<byte>, w: nat, e: nat, v: int)
    requires TokenAt(s, w, e, Number(v)) && Ends(s, e, Number(v))
    ensures StrictDigits(DigitsOf(s[w..e])) <==> forall i :: w <= i < e ==> !ZeroInFront(s, i)
  {
    var text := s[w..e];
    var first := if s[w] == MINUS then w + 1 else w;
    NumeralBytes(text, v, 0);
    assert text[0] == s[w] && |text| == e - w && first < e;
    assert DigitsOf(text) == s[first..e];
    forall i: int | w <= i < e ensures ZeroInFront(s, i) <==> i == first && s[first] == ZERO_DIGIT && first + 1 < e {
      NumeralZeros(s, w, e, v, i);
    }
    var digits := s[first..e];
    StrictBySize(digits);
    assert digits[0] == s[first] && |digits| == e - first;
    assert ZeroInFront(s, first) <==> s[first] == ZERO_DIGIT && first + 1 < e;
  }

  lemma {:induction false} StrictBySize(digits: seq<byte>)
    requires digits != []
    ensures StrictDigits(digits) <==> digits[0] != ZERO_DIGIT || |digits| == 1
  {
  }

  /** A token is strict exactly if it and the space before it conform. */
  lemma {:induction false} TokenIsStrict(s: seq<byte>, w: nat, e: nat, t: Token)
    requires TokenAt(s, w, e, t) && PlainToken(t) && Ends(s, e, t)
    ensures StrictTokenAt(s, w, e, t) <==>
              forall i :: 0 <= i < e ==> s[i] != FORM_FEED && !ZeroInFront(s, i)
  {
    forall i: nat | i < e
      ensures i >= w ==> s[i] != FORM_FEED
      ensures i < w || !t.Number? ==> !ZeroInFront(s, i)
    {
      TokenBytes(s, w, e, t, i);
    }
    StrictGap(s, w);
    if t.Number? { NumberIsStrict(s, w, e, t.value); }
  }

  lemma {:induction false} StrictGap(s: seq<byte>, w: nat)
    requires w <= |s| && AllSpace(s[..w])
    ensures AllStrictSpace(s[..w]) <==> forall i :: 0 <= i < w ==> s[i] != FORM_FEED
  {
    forall i | 0 <= i < w ensures StrictSpace(s[i]) <==> s[i] != FORM_FEED {
      assert Space(s[..w][i]);
    }
    if AllStrictSpace(s[..w]) {
      forall i | 0 <= i < w ensures s[i] != FORM_FEED {
        assert StrictSpace(s[..w][i]);
      }
    }
  }

  /** No run of digits crosses the end of a token. */
  lemma {:induction false} ZeroBeyond(s: seq<byte>, w: nat, e: nat, t: Token, i: nat)
    requires TokenAt(s, w, e, t) && PlainToken(t) && Ends(s, e, t)
    ensures ZeroInFront(s[e..], i) <==> ZeroInFront(s, e + i)
  {
    TokenBytes(s, w, e, t, e - 1);
  }

  /** A text conforms exactly if its first token is strict and the rest conforms. */
  lemma {:induction false} FirstToken(s: seq<byte>, w: nat, e: nat, t: Token)
    requires TokenAt(s, w, e, t) && PlainToken(t) && Ends(s, e, t)
    ensures Conforms(s) <==> StrictTokenAt(s, w, e, t) && Conforms(s[e..])
  {
    TokenIsStrict(s, w, e, t);
    forall i: nat ensures ZeroInFront(s[e..], i) <==> ZeroInFront(s, e + i) {
      ZeroBeyond(s, w, e, t, i);
    }
    if StrictTokenAt(s, w, e, t) && Conforms(s[e..]) {
      forall i: int ensures !ZeroInFront(s, i) {
        if i >= e { assert !ZeroInFront(s[e..], i - e); }
      }
      assert s == s[..e] + s[e..];
    }
  }

  // ---------- whole texts ----------

  /** A mark does not begin with a digit, nor does the space before it. */
  lemma {:induction false} MarkBegins(s: seq<byte>, tokens: seq<Token>)
    requires tokens != [] && tokens[0].Punct? && PlainToken(tokens[0]) && Spells(s, tokens)
    ensures s != [] && !Digit(s[0])
  {
    var w, e := SpellsElim(s, tokens);
    TokenBytes(s, w, e, tokens[0], 0);
  }

  lemma {:induction false} PlainTail(tokens: seq<Token>)
    requires Plain(tokens) && tokens != []
    ensures PlainToken(tokens[0]) && Plain(tokens[1..])
    ensures tokens[0].Number? ==> |tokens| > 1 && tokens[1].Punct? && PlainToken(tokens[1])
  {
    assert PlainToken(tokens[0]);
    forall i | 0 <= i < |tokens| - 1 && tokens[1..][i].Number?
      ensures i + 2 < |tokens| && tokens[1..][i + 1].Punct?
    {
      assert tokens[i + 1].Number?;
    }
  }

  lemma {:induction false} SpaceConforms(s: seq<byte>)
    requires AllSpace(s)
    ensures AllStrictSpace(s) <==> Conforms(s)
  {
    assert s[..|s|] == s;
    StrictGap(s, |s|);
    assert forall i :: !ZeroInFront(s, i);
  }

  lemma {:induction false} TokenEnds(s: seq<byte>, e: nat, tokens: seq<Token>)
    requires tokens != [] && Plain(tokens) && e <= |s| && Spells(s[e..], tokens[1..])
    ensures Ends(s, e, tokens[0])
  {
    PlainTail(tokens);
    if tokens[0].Number? { MarkBegins(s[e..], tokens[1..]); }
  }

  /** A text spells tokens strictly exactly if it spells them and conforms. */
  lemma {:induction false} StrictIsConforming(s: seq<byte>, tokens: seq<Token>)
    requires Plain(tokens)
    ensures StrictSpells(s, tokens) <==> Spells(s, tokens) && Conforms(s)
    decreases |tokens|
  {
    if tokens == [] {
      if AllSpace(s) { SpaceConforms(s); }
    } else {
      PlainTail(tokens);
      if StrictSpells(s, tokens) { StrictConforms(s, tokens); }
      if Spells(s, tokens) && Conforms(s) {
        var w, e := SpellsElim(s, tokens);
        TokenEnds(s, e, tokens);
        FirstToken(s, w, e, tokens[0]);
        StrictIsConforming(s[e..], tokens[1..]);
      }
    }
  }

  lemma {:induction false} StrictConforms(s: seq<byte>, tokens: seq<Token>)
    requires Plain(tokens) && tokens != [] && StrictSpells(s, tokens)
    ensures Spells(s, tokens) && Conforms(s)
    decreases |tokens|, 0
  {
    var w: nat, e: nat :| StrictTokenAt(s, w, e, tokens[0]) && StrictSpells(s[e..], tokens[1..]);
    PlainTail(tokens);
    StrictIsConforming(s[e..], tokens[1..]);
    assert AllSpace(s[..w]);
    SpellsIntro(s, w, e, tokens);
    TokenEnds(s, e, tokens);
    FirstToken(s, w, e, tokens[0]);
  }

  // ---------- requests ----------

  lemma {:induction false} PlainNumber(v: int, mark: byte, more: seq<Token>)
    requires Plain(more) && PlainToken(Punct(mark))
    ensures Plain(NumberTokens(v, mark, more))
  {
    var tokens := NumberTokens(v, mark, more);
    assert tokens[0] == Number(v) && tokens[1] == Punct(mark);
    forall i | 2 <= i < |tokens| ensures tokens[i] == more[i - 2] {}
  }

  lemma {:induction false} PlainMark(t: Token, more: seq<Token>)
    requires Plain(more) && PlainToken(t) && !t.Number?
    ensures Plain([t] + more)
  {
    var tokens := [t] + more;
    forall i | 1 <= i < |tokens| ensures tokens[i] == more[i - 1] {}
  }

  lemma {:induction false} PlainTerm(t: Triple, more: seq<Token>)
    requires Plain(more)
    ensures Plain(TermTokens(t, more))
  {
    PlainNumber(t.coef, CLOSE, more);
    PlainNumber(t.te, COMMA, NumberTokens(t.coef, CLOSE, more));
    PlainNumber(t.qe, COMMA, NumberTokens(t.te, COMMA, NumberTokens(t.coef, CLOSE, more)));
    PlainMark(Punct(OPEN), NumberTokens(t.qe, COMMA, NumberTokens(t.te, COMMA, NumberTokens(t.coef, CLOSE, more))));
  }

  lemma {:induction false} PlainTerms(terms: seq<Triple>, more: seq<Token>)
    requires terms != [] && Plain(more)
    ensures Plain(TermsTokens(terms, more))
    decreases |terms|
  {
    if |terms| == 1 {
      PlainMark(Punct(CLOSE), more);
      PlainTerm(terms[0], [Punct(CLOSE)] + more);
    } else {
      PlainTerms(terms[1..], more);
      PlainMark(Punct(COMMA), TermsTokens(terms[1..], more));
      PlainTerm(terms[0], [Punct(COMMA)] + TermsTokens(terms[1..], more));
    }
  }

  lemma {:induction false} PlainField(letter: byte, terms: seq<Triple>, more: seq<Token>)
    requires Plain(more) && PlainToken(Name(letter))
    ensures Plain(FieldTokens(letter, terms, more))
  {
    if terms == [] {
      PlainMark(Punct(CLOSE), more);
      PlainMark(Punct(OPEN), [Punct(CLOSE)] + more);
    } else {
      PlainTerms(terms, more);
      PlainMark(Punct(OPEN), TermsTokens(terms, more));
    }
    PlainMark(Punct(COLON), ArrayTokens(terms, more));
    PlainMark(Name(letter), [Punct(COLON)] + ArrayTokens(terms, more));
  }

  lemma {:induction false} PlainPair(x: byte, first: seq<Triple>, y: byte, second: seq<Triple>)
    requires PlainToken(Name(x)) && PlainToken(Name(y))
    ensures Plain(PairTokens(x, first, y, second))
  {
    var tail := FieldTokens(y, second, [Punct(RBRACE)]);
    PlainField(y, second, [Punct(RBRACE)]);
    PlainMark(Punct(COMMA), tail);
    PlainField(x, first, [Punct(COMMA)] + tail);
    PlainMark(Punct(LBRACE), FieldTokens(x, first, [Punct(COMMA)] + tail));
  }

  /** How far the parser goes beyond RFC 8259: an accepted text is a strict request exactly if it has no
      form feed and no numeral with a zero in front, and every strict request is accepted. */
  lemma {:induction false} StrictExactly(s: seq<byte>, a: seq<Triple>, b: seq<Triple>)
    ensures IsStrictRequest(s, a, b) <==> ParseRequest(s) == Factors(a, b) && Conforms(s)
  {
    ParserIsExact(s, a, b);
    PlainPair(LETTER_A, a, LETTER_B, b);
    PlainPair(LETTER_B, b, LETTER_A, a);
    StrictIsConforming(s, RequestTokens(a, b, true));
    StrictIsConforming(s, RequestTokens(a, b, false));
  }
}
