/** Why a request is refused: for texts that spell a request up to the point where it goes wrong. */
module RequestErrors {
  import opened Options
  import opened MachineInts
  import opened LaurentReference
  import opened RequestGrammar
  import opened RequestParser

  const NONE := Fields(None, None)

  predicate FieldLetter(x: byte) {
    x == LETTER_A || x == LETTER_B
  }

  function Other(x: byte): byte { if x == LETTER_A then LETTER_B else LETTER_A }

  /** A term of any three integers. */
  function RawTerm(q: int, t: int, c: int, more: seq<Token>): seq<Token> {
    [Punct(OPEN)] + NumberTokens(q, COMMA, NumberTokens(t, COMMA, NumberTokens(c, CLOSE, more)))
  }

  /** Good terms, each with a comma after it, and then `tail`. */
  function GoodThen(good: seq<Triple>, tail: seq<Token>): seq<Token> {
    if good == [] then tail else TermTokens(good[0], [Punct(COMMA)] + GoodThen(good[1..], tail))
  }

  /** A field up to its good terms, and then `tail`. */
  function FieldThen(x: byte, good: seq<Triple>, tail: seq<Token>): seq<Token> {
    [Name(x)] + ([Punct(COLON)] + ([Punct(OPEN)] + GoodThen(good, tail)))
  }

  /** The object up to a field named `x`, which is the first, or follows a good field of the other name. */
  function Leading(x: byte, before: Option<seq<Triple>>, field: seq<Token>): seq<Token> {
    [Punct(LBRACE)] +
      match before
      case None => field
      case Some(terms) => FieldTokens(Other(x), terms, [Punct(COMMA)] + field)
  }

  function FoundBefore(x: byte, before: Option<seq<Triple>>): Fields {
    match before case None => NONE case Some(terms) => Filled(NONE, Other(x), terms)
  }

  // ---------- from a field to the request ----------

  lemma {:induction false} BadField(s: seq<byte>, rest: seq<byte>, e: ParseError)
    requires After(s, LBRACE) == Some(rest) && After(rest, RBRACE) == None
    requires FieldsAt(rest, NONE) == Bad(e)
    ensures ParseRequest(s) == Rejected(e)
  {
  }

  lemma {:induction false} BadSecond(s: seq<byte>, found: Fields, one: Fields, rest: seq<byte>, s': seq<byte>,
                                     e: ParseError)
    requires FieldAt(s, found) == Got(one, rest) && After(rest, COMMA) == Some(s') && FieldAt(s', one) == Bad(e)
    ensures FieldsAt(s, found) == Bad(e)
  {
    assert FieldsAt(s', one) == Bad(e);
  }

  /** A field that goes wrong makes the request go wrong in the same way. */
  lemma {:induction false} AtField(s: seq<byte>, x: byte, before: Option<seq<Triple>>, field: seq<Token>)
    returns (s': seq<byte>)
    requires FieldLetter(x) && field != [] && field[0].Name? && (before.Some? ==> |before.value| <= WIDTH)
    requires Spells(s, Leading(x, before, field))
    ensures Spells(s', field)
    ensures FieldAt(s', FoundBefore(x, before)).Bad? ==>
              ParseRequest(s) == Rejected(FieldAt(s', FoundBefore(x, before)).error)
  {
    match before
    case None =>
      s' := MarkRead(s, LBRACE, field);
      OtherMark(s', field, RBRACE);
      if FieldAt(s', NONE).Bad? { BadField(s, s', FieldAt(s', NONE).error); }
    case Some(terms) =>
      var first := FieldTokens(Other(x), terms, [Punct(COMMA)] + field);
      var s1 := MarkRead(s, LBRACE, first);
      OtherMark(s1, first, RBRACE);
      var rest := FieldRead(s1, Other(x), terms, [Punct(COMMA)] + field, NONE);
      s' := MarkRead(rest, COMMA, field);
      var one := Filled(NONE, Other(x), terms);
      if FieldAt(s', one).Bad? {
        BadSecond(s1, NONE, one, rest, s', FieldAt(s', one).error);
        BadField(s, s1, FieldAt(s', one).error);
      }
  }

  lemma {:induction false} BadList(s: seq<byte>, x: byte, found: Fields, s1: seq<byte>, s2: seq<byte>, e: ParseError)
    requires FieldLetter(x) && (if x == LETTER_A then found.a.None? else found.b.None?)
    requires StringAt(s) == Got([x], s1) && After(s1, COLON) == Some(s2) && ArrayAt(s2) == Bad(e)
    ensures FieldAt(s, found) == Bad(e)
  {
  }

  // ---------- integers ----------

  /** An optional minus and digits. */
  ghost predicate SignedDigits(text: seq<byte>) {
    var digits := if text != [] && text[0] == MINUS then text[1..] else text;
    digits != [] && AllDigits(digits)
  }

  /** Any signed digits are read whole, with the value they denote; what leaves the 64-bit range is
      refused for that. */
  lemma {:induction false} IntegerJudged(s: seq<byte>, text: seq<byte>, rest: seq<byte>)
    requires SignedDigits(text) && Skipped(s) == text + rest && rest != [] && !Digit(rest[0])
    ensures var v := NumeralValue(text);
            IntegerAt(s) == if -9223372036854775808 <= v <= 9223372036854775807 then Got(v, rest) else Bad(IntegerRange)
  {
    var t := text + rest;
    var sign := SignLength(t);
    assert t[0] == text[0];
    var digits := text[sign..];
    assert t[sign..] == digits + rest;
    DigitsThenStop(digits, rest);
    assert t[..|text|] == text && t[|text|..] == rest;
  }

  /** Something that is no number is refused for that. */
  lemma {:induction false} NumberMissing(s: seq<byte>, sign: seq<byte>, rest: seq<byte>)
    requires (sign == [] || sign == [MINUS]) && Skipped(s) == sign + rest
    requires rest == [] || (!Digit(rest[0]) && rest[0] != MINUS)
    ensures IntegerAt(s) == Bad(ParseError.NoInteger)
  {
    assert (sign + rest)[|sign|..] == rest;
  }

  // ---------- terms ----------

  lemma {:induction false} TermsTurn(s: seq<byte>, count: nat, t: Triple, rest: seq<byte>, s': seq<byte>)
    requires TermAt(s) == Got(t, rest) && After(rest, COMMA) == Some(s') && count < WIDTH
    ensures TermsAt(s', count + 1).Bad? ==> TermsAt(s, count) == TermsAt(s', count + 1)
  {
  }

  type Reader = (seq<byte>, nat) -> Parsed<seq<Triple>>

  /** The reader of term lists, as a value. */
  ghost predicate ReadsTerms(reader: Reader) {
    forall s, n {:trigger TermsAt(s, n)} :: reader(s, n) == TermsAt(s, n)
  }

  /** What goes wrong at `s'` goes wrong at `s`. */
  ghost predicate Passes(reader: Reader, s: seq<byte>, m: nat, s': seq<byte>, n: nat) {
    reader(s', n).Bad? ==> reader(s, m) == reader(s', n)
  }

  lemma {:induction false} GoodSplit(good: seq<Triple>, tail: seq<Token>)
    requires good != []
    ensures GoodThen(good, tail) == TermTokens(good[0], [Punct(COMMA)] + GoodThen(good[1..], tail))
  {
  }

  lemma {:induction false} GoodTurn(s: seq<byte>, t: Triple, rest: seq<Token>, count: nat) returns (next: seq<byte>)
    requires count < WIDTH && Spells(s, TermTokens(t, [Punct(COMMA)] + rest))
    ensures Spells(next, rest)
    ensures TermsAt(next, count + 1).Bad? ==> TermsAt(s, count) == TermsAt(next, count + 1)
  {
    var after;
    after, next := TermThenMark(s, t, COMMA, rest);
    TermsTurn(s, count, t, after, next);
  }

  lemma {:induction false} GoodStep(s: seq<byte>, good: seq<Triple>, tail: seq<Token>, count: nat, reader: Reader)
    returns (next: seq<byte>)
    requires ReadsTerms(reader) && good != [] && count < WIDTH && Spells(s, GoodThen(good, tail))
    ensures Spells(next, GoodThen(good[1..], tail)) && Passes(reader, s, count, next, count + 1)
  {
    GoodSplit(good, tail);
    next := GoodTurn(s, good[0], GoodThen(good[1..], tail), count);
  }

  /** What goes wrong after good terms goes wrong in the list. */
  lemma {:induction false} AfterGood(s: seq<byte>, good: seq<Triple>, tail: seq<Token>, count: nat, all: nat,
                                     reader: Reader)
    returns (s': seq<byte>)
    requires ReadsTerms(reader) && count + |good| == all <= WIDTH && Spells(s, GoodThen(good, tail))
    ensures Spells(s', tail) && Passes(reader, s, count, s', all)
    decreases |good|
  {
    if good == [] {
      s' := s;
    } else {
      var next := GoodStep(s, good, tail, count, reader);
      s' := AfterGood(next, good[1..], tail, count + 1, all, reader);
    }
  }

  lemma {:induction false} RawParts(s: seq<byte>, s1: seq<byte>, s2: seq<byte>, s3: seq<byte>, s4: seq<byte>,
                                    q: int, t: int, c: int)
    requires After(s, OPEN) == Some(s1) && IntegerThen(s1, COMMA) == Got(q, s2)
    requires IntegerThen(s2, COMMA) == Got(t, s3) && IntegerThen(s3, CLOSE) == Got(c, s4)
    ensures TermAt(s) == Ranged(q, t, c, s4)
  {
    assert TermTail(q, s2) == Ranged(q, t, c, s4);
  }

  lemma {:induction false} LastTwo(s: seq<byte>, t: int, c: int, more: seq<Token>)
    returns (s3: seq<byte>, s4: seq<byte>)
    requires Spells(s, NumberTokens(t, COMMA, NumberTokens(c, CLOSE, more)))
    ensures IntegerThen(s, COMMA) == Got(t, s3) && IntegerThen(s3, CLOSE) == Got(c, s4)
  {
    s3 := IntegerThenRead(s, t, COMMA, NumberTokens(c, CLOSE, more));
    s4 := IntegerThenRead(s3, c, CLOSE, more);
  }

  /** A term of three integers is judged by their ranges. */
  lemma {:induction false} TermJudged(s: seq<byte>, q: int, t: int, c: int, more: seq<Token>)
    requires Spells(s, RawTerm(q, t, c, more))
    ensures exists rest :: TermAt(s) == Ranged(q, t, c, rest)
  {
    var tail := NumberTokens(t, COMMA, NumberTokens(c, CLOSE, more));
    var s1 := MarkRead(s, OPEN, NumberTokens(q, COMMA, tail));
    var s2 := IntegerThenRead(s1, q, COMMA, tail);
    var s3, s4 := LastTwo(s2, t, c, more);
    RawParts(s, s1, s2, s3, s4, q, t, c);
  }

  /** What is wrong with the next item of a list of `count` terms. */
  function ItemFault(q: int, t: int, c: int, count: nat): Option<ParseError> {
    if !(0 <= q < 0x1_0000_0000 && 0 <= t < 0x1_0000_0000) then Some(ExponentRange)
    else if !(-0x8000_0000 <= c < 0x8000_0000) then Some(CoefficientRange)
    else if count == 8 then Some(TermLimit)
    else None
  }

  lemma {:induction false} ItemJudged(s: seq<byte>, q: int, t: int, c: int, rest: seq<byte>, count: nat)
    requires TermAt(s) == Ranged(q, t, c, rest) && count <= WIDTH
    ensures ItemFault(q, t, c, count).Some? ==> TermsAt(s, count) == Bad(ItemFault(q, t, c, count).value)
  {
  }

  /** In a list after `count` terms, also the number of terms counts, after the ranges. */
  lemma {:induction false} ListJudged(s: seq<byte>, q: int, t: int, c: int, more: seq<Token>, count: nat)
    requires Spells(s, RawTerm(q, t, c, more)) && count <= WIDTH
    ensures ItemFault(q, t, c, count).Some? ==> TermsAt(s, count) == Bad(ItemFault(q, t, c, count).value)
  {
    TermJudged(s, q, t, c, more);
    var rest :| TermAt(s) == Ranged(q, t, c, rest);
    ItemJudged(s, q, t, c, rest, count);
  }

  lemma {:induction false} ArrayOf(s: seq<byte>, rest: seq<byte>)
    requires After(s, OPEN) == Some(rest) && After(rest, CLOSE) == None
    ensures ArrayAt(s) == TermsAt(rest, 0)
  {
  }

  lemma {:induction false} GoodOpens(good: seq<Triple>, tail: seq<Token>)
    requires tail != [] && tail[0] == Punct(OPEN)
    ensures GoodThen(good, tail) != [] && GoodThen(good, tail)[0] == Punct(OPEN)
  {
  }

  /** What goes wrong in the list goes wrong in the field. */
  lemma {:induction false} AtList(s: seq<byte>, x: byte, list: seq<Token>, found: Fields) returns (s3: seq<byte>)
    requires FieldLetter(x) && (if x == LETTER_A then found.a.None? else found.b.None?)
    requires list != [] && list[0] == Punct(OPEN)
    requires Spells(s, [Name(x)] + ([Punct(COLON)] + ([Punct(OPEN)] + list)))
    ensures Spells(s3, list)
    ensures TermsAt(s3, 0).Bad? ==> FieldAt(s, found) == Bad(TermsAt(s3, 0).error)
  {
    var s1 := NameRead(s, x, [Punct(COLON)] + ([Punct(OPEN)] + list));
    var s2 := MarkRead(s1, COLON, [Punct(OPEN)] + list);
    s3 := MarkRead(s2, OPEN, list);
    OtherMark(s3, list, CLOSE);
    ArrayOf(s2, s3);
    if TermsAt(s3, 0).Bad? { BadList(s, x, found, s1, s2, TermsAt(s3, 0).error); }
  }

  lemma {:induction false} ListError(s: seq<byte>, s': seq<byte>, n: nat, reader: Reader, e: ParseError)
    requires ReadsTerms(reader) && Passes(reader, s, 0, s', n) && TermsAt(s', n) == Bad(e)
    ensures TermsAt(s, 0) == Bad(e)
  {
    assert reader(s', n) == TermsAt(s', n);
  }

  /** A list whose next item after good terms is at fault is refused for that. */
  lemma {:induction false} ListIsRefused(s: seq<byte>, good: seq<Triple>, q: int, t: int, c: int, more: seq<Token>)
    requires |good| <= WIDTH && Spells(s, GoodThen(good, RawTerm(q, t, c, more)))
    requires ItemFault(q, t, c, |good|).Some?
    ensures TermsAt(s, 0) == Bad(ItemFault(q, t, c, |good|).value)
  {
    var reader: Reader := (text: seq<byte>, count: nat) => TermsAt(text, count);
    var s' := AfterGood(s, good, RawTerm(q, t, c, more), 0, |good|, reader);
    ListJudged(s', q, t, c, more, |good|);
    ListError(s, s', |good|, reader, ItemFault(q, t, c, |good|).value);
  }

  lemma {:induction false} FieldIsRefused(s: seq<byte>, x: byte, good: seq<Triple>, q: int, t: int, c: int,
                                          more: seq<Token>, found: Fields)
    requires FieldLetter(x) && (if x == LETTER_A then found.a.None? else found.b.None?) && |good| <= WIDTH
    requires Spells(s, FieldThen(x, good, RawTerm(q, t, c, more)))
    requires ItemFault(q, t, c, |good|).Some?
    ensures FieldAt(s, found) == Bad(ItemFault(q, t, c, |good|).value)
  {
    GoodOpens(good, RawTerm(q, t, c, more));
    var s3 := AtList(s, x, GoodThen(good, RawTerm(q, t, c, more)), found);
    ListIsRefused(s3, good, q, t, c, more);
  }

  /** A term that is out of range or one too many, in either field and after any good terms, is refused
      for just that. */
  lemma {:induction false} TermIsRefused(s: seq<byte>, x: byte, before: Option<seq<Triple>>, good: seq<Triple>,
                                         q: int, t: int, c: int, more: seq<Token>)
    requires FieldLetter(x) && |good| <= 8 && (before.Some? ==> |before.value| <= 8)
    requires Spells(s, Leading(x, before, FieldThen(x, good, RawTerm(q, t, c, more))))
    ensures ItemFault(q, t, c, |good|).Some? ==> ParseRequest(s) == Rejected(ItemFault(q, t, c, |good|).value)
  {
    var s' := AtField(s, x, before, FieldThen(x, good, RawTerm(q, t, c, more)));
    if ItemFault(q, t, c, |good|).Some? { FieldIsRefused(s', x, good, q, t, c, more, FoundBefore(x, before)); }
  }

  // ---------- fields ----------

  lemma {:induction false} KnownField(s: seq<byte>, found: Fields, x: byte, s1: seq<byte>, s2: seq<byte>)
    requires FieldLetter(x) && StringAt(s) == Got([x], s1) && After(s1, COLON) == Some(s2)
    ensures x == LETTER_A && found.a.Some? ==> FieldAt(s, found) == Bad(DuplicateA)
    ensures x == LETTER_B && found.b.Some? ==> FieldAt(s, found) == Bad(DuplicateB)
  {
  }

  /** The same field again is a duplicate, whatever follows. */
  lemma {:induction false} DuplicateIsRefused(s: seq<byte>, x: byte, terms: seq<Triple>, more: seq<Token>)
    requires FieldLetter(x) && |terms| <= 8
    requires Spells(s, Leading(Other(x), Some(terms), [Name(x)] + ([Punct(COLON)] + more)))
    ensures ParseRequest(s) == Rejected(if x == LETTER_A then DuplicateA else DuplicateB)
  {
    var s' := AtField(s, Other(x), Some(terms), [Name(x)] + ([Punct(COLON)] + more));
    var s1 := NameRead(s', x, [Punct(COLON)] + more);
    var s2 := MarkRead(s1, COLON, more);
    KnownField(s', FoundBefore(Other(x), Some(terms)), x, s1, s2);
  }

  lemma {:induction false} OtherBody(letter: byte, after: seq<byte>)
    requires letter != QUOTE && letter != BACKSLASH && !Control(letter)
    ensures StringBody([letter, QUOTE] + after) == Got([letter], after)
  {
    var s := [letter, QUOTE] + after;
    assert s[1..] == [QUOTE] + after && s[1..][1..] == after;
    assert StringBody(s[1..]) == Got([], after);
    assert [letter] + [] == [letter];
  }

  /** A field of any other one-letter name is not supported. */
  lemma {:induction false} UnknownIsRefused(s: seq<byte>, x: byte, before: Option<seq<Triple>>, letter: byte,
                                            more: seq<Token>)
    requires FieldLetter(x) && !FieldLetter(letter) && (before.Some? ==> |before.value| <= 8)
    requires letter != QUOTE && letter != BACKSLASH && !Control(letter)
    requires Spells(s, Leading(x, before, [Name(letter)] + ([Punct(COLON)] + more)))
    ensures ParseRequest(s) == Rejected(UnsupportedField)
  {
    var field := [Name(letter)] + ([Punct(COLON)] + more);
    var s' := AtField(s, x, before, field);
    assert field[1..] == [Punct(COLON)] + more;
    var e, text := ReadToken(s', field);
    OtherAhead(s', letter, s'[e..]);
    var s2 := MarkRead(s'[e..], COLON, more);
    UnknownField(s', FoundBefore(x, before), letter, s'[e..], s2);
  }

  lemma {:induction false} OtherAhead(s: seq<byte>, letter: byte, after: seq<byte>)
    requires letter != QUOTE && letter != BACKSLASH && !Control(letter)
    requires Skipped(s) == [QUOTE, letter, QUOTE] + after
    ensures StringAt(s) == Got([letter], after)
  {
    OtherBody(letter, after);
    assert Skipped(s)[1..] == [letter, QUOTE] + after;
  }

  lemma {:induction false} UnknownField(s: seq<byte>, found: Fields, letter: byte, s1: seq<byte>, s2: seq<byte>)
    requires !FieldLetter(letter) && StringAt(s) == Got([letter], s1) && After(s1, COLON) == Some(s2)
    ensures FieldAt(s, found) == Bad(UnsupportedField)
  {
  }

  // ---------- the whole object ----------

  lemma {:induction false} OneFieldOnly(s: seq<byte>, one: Fields, rest: seq<byte>, after: seq<byte>)
    requires FieldAt(s, NONE) == Got(one, rest) && After(rest, COMMA) == None && After(rest, RBRACE) == Some(after)
    ensures FieldsAt(s, NONE) == Got(one, after)
  {
  }

  /** A request of one field misses the other, or has something after it. */
  lemma {:induction false} MissingIsRefused(s: seq<byte>, x: byte, terms: seq<Triple>, more: seq<Token>)
    requires FieldLetter(x) && |terms| <= 8 && (more != [] ==> RequestParser.Plain(more[0]))
    requires Spells(s, [Punct(LBRACE)] + FieldTokens(x, terms, [Punct(RBRACE)] + more))
    ensures ParseRequest(s) ==
      Rejected(if more != [] then TrailingBytes else if x == LETTER_A then MissingB else MissingA)
  {
    var field := FieldTokens(x, terms, [Punct(RBRACE)] + more);
    var s1 := MarkRead(s, LBRACE, field);
    OtherMark(s1, field, RBRACE);
    var rest := FieldRead(s1, x, terms, [Punct(RBRACE)] + more, NONE);
    var after := MarkRead(rest, RBRACE, more);
    OneFieldOnly(s1, Filled(NONE, x, terms), rest, after);
    Remains(after, more);
  }

  lemma {:induction false} Remains(s: seq<byte>, more: seq<Token>)
    requires (more != [] ==> RequestParser.Plain(more[0])) && Spells(s, more)
    ensures Skipped(s) == [] <==> more == []
  {
    if more == [] {
      SpacesOnly(s);
    } else {
      var e, text := ReadToken(s, more);
    }
  }

  /** A complete request with something after it is refused. */
  lemma {:induction false} TrailingIsRefused(s: seq<byte>, x: byte, first: seq<Triple>, second: seq<Triple>,
                                             more: seq<Token>)
    requires FieldLetter(x) && |first| <= 8 && |second| <= 8 && more != [] && RequestParser.Plain(more[0])
    requires Spells(s, Leading(x, Some(first), FieldTokens(x, second, [Punct(RBRACE)] + more)))
    ensures ParseRequest(s) == Rejected(TrailingBytes)
  {
    var two := FieldTokens(x, second, [Punct(RBRACE)] + more);
    var one := FieldTokens(Other(x), first, [Punct(COMMA)] + two);
    var s1 := MarkRead(s, LBRACE, one);
    OtherMark(s1, one, RBRACE);
    var found := Filled(NONE, Other(x), first);
    var rest := FieldRead(s1, Other(x), first, [Punct(COMMA)] + two, NONE);
    var s2 := MarkRead(rest, COMMA, two);
    var rest' := FieldRead(s2, x, second, [Punct(RBRACE)] + more, found);
    var after := MarkRead(rest', RBRACE, more);
    FieldsParts(s1, NONE, found, rest, s2, Filled(found, x, second), rest', after);
    Remains(after, more);
  }

  /** An empty object is refused, whatever follows it. */
  lemma {:induction false} EmptyIsRefused(s: seq<byte>, more: seq<Token>)
    requires Spells(s, [Punct(LBRACE)] + ([Punct(RBRACE)] + more))
    ensures ParseRequest(s) == Rejected(EmptyObject)
  {
    var rest := MarkRead(s, LBRACE, [Punct(RBRACE)] + more);
    var after := MarkRead(rest, RBRACE, more);
  }
}
