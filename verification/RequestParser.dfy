/** The request parser as functions of the unread bytes: it accepts exactly the requests of the
    grammar. */
module RequestParser {
  import opened Options
  import opened MachineInts
  import opened LaurentReference
  import opened RequestGrammar

  datatype ParseError =
    | Expected(mark: byte)
    | TruncatedEscape | BadEscape | ControlByte | Unterminated
    | NoInteger | IntegerRange | ExponentRange | CoefficientRange
    | TermLimit | ExpectedCommaOrClose
    | EmptyObject | DuplicateA | DuplicateB | UnsupportedField
    | TrailingBytes | MissingA | MissingB

  datatype Parsed<T> = Got(value: T, rest: seq<byte>) | Bad(error: ParseError)

  datatype Fields = Fields(a: Option<seq<Triple>>, b: Option<seq<Triple>>)
  datatype Answer = Factors(a: seq<Triple>, b: seq<Triple>) | Rejected(error: ParseError)

  // ---------- the parser ----------

  function Spaces(s: seq<byte>): (n: nat)
    ensures n <= |s|
  {
    if s != [] && Space(s[0]) then 1 + Spaces(s[1..]) else 0
  }

  function Skipped(s: seq<byte>): (r: seq<byte>)
    ensures |r| <= |s|
  {
    s[Spaces(s)..]
  }

  /** The bytes after the mark, if it comes next. */
  function After(s: seq<byte>, mark: byte): (r: Option<seq<byte>>)
    ensures r.Some? ==> |r.value| < |s|
  {
    var t := Skipped(s);
    if t != [] && t[0] == mark then Some(t[1..]) else None
  }

  function Unescaped(b: byte): Option<byte> {
    if b == QUOTE || b == BACKSLASH || b == SLASH then Some(b)
    else if b == 98 then Some(8)
    else if b == 102 then Some(12)
    else if b == 110 then Some(10)
    else if b == 114 then Some(13)
    else if b == 116 then Some(9)
    else None
  }

  /** A string after its opening quote. */
  function StringBody(s: seq<byte>): (r: Parsed<seq<byte>>)
    ensures r.Got? ==> |r.rest| < |s|
  {
    if s == [] then Bad(Unterminated)
    else if s[0] == QUOTE then Got([], s[1..])
    else if s[0] == BACKSLASH then
      if |s| == 1 then Bad(TruncatedEscape)
      else
        match Unescaped(s[1])
        case None => Bad(BadEscape)
        case Some(b) => Prepend(b, StringBody(s[2..]))
    else if Control(s[0]) then Bad(ControlByte)
    else Prepend(s[0], StringBody(s[1..]))
  }

  function Prepend(b: byte, p: Parsed<seq<byte>>): Parsed<seq<byte>> {
    if p.Got? then Got([b] + p.value, p.rest) else p
  }

  function StringAt(s: seq<byte>): (r: Parsed<seq<byte>>)
    ensures r.Got? ==> |r.rest| < |s|
  {
    match After(s, QUOTE)
    case None => Bad(Expected(QUOTE))
    case Some(rest) => StringBody(rest)
  }

  function DigitRun(s: seq<byte>): (n: nat)
    ensures n <= |s|
  {
    if s != [] && Digit(s[0]) then 1 + DigitRun(s[1..]) else 0
  }

  function SignLength(s: seq<byte>): (n: nat)
    ensures n <= |s|
  {
    if s != [] && s[0] == MINUS then 1 else 0
  }

  function IntegerAt(s: seq<byte>): (r: Parsed<int>)
    ensures r.Got? ==> |r.rest| < |s| && FitsI64(r.value)
  {
    var t := Skipped(s);
    var sign := SignLength(t);
    var n := DigitRun(t[sign..]);
    if n == 0 then Bad(NoInteger)
    else
      var v := NumeralValue(t[..sign + n]);
      if FitsI64(v) then Got(v, t[sign + n..]) else Bad(IntegerRange)
  }

  /** An integer and the mark after it. */
  function IntegerThen(s: seq<byte>, mark: byte): (r: Parsed<int>)
    ensures r.Got? ==> |r.rest| < |s|
  {
    match IntegerAt(s)
    case Bad(e) => Bad(e)
    case Got(v, rest) =>
      match After(rest, mark)
      case None => Bad(Expected(mark))
      case Some(rest') => Got(v, rest')
  }

  function Ranged(qe: int, te: int, coef: int, rest: seq<byte>): Parsed<Triple> {
    if qe < 0 || qe >= U32 || te < 0 || te >= U32 then Bad(ExponentRange)
    else if !FitsI32(coef) then Bad(CoefficientRange)
    else Got(Triple(qe, te, coef), rest)
  }

  function TermAt(s: seq<byte>): (r: Parsed<Triple>)
    ensures r.Got? ==> |r.rest| < |s|
  {
    match After(s, OPEN)
    case None => Bad(Expected(OPEN))
    case Some(s1) =>
      match IntegerThen(s1, COMMA)
      case Bad(e) => Bad(e)
      case Got(qe, s2) => TermTail(qe, s2)
  }

  /** A term after its first exponent. */
  function TermTail(qe: int, s: seq<byte>): (r: Parsed<Triple>)
    ensures r.Got? ==> |r.rest| < |s|
  {
    match IntegerThen(s, COMMA)
    case Bad(e) => Bad(e)
    case Got(te, s3) =>
      match IntegerThen(s3, CLOSE)
      case Bad(e) => Bad(e)
      case Got(coef, s4) => Ranged(qe, te, coef, s4)
  }

  /** The terms of a nonempty list after `count` earlier ones, up to its closing bracket. */
  function TermsAt(s: seq<byte>, count: nat): (r: Parsed<seq<Triple>>)
    ensures r.Got? ==> |r.rest| < |s|
    ensures r.Got? ==> 0 < |r.value| && count + |r.value| <= WIDTH
    decreases |s|
  {
    match TermAt(s)
    case Bad(e) => Bad(e)
    case Got(term, rest) =>
      if count + 1 > WIDTH then Bad(TermLimit)
      else
        match After(rest, COMMA)
        case Some(s') =>
          (match TermsAt(s', count + 1)
           case Bad(e) => Bad(e)
           case Got(terms, rest') => Got([term] + terms, rest'))
        case None =>
          match After(rest, CLOSE)
          case Some(s') => Got([term], s')
          case None => Bad(ExpectedCommaOrClose)
  }

  function ArrayAt(s: seq<byte>): (r: Parsed<seq<Triple>>)
    ensures r.Got? ==> |r.rest| < |s| && |r.value| <= WIDTH
  {
    match After(s, OPEN)
    case None => Bad(Expected(OPEN))
    case Some(rest) =>
      match After(rest, CLOSE)
      case Some(rest') => Got([], rest')
      case None => TermsAt(rest, 0)
  }

  /** One field, added to those found before. */
  function FieldAt(s: seq<byte>, found: Fields): (r: Parsed<Fields>)
    ensures r.Got? ==> |r.rest| < |s|
  {
    match StringAt(s)
    case Bad(e) => Bad(e)
    case Got(key, s1) =>
      match After(s1, COLON)
      case None => Bad(Expected(COLON))
      case Some(s2) =>
        if key == [LETTER_A] then
          if found.a.Some? then Bad(DuplicateA)
          else
            match ArrayAt(s2)
            case Bad(e) => Bad(e)
            case Got(terms, s3) => Got(found.(a := Some(terms)), s3)
        else if key == [LETTER_B] then
          if found.b.Some? then Bad(DuplicateB)
          else
            match ArrayAt(s2)
            case Bad(e) => Bad(e)
            case Got(terms, s3) => Got(found.(b := Some(terms)), s3)
        else Bad(UnsupportedField)
  }

  function FieldsAt(s: seq<byte>, found: Fields): (r: Parsed<Fields>)
    ensures r.Got? ==> |r.rest| < |s|
    decreases |s|
  {
    match FieldAt(s, found)
    case Bad(e) => Bad(e)
    case Got(now, rest) =>
      match After(rest, COMMA)
      case Some(s') => FieldsAt(s', now)
      case None =>
        match After(rest, RBRACE)
        case Some(s') => Got(now, s')
        case None => Bad(ExpectedCommaOrClose)
  }

  /** The last checks, on the fields and the bytes after the closing brace. */
  function Judged(p: Parsed<Fields>): Answer {
    match p
    case Bad(e) => Rejected(e)
    case Got(found, rest) =>
      if Skipped(rest) != [] then Rejected(TrailingBytes)
      else if found.a.None? then Rejected(MissingA)
      else if found.b.None? then Rejected(MissingB)
      else Factors(found.a.value, found.b.value)
  }

  function ParseRequest(s: seq<byte>): Answer {
    match After(s, LBRACE)
    case None => Rejected(Expected(LBRACE))
    case Some(rest) =>
      if After(rest, RBRACE).Some? then Rejected(EmptyObject)
      else Judged(FieldsAt(rest, Fields(None, None)))
  }

  // ---------- completeness: spelled tokens are read ----------

  lemma {:induction false} SpacesAre(s: seq<byte>, w: nat)
    requires w < |s| && AllSpace(s[..w]) && !Space(s[w])
    ensures Spaces(s) == w && Skipped(s) == s[w..]
  {
    if w > 0 {
      assert Space(s[..w][0]);
      assert s[1..][..w - 1] == s[..w][1..];
      SpacesAre(s[1..], w - 1);
    }
  }

  lemma {:induction false} DigitsAre(s: seq<byte>, n: nat)
    requires n <= |s| && AllDigits(s[..n]) && (n < |s| ==> !Digit(s[n]))
    ensures DigitRun(s) == n
  {
    if n > 0 {
      assert Digit(s[..n][0]);
      assert s[1..][..n - 1] == s[..n][1..];
      DigitsAre(s[1..], n - 1);
    }
  }

  /** The first byte of a spelled token. */
  predicate Opens(b: byte, t: Token) {
    match t
    case Punct(mark) => b == mark
    case Name(_) => b == QUOTE
    case Number(_) => b == MINUS || Digit(b)
  }

  predicate Plain(t: Token) {
    t.Punct? ==> !Space(t.mark) && !Digit(t.mark)
  }

  lemma {:induction false} WrittenOpens(text: seq<byte>, t: Token)
    requires Writes(text, t)
    ensures text != [] && Opens(text[0], t)
  {
    if t.Number? && text[0] != MINUS { assert Digit(text[0]); }
  }

  lemma {:induction false} TokenStart(s: seq<byte>, w: nat, e: nat, t: Token)
    requires Plain(t) && TokenAt(s, w, e, t)
    ensures Opens(s[w..e][0], t) && Skipped(s) == s[w..]
  {
    WrittenOpens(s[w..e], t);
    assert s[w] == s[w..e][0];
    SpacesAre(s, w);
  }

  lemma {:induction false} ReadToken(s: seq<byte>, tokens: seq<Token>) returns (e: nat, text: seq<byte>)
    requires tokens != [] && Plain(tokens[0]) && Spells(s, tokens)
    ensures Writes(text, tokens[0]) && text != [] && Opens(text[0], tokens[0])
    ensures e <= |s| && Skipped(s) == text + s[e..] && Spells(s[e..], tokens[1..])
  {
    var w;
    w, e := SpellsElim(s, tokens);
    text := s[w..e];
    TokenStart(s, w, e, tokens[0]);
    assert s[w..] == text + s[e..];
  }

  /** What stands before a mark is not a digit. */
  lemma {:induction false} NoDigitAhead(s: seq<byte>, tokens: seq<Token>)
    requires tokens != [] && tokens[0].Punct? && Plain(tokens[0]) && Spells(s, tokens)
    ensures s != [] && !Digit(s[0])
  {
    var w, e := SpellsElim(s, tokens);
    if w > 0 { assert Space(s[..w][0]); } else { assert s[0] == s[w..e][0]; }
  }

  lemma {:induction false} MarkRead(s: seq<byte>, mark: byte, more: seq<Token>) returns (after: seq<byte>)
    requires !Space(mark) && !Digit(mark) && Spells(s, [Punct(mark)] + more)
    ensures After(s, mark) == Some(after) && Spells(after, more)
    ensures forall other :: other != mark ==> After(s, other) == None
  {
    assert ([Punct(mark)] + more)[1..] == more;
    var e, text := ReadToken(s, [Punct(mark)] + more);
    after := s[e..];
    assert (text + after)[1..] == after;
  }

  lemma {:induction false} OtherMark(s: seq<byte>, tokens: seq<Token>, mark: byte)
    requires tokens != [] && Plain(tokens[0]) && Spells(s, tokens)
    requires !Opens(mark, tokens[0])
    ensures After(s, mark) == None
  {
    var e, text := ReadToken(s, tokens);
  }

  lemma {:induction false} NameRead(s: seq<byte>, letter: byte, more: seq<Token>) returns (after: seq<byte>)
    requires Spells(s, [Name(letter)] + more)
    requires letter == LETTER_A || letter == LETTER_B
    ensures StringAt(s) == Got([letter], after) && Spells(after, more)
  {
    assert ([Name(letter)] + more)[1..] == more;
    var e, text := ReadToken(s, [Name(letter)] + more);
    after := s[e..];
    NameAhead(s, letter, after);
  }

  lemma {:induction false} NameAhead(s: seq<byte>, letter: byte, after: seq<byte>)
    requires letter == LETTER_A || letter == LETTER_B
    requires Skipped(s) == [QUOTE, letter, QUOTE] + after
    ensures StringAt(s) == Got([letter], after)
  {
    LetterBody(letter, after);
    assert Skipped(s)[1..] == [letter, QUOTE] + after;
    assert After(s, QUOTE) == Some([letter, QUOTE] + after);
  }

  lemma {:induction false} LetterBody(letter: byte, after: seq<byte>)
    requires letter == LETTER_A || letter == LETTER_B
    ensures StringBody([letter, QUOTE] + after) == Got([letter], after)
  {
    var s := [letter, QUOTE] + after;
    assert s[1..] == [QUOTE] + after && s[1..][1..] == after;
    assert StringBody(s[1..]) == Got([], after);
    assert [letter] + [] == [letter];
  }

  lemma {:induction false} IntegerRead(s: seq<byte>, v: int, mark: byte, more: seq<Token>)
    returns (after: seq<byte>)
    requires !Space(mark) && !Digit(mark) && Spells(s, NumberTokens(v, mark, more))
    ensures IntegerAt(s) == Got(v, after) && Spells(after, [Punct(mark)] + more)
  {
    var tail := [Punct(mark)] + more;
    assert ([Number(v)] + tail)[1..] == tail;
    var e, text := ReadToken(s, [Number(v)] + tail);
    after := s[e..];
    NoDigitAhead(after, tail);
    NumeralRead(s, text, after, v);
  }

  /** A numeral with no digit after it is read whole. */
  lemma {:induction false} NumeralRead(s: seq<byte>, text: seq<byte>, rest: seq<byte>, v: int)
    requires Numeral(text, v) && Skipped(s) == text + rest
    requires rest != [] && !Digit(rest[0])
    ensures IntegerAt(s) == Got(v, rest)
  {
    var t := text + rest;
    var sign := SignLength(t);
    assert t[0] == text[0];
    var digits := text[sign..];
    assert t[sign..] == digits + rest;
    DigitsThenStop(digits, rest);
    assert t[..|text|] == text && t[|text|..] == rest;
  }

  lemma {:induction false} DigitsThenStop(digits: seq<byte>, rest: seq<byte>)
    requires AllDigits(digits) && rest != [] && !Digit(rest[0])
    ensures DigitRun(digits + rest) == |digits|
  {
    var u := digits + rest;
    assert u[..|digits|] == digits && u[|digits|] == rest[0];
    DigitsAre(u, |digits|);
  }

  lemma {:induction false} IntegerThenRead(s: seq<byte>, v: int, mark: byte, more: seq<Token>)
    returns (after: seq<byte>)
    requires !Space(mark) && !Digit(mark) && Spells(s, NumberTokens(v, mark, more))
    ensures IntegerThen(s, mark) == Got(v, after) && Spells(after, more)
  {
    var rest := IntegerRead(s, v, mark, more);
    after := MarkRead(rest, mark, more);
  }

  lemma {:induction false} TailParts(s: seq<byte>, t: Triple, s3: seq<byte>, s4: seq<byte>)
    requires IntegerThen(s, COMMA) == Got(t.te, s3) && IntegerThen(s3, CLOSE) == Got(t.coef, s4)
    ensures TermTail(t.qe, s) == Got(t, s4)
  {
  }

  lemma {:induction false} HeadParts(s: seq<byte>, t: Triple, s1: seq<byte>, s2: seq<byte>, s4: seq<byte>)
    requires After(s, OPEN) == Some(s1) && IntegerThen(s1, COMMA) == Got(t.qe, s2)
    requires TermTail(t.qe, s2) == Got(t, s4)
    ensures TermAt(s) == Got(t, s4)
  {
  }

  lemma {:induction false} TailRead(s: seq<byte>, t: Triple, more: seq<Token>) returns (after: seq<byte>)
    requires Spells(s, NumberTokens(t.te, COMMA, NumberTokens(t.coef, CLOSE, more)))
    ensures TermTail(t.qe, s) == Got(t, after) && Spells(after, more)
  {
    var s3 := IntegerThenRead(s, t.te, COMMA, NumberTokens(t.coef, CLOSE, more));
    after := IntegerThenRead(s3, t.coef, CLOSE, more);
    TailParts(s, t, s3, after);
  }

  lemma {:induction false} TermRead(s: seq<byte>, t: Triple, more: seq<Token>) returns (after: seq<byte>)
    requires Spells(s, TermTokens(t, more))
    ensures TermAt(s) == Got(t, after) && Spells(after, more)
  {
    var tail := NumberTokens(t.te, COMMA, NumberTokens(t.coef, CLOSE, more));
    var s1 := MarkRead(s, OPEN, NumberTokens(t.qe, COMMA, tail));
    var s2 := IntegerThenRead(s1, t.qe, COMMA, tail);
    after := TailRead(s2, t, more);
    HeadParts(s, t, s1, s2, after);
  }

  /** One turn of the term loop that ends the list, and one that goes on. */
  lemma {:induction false} TermsEnd(s: seq<byte>, count: nat, t: Triple, rest: seq<byte>, after: seq<byte>)
    requires TermAt(s) == Got(t, rest) && count < WIDTH
    requires After(rest, COMMA) == None && After(rest, CLOSE) == Some(after)
    ensures TermsAt(s, count) == Got([t], after)
  {
  }

  lemma {:induction false} TermsGoOn(s: seq<byte>, count: nat, t: Triple, rest: seq<byte>, s': seq<byte>,
                                     terms: seq<Triple>, after: seq<byte>)
    requires TermAt(s) == Got(t, rest) && count < WIDTH
    requires After(rest, COMMA) == Some(s') && TermsAt(s', count + 1) == Got(terms, after)
    ensures TermsAt(s, count) == Got([t] + terms, after)
  {
  }

  lemma {:induction false} FirstAndRest(terms: seq<Triple>)
    requires terms != []
    ensures terms == [terms[0]] + terms[1..]
    ensures |terms| == 1 ==> terms == [terms[0]]
  {
  }

  /** A term and the mark after it. */
  lemma {:induction false} TermThenMark(s: seq<byte>, t: Triple, mark: byte, tail: seq<Token>)
    returns (rest: seq<byte>, after: seq<byte>)
    requires !Space(mark) && !Digit(mark) && Spells(s, TermTokens(t, [Punct(mark)] + tail))
    ensures TermAt(s) == Got(t, rest) && Spells(after, tail)
    ensures After(rest, mark) == Some(after) && (mark != COMMA ==> After(rest, COMMA) == None)
  {
    rest := TermRead(s, t, [Punct(mark)] + tail);
    after := MarkRead(rest, mark, tail);
  }

  lemma {:induction false} TermOfLast(s: seq<byte>, terms: seq<Triple>, more: seq<Token>)
    returns (rest: seq<byte>, after: seq<byte>)
    requires |terms| == 1 && Spells(s, TermsTokens(terms, more))
    ensures TermAt(s) == Got(terms[0], rest) && After(rest, COMMA) == None && After(rest, CLOSE) == Some(after)
    ensures Spells(after, more)
  {
    rest, after := TermThenMark(s, terms[0], CLOSE, more);
  }

  lemma {:induction false} TermOfMany(s: seq<byte>, terms: seq<Triple>, more: seq<Token>)
    returns (rest: seq<byte>, s': seq<byte>)
    requires |terms| > 1 && Spells(s, TermsTokens(terms, more))
    ensures TermAt(s) == Got(terms[0], rest) && After(rest, COMMA) == Some(s')
    ensures Spells(s', TermsTokens(terms[1..], more))
  {
    rest, s' := TermThenMark(s, terms[0], COMMA, TermsTokens(terms[1..], more));
  }

  lemma {:induction false} LastTermRead(s: seq<byte>, terms: seq<Triple>, more: seq<Token>, count: nat)
    returns (after: seq<byte>)
    requires |terms| == 1 && count < WIDTH && Spells(s, TermsTokens(terms, more))
    ensures TermsAt(s, count) == Got([terms[0]], after) && Spells(after, more)
  {
    var rest;
    rest, after := TermOfLast(s, terms, more);
    TermsEnd(s, count, terms[0], rest, after);
  }

  lemma {:induction false} TermsRead(s: seq<byte>, terms: seq<Triple>, more: seq<Token>, count: nat)
    returns (after: seq<byte>)
    requires terms != [] && count + |terms| <= WIDTH && Spells(s, TermsTokens(terms, more))
    ensures TermsAt(s, count) == Got(terms, after) && Spells(after, more)
    decreases |terms|
  {
    if |terms| == 1 {
      after := LastTermRead(s, terms, more, count);
      FirstAndRest(terms);
    } else {
      var rest, s' := TermOfMany(s, terms, more);
      after := TermsRead(s', terms[1..], more, count + 1);
      TermsGoOn(s, count, terms[0], rest, s', terms[1..], after);
      FirstAndRest(terms);
    }
  }

  lemma {:induction false} ArrayRead(s: seq<byte>, terms: seq<Triple>, more: seq<Token>) returns (after: seq<byte>)
    requires |terms| <= WIDTH && Spells(s, ArrayTokens(terms, more))
    ensures ArrayAt(s) == Got(terms, after) && Spells(after, more)
  {
    if terms == [] {
      var rest := MarkRead(s, OPEN, [Punct(CLOSE)] + more);
      after := MarkRead(rest, CLOSE, more);
    } else {
      var tail := TermsTokens(terms, more);
      var rest := MarkRead(s, OPEN, tail);
      assert tail[0] == Punct(OPEN);
      OtherMark(rest, tail, CLOSE);
      after := TermsRead(rest, terms, more, 0);
    }
  }

  lemma {:induction false} FieldRead(s: seq<byte>, letter: byte, terms: seq<Triple>, more: seq<Token>,
                                     found: Fields)
    returns (after: seq<byte>)
    requires letter == LETTER_A || letter == LETTER_B
    requires if letter == LETTER_A then found.a.None? else found.b.None?
    requires |terms| <= WIDTH && Spells(s, FieldTokens(letter, terms, more))
    ensures FieldAt(s, found) == Got(Filled(found, letter, terms), after) && Spells(after, more)
  {
    var list := ArrayTokens(terms, more);
    var s1 := NameRead(s, letter, [Punct(COLON)] + list);
    var s2 := MarkRead(s1, COLON, list);
    after := ArrayRead(s2, terms, more);
    FieldParts(s, letter, terms, found, s1, s2, after);
  }

  function Filled(found: Fields, letter: byte, terms: seq<Triple>): Fields {
    if letter == LETTER_A then found.(a := Some(terms)) else found.(b := Some(terms))
  }

  lemma {:induction false} FieldParts(s: seq<byte>, letter: byte, terms: seq<Triple>, found: Fields,
                                      s1: seq<byte>, s2: seq<byte>,
                   after: seq<byte>)
    requires letter == LETTER_A || letter == LETTER_B
    requires if letter == LETTER_A then found.a.None? else found.b.None?
    requires StringAt(s) == Got([letter], s1) && After(s1, COLON) == Some(s2) && ArrayAt(s2) == Got(terms, after)
    ensures FieldAt(s, found) == Got(Filled(found, letter, terms), after)
  {
  }

  lemma {:induction false} SpacesOnly(s: seq<byte>)
    requires AllSpace(s)
    ensures Skipped(s) == []
  {
    if s != [] { SpacesOnly(s[1..]); }
  }

  lemma {:induction false} FieldsParts(s: seq<byte>, found: Fields, one: Fields, rest: seq<byte>, s': seq<byte>,
                    two: Fields, rest': seq<byte>, after: seq<byte>)
    requires FieldAt(s, found) == Got(one, rest) && After(rest, COMMA) == Some(s')
    requires FieldAt(s', one) == Got(two, rest') && After(rest', COMMA) == None && After(rest', RBRACE) == Some(after)
    ensures FieldsAt(s, found) == Got(two, after)
  {
    assert FieldsAt(s', one) == Got(two, after);
  }

  /** Two fields with different names and what ends them are read. */
  lemma {:induction false} PairRead(s: seq<byte>, x: byte, first: seq<Triple>, y: byte, second: seq<Triple>)
    returns (after: seq<byte>)
    requires (x == LETTER_A && y == LETTER_B) || (x == LETTER_B && y == LETTER_A)
    requires |first| <= WIDTH && |second| <= WIDTH
    requires Spells(s, FieldTokens(x, first, [Punct(COMMA)] + FieldTokens(y, second, [Punct(RBRACE)])))
    ensures FieldsAt(s, Fields(None, None)) == Got(Filled(Filled(Fields(None, None), x, first), y, second), after)
    ensures AllSpace(after)
  {
    var m := FieldTokens(y, second, [Punct(RBRACE)]);
    var none := Fields(None, None);
    var one, two := Filled(none, x, first), Filled(Filled(none, x, first), y, second);
    var rest := FieldRead(s, x, first, [Punct(COMMA)] + m, none);
    var s' := MarkRead(rest, COMMA, m);
    var rest' := FieldRead(s', y, second, [Punct(RBRACE)], one);
    assert [Punct(RBRACE)] + [] == [Punct(RBRACE)];
    after := MarkRead(rest', RBRACE, []);
    FieldsParts(s, none, one, rest, s', two, rest', after);
  }

  lemma {:induction false} RequestParts(s: seq<byte>, rest: seq<byte>, a: seq<Triple>, b: seq<Triple>,
                                        after: seq<byte>)
    requires After(s, LBRACE) == Some(rest) && After(rest, RBRACE) == None
    requires FieldsAt(rest, Fields(None, None)) == Got(Fields(Some(a), Some(b)), after) && Skipped(after) == []
    ensures ParseRequest(s) == Factors(a, b)
  {
  }

  /** A request in either field order is read back. */
  lemma {:induction false} RequestRead(s: seq<byte>, a: seq<Triple>, b: seq<Triple>)
    requires IsRequest(s, a, b)
    ensures ParseRequest(s) == Factors(a, b)
  {
    var aFirst := Spells(s, RequestTokens(a, b, true));
    var x, first := if aFirst then LETTER_A else LETTER_B, if aFirst then a else b;
    var y, second := if aFirst then LETTER_B else LETTER_A, if aFirst then b else a;
    var fields := FieldTokens(x, first, [Punct(COMMA)] + FieldTokens(y, second, [Punct(RBRACE)]));
    assert Spells(s, [Punct(LBRACE)] + fields);
    var rest := MarkRead(s, LBRACE, fields);
    OtherMark(rest, fields, RBRACE);
    var after := PairRead(rest, x, first, y, second);
    SpacesOnly(after);
    RequestParts(s, rest, a, b, after);
  }
}
