/** The cursor that reads a request: every method advances a position, and does what the parser
    functions say about the unread bytes. */
module JsonCursor {
  import opened Options
  import opened MachineInts
  import opened LaurentReference
  import opened RequestGrammar
  import opened RequestParser
  import opened RequestRoundTrip

  datatype Result<T> = Ok(value: T) | Err(error: ParseError)

  /** What a method reports for a parse, leaving the cursor after it. */
  ghost predicate Reports<T>(p: Parsed<T>, r: Result<T>, rest: seq<byte>) {
    match p
    case Got(v, after) => r == Ok(v) && rest == after
    case Bad(e) => r == Err(e)
  }

  function Onto(out: seq<byte>, p: Parsed<seq<byte>>): Parsed<seq<byte>> {
    if p.Got? then Got(out + p.value, p.rest) else p
  }

  function OntoTerms(out: seq<Triple>, p: Parsed<seq<Triple>>): Parsed<seq<Triple>> {
    if p.Got? then Got(out + p.value, p.rest) else p
  }

  lemma {:induction false} OntoNothing(p: Parsed<seq<byte>>)
    ensures Onto([], p) == p
  {
    if p.Got? { assert [] + p.value == p.value; }
  }

  lemma {:induction false} OntoNoTerms(p: Parsed<seq<Triple>>)
    ensures OntoTerms([], p) == p
  {
    if p.Got? { assert [] + p.value == p.value; }
  }

  lemma {:induction false} SkipOne(s: seq<byte>)
    ensures Skipped(s) == if s != [] && Space(s[0]) then Skipped(s[1..]) else s
  {
  }

  lemma {:induction false} StringStep(out: seq<byte>, s: seq<byte>, b: byte, rest: seq<byte>)
    requires StringBody(s) == Prepend(b, StringBody(rest))
    ensures Onto(out, StringBody(s)) == Onto(out + [b], StringBody(rest))
  {
    var p := StringBody(rest);
    if p.Got? { assert out + ([b] + p.value) == out + [b] + p.value; }
  }

  lemma {:induction false} OntoOne(out: seq<Triple>, t: Triple, p: Parsed<seq<Triple>>, q: Parsed<seq<Triple>>)
    requires q == if p.Got? then Got([t] + p.value, p.rest) else p
    ensures OntoTerms(out, q) == OntoTerms(out + [t], p)
  {
    if p.Got? { assert out + ([t] + p.value) == out + [t] + p.value; }
  }

  /** The turns of the term loop, by what the loop sees. */
  lemma {:induction false} TermsMore(s: seq<byte>, count: nat, t: Triple, rest: seq<byte>, s': seq<byte>)
    requires TermAt(s) == Got(t, rest) && After(rest, COMMA) == Some(s') && count < WIDTH
    ensures TermsAt(s, count) == (var p := TermsAt(s', count + 1); if p.Got? then Got([t] + p.value, p.rest) else p)
  {
  }

  lemma {:induction false} TermsStep(out: seq<Triple>, s: seq<byte>, t: Triple, rest: seq<byte>, s': seq<byte>)
    requires TermAt(s) == Got(t, rest) && After(rest, COMMA) == Some(s') && |out| < WIDTH
    ensures OntoTerms(out, TermsAt(s, |out|)) == OntoTerms(out + [t], TermsAt(s', |out| + 1))
  {
    TermsMore(s, |out|, t, rest, s');
    OntoOne(out, t, TermsAt(s', |out| + 1), TermsAt(s, |out|));
  }

  lemma {:induction false} TermsStop(out: seq<Triple>, s: seq<byte>, t: Triple, rest: seq<byte>, s': seq<byte>)
    requires TermAt(s) == Got(t, rest) && After(rest, COMMA) == None && After(rest, CLOSE) == Some(s')
    requires |out| < WIDTH
    ensures OntoTerms(out, TermsAt(s, |out|)) == Got(out + [t], s')
  {
    TermsEnd(s, |out|, t, rest, s');
  }

  /** The term at `s` is not taken after `count` others: it does not parse, or it is one too many. */
  ghost predicate TermRefused(s: seq<byte>, count: nat, e: ParseError) {
    TermAt(s) == Bad(e) || (TermAt(s).Got? && count >= WIDTH && e == TermLimit)
  }

  lemma {:induction false} TermsFail(out: seq<Triple>, s: seq<byte>, e: ParseError)
    requires TermRefused(s, |out|, e)
    ensures OntoTerms(out, TermsAt(s, |out|)) == Bad(e)
  {
  }

  lemma {:induction false} TermsUnclosed(out: seq<Triple>, s: seq<byte>, t: Triple, rest: seq<byte>)
    requires TermAt(s) == Got(t, rest) && After(rest, COMMA) == None && After(rest, CLOSE) == None
    requires |out| < WIDTH
    ensures OntoTerms(out, TermsAt(s, |out|)) == Bad(ExpectedCommaOrClose)
  {
  }

  /** `IntegerAt` after the white space. */
  function NumeralAt(t: seq<byte>): Parsed<int> {
    var sign := SignLength(t);
    var n := DigitRun(t[sign..]);
    if n == 0 then Bad(NoInteger)
    else if FitsI64(NumeralValue(t[..sign + n])) then Got(NumeralValue(t[..sign + n]), t[sign + n..])
    else Bad(IntegerRange)
  }

  lemma {:induction false} NumeralOf(s: seq<byte>, t: seq<byte>)
    requires t == Skipped(s)
    ensures IntegerAt(s) == NumeralAt(t)
  {
  }

  class Cursor {
    const bytes: seq<byte>
    var pos: nat

    constructor (input: seq<byte>)
      ensures bytes == input && pos == 0
    {
      bytes, pos := input, 0;
    }

    ghost predicate Valid()
      reads this
    {
      pos <= |bytes|
    }

    /** The unread bytes. */
    ghost function Rest(): seq<byte>
      reads this
      requires Valid()
    {
      bytes[pos..]
    }

    method SkipWs()
      requires Valid()
      modifies this
      ensures Valid() && pos >= old(pos)
      ensures Rest() == Skipped(old(Rest()))
    {
      while pos < |bytes| && Space(bytes[pos])
        invariant Valid() && pos >= old(pos)
        invariant Skipped(Rest()) == Skipped(old(Rest()))
      {
        SkipOne(Rest());
        pos := pos + 1;
        assert bytes[pos - 1..][1..] == bytes[pos..];
      }
      SkipOne(Rest());
    }

    method Peek() returns (r: Option<byte>)
      requires Valid()
      modifies this
      ensures Valid() && pos >= old(pos)
      ensures Rest() == Skipped(old(Rest()))
      ensures r == if Rest() == [] then None else Some(Rest()[0])
    {
      SkipWs();
      r := if pos < |bytes| then Some(bytes[pos]) else None;
    }

    method Expect(mark: byte) returns (r: Result<()>)
      requires Valid()
      modifies this
      ensures Valid() && pos >= old(pos)
      ensures match After(old(Rest()), mark)
              case None => r == Err(Expected(mark))
              case Some(rest) => r == Ok(()) && Rest() == rest
    {
      SkipWs();
      if pos < |bytes| && bytes[pos] == mark {
        ghost var rest := Rest();
        pos := pos + 1;
        assert Rest() == rest[1..];
        r := Ok(());
      } else {
        r := Err(Expected(mark));
      }
    }

    method String() returns (r: Result<seq<byte>>)
      requires Valid()
      modifies this
      ensures Valid()
      ensures Reports(StringAt(old(Rest())), r, Rest())
    {
      var opening := Expect(QUOTE);
      if opening.Err? { return Err(opening.error); }
      ghost var start := Rest();
      var out: seq<byte> := [];
      OntoNothing(StringBody(start));
      while pos < |bytes|
        invariant Valid()
        invariant StringBody(start) == Onto(out, StringBody(Rest()))
      {
        ghost var rest := Rest();
        var b := bytes[pos];
        pos := pos + 1;
        assert Rest() == rest[1..];
        if b == QUOTE {
          assert out + [] == out;
          return Ok(out);
        }
        if b == BACKSLASH {
          if pos >= |bytes| { return Err(TruncatedEscape); }
          var escaped := Unescaped(bytes[pos]);
          pos := pos + 1;
          assert Rest() == rest[2..];
          if escaped == None { return Err(BadEscape); }
          StringStep(out, rest, escaped.value, Rest());
          out := out + [escaped.value];
        } else {
          if Control(b) { return Err(ControlByte); }
          StringStep(out, rest, b, Rest());
          out := out + [b];
        }
      }
      r := Err(Unterminated);
    }

    /** Reads over digits. */
    method SkipDigits()
      requires Valid()
      modifies this
      ensures Valid() && pos == old(pos) + DigitRun(old(Rest()))
    {
      while pos < |bytes| && Digit(bytes[pos])
        invariant Valid() && old(pos) <= pos
        invariant old(pos) + DigitRun(old(Rest())) == pos + DigitRun(Rest())
      {
        assert Rest()[1..] == bytes[pos + 1..];
        pos := pos + 1;
      }
    }

    method Integer() returns (r: Result<int>)
      requires Valid()
      modifies this
      ensures Valid()
      ensures Reports(IntegerAt(old(Rest())), r, Rest())
    {
      ghost var s := Rest();
      SkipWs();
      NumeralOf(s, Rest());
      r := SignedDigits();
    }

    /** An optional sign and digits. */
    method SignedDigits() returns (r: Result<int>)
      requires Valid()
      modifies this
      ensures Valid()
      ensures Reports(NumeralAt(old(Rest())), r, Rest())
    {
      ghost var t := Rest();
      var start := pos;
      if pos < |bytes| && bytes[pos] == MINUS {
        pos := pos + 1;
      }
      var digits := pos;
      assert Rest() == t[SignLength(t)..];
      SkipDigits();
      if pos == digits { return Err(NoInteger); }
      assert bytes[start..pos] == t[..pos - start] && Rest() == t[pos - start..];
      var v := NumeralValue(bytes[start..pos]);
      r := if FitsI64(v) then Ok(v) else Err(IntegerRange);
    }

    /** An integer and the mark after it. */
    method IntegerAndMark(mark: byte) returns (r: Result<int>)
      requires Valid()
      modifies this
      ensures Valid()
      ensures Reports(IntegerThen(old(Rest()), mark), r, Rest())
    {
      r := Integer();
      if r.Err? { return; }
      var marked := Expect(mark);
      if marked.Err? { r := Err(marked.error); }
    }

    /** One term of the loop in `term_array`. */
    method Term() returns (r: Result<Triple>)
      requires Valid()
      modifies this
      ensures Valid()
      ensures Reports(TermAt(old(Rest())), r, Rest())
    {
      var opening := Expect(OPEN);
      if opening.Err? { return Err(opening.error); }
      var qe := IntegerAndMark(COMMA);
      if qe.Err? { return Err(qe.error); }
      r := TermAfter(qe.value);
    }

    /** A term after its first exponent. */
    method TermAfter(qe: int) returns (r: Result<Triple>)
      requires Valid()
      modifies this
      ensures Valid()
      ensures Reports(TermTail(qe, old(Rest())), r, Rest())
    {
      var te := IntegerAndMark(COMMA);
      if te.Err? { return Err(te.error); }
      var coef := IntegerAndMark(CLOSE);
      if coef.Err? { return Err(coef.error); }
      if qe < 0 || qe >= U32 || te.value < 0 || te.value >= U32 { return Err(ExponentRange); }
      if !FitsI32(coef.value) { return Err(CoefficientRange); }
      r := Ok(Triple(qe, te.value, coef.value));
    }

    method TermArray() returns (r: Result<seq<Triple>>)
      requires Valid()
      modifies this
      ensures Valid()
      ensures Reports(ArrayAt(old(Rest())), r, Rest())
    {
      var opening := Expect(OPEN);
      if opening.Err? { return Err(opening.error); }
      ghost var list := Rest();
      var next := Peek();
      if next == Some(CLOSE) {
        ghost var rest := Rest();
        pos := pos + 1;
        assert Rest() == rest[1..];
        return Ok([]);
      }
      SkippedTwice(list);
      r := Terms();
    }

    /** The mark after an item: a comma (`Some(true)`), the closing mark or an error. */
    method NextMark(close: byte) returns (r: Option<bool>)
      requires Valid() && close != COMMA
      modifies this
      ensures Valid()
      ensures match r
              case Some(true) => After(old(Rest()), COMMA) == Some(Rest())
              case Some(false) => After(old(Rest()), COMMA) == None && After(old(Rest()), close) == Some(Rest())
              case None => After(old(Rest()), COMMA) == None && After(old(Rest()), close) == None
    {
      var next := Peek();
      ghost var after := Rest();
      if next == Some(COMMA) || next == Some(close) {
        pos := pos + 1;
        assert Rest() == after[1..];
        r := Some(next == Some(COMMA));
      } else {
        r := None;
      }
    }

    /** The term of one turn, refused when it is one too many. */
    method NextTerm(count: nat) returns (r: Result<Triple>)
      requires Valid()
      modifies this
      ensures Valid()
      ensures match r
              case Ok(t) => count < WIDTH && TermAt(old(Rest())) == Got(t, Rest())
              case Err(e) => TermRefused(old(Rest()), count, e)
    {
      r := Term();
      if r.Ok? && count + 1 > WIDTH { r := Err(TermLimit); }
    }

    /** The term loop. */
    method Terms() returns (r: Result<seq<Triple>>)
      requires Valid()
      modifies this
      ensures Valid()
      ensures Reports(TermsAt(old(Rest()), 0), r, Rest())
    {
      var out: seq<Triple> := [];
      ghost var list := TermsAt(Rest(), 0);
      OntoNoTerms(list);
      while true
        invariant Valid() && |out| <= WIDTH
        invariant list == OntoTerms(out, TermsAt(Rest(), |out|))
        decreases |bytes| - pos
      {
        ghost var start := Rest();
        var term := NextTerm(|out|);
        if term.Err? {
          TermsFail(out, start, term.error);
          return Err(term.error);
        }
        ghost var rest := Rest();
        var mark := NextMark(CLOSE);
        if mark == None {
          TermsUnclosed(out, start, term.value, rest);
          return Err(ExpectedCommaOrClose);
        }
        if mark == Some(false) {
          TermsStop(out, start, term.value, rest, Rest());
          return Ok(out + [term.value]);
        }
        TermsStep(out, start, term.value, rest, Rest());
        out := out + [term.value];
      }
    }
  }

  lemma {:induction false} SkippedStops(s: seq<byte>)
    ensures Skipped(s) != [] ==> !Space(Skipped(s)[0])
  {
    SkipOne(s);
    if s != [] && Space(s[0]) { SkippedStops(s[1..]); }
  }

  lemma {:induction false} SkippedAgain(s: seq<byte>)
    ensures Skipped(Skipped(s)) == Skipped(s)
    ensures forall mark :: After(Skipped(s), mark) == After(s, mark)
  {
    SkippedStops(s);
    SkipOne(Skipped(s));
  }

  lemma {:induction false} TermAgain(s: seq<byte>)
    ensures TermAt(Skipped(s)) == TermAt(s)
  {
    SkippedAgain(s);
  }

  /** Skipping white space twice skips it once. */
  lemma {:induction false} SkippedTwice(s: seq<byte>)
    ensures TermsAt(Skipped(s), 0) == TermsAt(s, 0)
  {
    TermAgain(s);
    SameFirstTerm(Skipped(s), s, TermAt(s));
  }

  lemma {:induction false} SameFirstTerm(s: seq<byte>, s': seq<byte>, first: Parsed<Triple>)
    requires TermAt(s) == first && TermAt(s') == first
    ensures TermsAt(s, 0) == TermsAt(s', 0)
  {
    match first
    case Bad(e) =>
      TermsFail([], s, e);
      TermsFail([], s', e);
    case Got(t, rest) =>
      if After(rest, COMMA).Some? {
        TermsMore(s, 0, t, rest, After(rest, COMMA).value);
        TermsMore(s', 0, t, rest, After(rest, COMMA).value);
      } else if After(rest, CLOSE).Some? {
        TermsEnd(s, 0, t, rest, After(rest, CLOSE).value);
        TermsEnd(s', 0, t, rest, After(rest, CLOSE).value);
      } else {
        TermsUnclosed([], s, t, rest);
        TermsUnclosed([], s', t, rest);
      }
  }

  // ---------- the request ----------

  lemma {:induction false} FieldsFail(s: seq<byte>, found: Fields, e: ParseError)
    requires FieldAt(s, found) == Bad(e)
    ensures FieldsAt(s, found) == Bad(e)
  {
  }

  lemma {:induction false} FieldsMore(s: seq<byte>, found: Fields, now: Fields, rest: seq<byte>, s': seq<byte>)
    requires FieldAt(s, found) == Got(now, rest) && After(rest, COMMA) == Some(s')
    ensures FieldsAt(s, found) == FieldsAt(s', now)
  {
  }

  lemma {:induction false} FieldsEnd(s: seq<byte>, found: Fields, now: Fields, rest: seq<byte>)
    requires FieldAt(s, found) == Got(now, rest) && After(rest, COMMA) == None
    ensures FieldsAt(s, found) ==
            match After(rest, RBRACE) case Some(s') => Got(now, s') case None => Bad(ExpectedCommaOrClose)
  {
  }

  lemma {:induction false} FieldAgain(s: seq<byte>, found: Fields)
    ensures FieldAt(Skipped(s), found) == FieldAt(s, found)
  {
    SkippedAgain(s);
    assert StringAt(Skipped(s)) == StringAt(s);
    SameKey(Skipped(s), s, found, StringAt(s));
  }

  lemma {:induction false} SameKey(s: seq<byte>, s': seq<byte>, found: Fields, key: Parsed<seq<byte>>)
    requires StringAt(s) == key && StringAt(s') == key
    ensures FieldAt(s, found) == FieldAt(s', found)
  {
  }

  lemma {:induction false} FieldsAgain(s: seq<byte>, found: Fields)
    ensures FieldsAt(Skipped(s), found) == FieldsAt(s, found)
  {
    FieldAgain(s, found);
    SameFirstField(Skipped(s), s, found, FieldAt(s, found));
  }

  lemma {:induction false} SameFirstField(s: seq<byte>, s': seq<byte>, found: Fields, first: Parsed<Fields>)
    requires FieldAt(s, found) == first && FieldAt(s', found) == first
    ensures FieldsAt(s, found) == FieldsAt(s', found)
  {
    match first
    case Bad(e) =>
      FieldsFail(s, found, e);
      FieldsFail(s', found, e);
    case Got(now, rest) =>
      if After(rest, COMMA).Some? {
        FieldsMore(s, found, now, rest, After(rest, COMMA).value);
        FieldsMore(s', found, now, rest, After(rest, COMMA).value);
      } else {
        FieldsEnd(s, found, now, rest);
        FieldsEnd(s', found, now, rest);
      }
  }

  /** One field of the loop in `parse_compute_request`. */
  method ReadField(cursor: Cursor, found: Fields) returns (r: Result<Fields>)
    requires cursor.Valid()
    modifies cursor
    ensures cursor.Valid()
    ensures Reports(FieldAt(old(cursor.Rest()), found), r, cursor.Rest())
  {
    var key := cursor.String();
    if key.Err? { return Err(key.error); }
    var colon := cursor.Expect(COLON);
    if colon.Err? { return Err(colon.error); }
    if key.value == [LETTER_A] {
      if found.a.Some? { return Err(DuplicateA); }
      var terms := cursor.TermArray();
      if terms.Err? { return Err(terms.error); }
      r := Ok(found.(a := Some(terms.value)));
    } else if key.value == [LETTER_B] {
      if found.b.Some? { return Err(DuplicateB); }
      var terms := cursor.TermArray();
      if terms.Err? { return Err(terms.error); }
      r := Ok(found.(b := Some(terms.value)));
    } else {
      r := Err(UnsupportedField);
    }
  }

  /** The field loop, to the closing brace. */
  method ReadFields(cursor: Cursor) returns (r: Result<Fields>)
    requires cursor.Valid()
    modifies cursor
    ensures cursor.Valid()
    ensures Reports(FieldsAt(old(cursor.Rest()), Fields(None, None)), r, cursor.Rest())
  {
    var found := Fields(None, None);
    ghost var all := FieldsAt(cursor.Rest(), found);
    while true
      invariant cursor.Valid()
      invariant all == FieldsAt(cursor.Rest(), found)
      decreases |cursor.bytes| - cursor.pos
    {
      ghost var start := cursor.Rest();
      var now := ReadField(cursor, found);
      if now.Err? {
        FieldsFail(start, found, now.error);
        return Err(now.error);
      }
      ghost var rest := cursor.Rest();
      var mark := cursor.NextMark(RBRACE);
      if mark == Some(true) {
        FieldsMore(start, found, now.value, rest, cursor.Rest());
        found := now.value;
      } else {
        FieldsEnd(start, found, now.value, rest);
        if mark == None { return Err(ExpectedCommaOrClose); }
        return now;
      }
    }
  }

  /** `parse_compute_request`: the factors of a request, and a refusal of everything else. */
  method ParseComputeRequest(body: seq<byte>) returns (r: Answer)
    ensures r == ParseRequest(body)
    ensures forall a, b :: r == Factors(a, b) <==> IsRequest(body, a, b)
  {
    forall a, b ensures ParseRequest(body) == Factors(a, b) <==> IsRequest(body, a, b) {
      ParserIsExact(body, a, b);
    }
    var cursor := new Cursor(body);
    assert cursor.Rest() == body;
    var brace := cursor.Expect(LBRACE);
    if brace.Err? { return Rejected(brace.error); }
    ghost var rest := cursor.Rest();
    var next := cursor.Peek();
    if next == Some(RBRACE) { return Rejected(EmptyObject); }
    FieldsAgain(rest, Fields(None, None));
    var found := ReadFields(cursor);
    if found.Err? { return Rejected(found.error); }
    cursor.SkipWs();
    if cursor.pos != |body| { return Rejected(TrailingBytes); }
    if found.value.a.None? { return Rejected(MissingA); }
    if found.value.b.None? { return Rejected(MissingB); }
    r := Factors(found.value.a.value, found.value.b.value);
  }
}
