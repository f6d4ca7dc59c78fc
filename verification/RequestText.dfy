/** The printed request as text, with its marks, letters and digits written out. */
module RequestText {
  import opened MachineInts
  import opened LaurentReference
  import opened RequestGrammar
  import opened RequestParser
  import opened RequestRoundTrip

  /** The bytes of an ASCII text. */
  function Bytes(text: string): (r: seq<byte>)
    ensures |r| == |text|
  {
    seq(|text|, i requires 0 <= i < |text| => if text[i] as int < 256 then text[i] as int else 0)
  }

  lemma {:induction false} BytesConcat(u: string, v: string)
    ensures Bytes(u + v) == Bytes(u) + Bytes(v)
  {
  }

  function NaturalText(n: nat): string {
    if n < 10 then ["0123456789"[n]] else NaturalText(n / 10) + ["0123456789"[n % 10]]
  }

  function IntegerText(v: int): string {
    if v < 0 then "-" + NaturalText(-v) else NaturalText(v)
  }

  function TermText(t: Triple): string {
    "[" + IntegerText(t.qe) + "," + IntegerText(t.te) + "," + IntegerText(t.coef) + "]"
  }

  function TermsText(terms: seq<Triple>): string {
    if terms == [] then ""
    else if |terms| == 1 then TermText(terms[0])
    else TermText(terms[0]) + "," + TermsText(terms[1..])
  }

  function RequestOf(a: seq<Triple>, b: seq<Triple>): string {
    "{\"a\":[" + TermsText(a) + "],\"b\":[" + TermsText(b) + "]}"
  }

  lemma {:induction false} DigitByte(d: nat)
    requires d < 10
    ensures Bytes(["0123456789"[d]]) == [48 + d]
  {
    var digits := "0123456789";
    assert digits[d] as int == 48 + d;
    assert Bytes([digits[d]])[0] == 48 + d;
  }

  lemma {:induction false} NaturalPrinted(n: nat)
    ensures Bytes(NaturalText(n)) == DecimalDigits(n)
  {
    if n < 10 {
      DigitByte(n);
    } else {
      NaturalPrinted(n / 10);
      DigitByte(n % 10);
      BytesConcat(NaturalText(n / 10), ["0123456789"[n % 10]]);
    }
  }

  lemma {:induction false} IntegerPrinted(v: int)
    ensures Bytes(IntegerText(v)) == Decimal(v)
  {
    if v < 0 {
      NaturalPrinted(-v);
      BytesConcat("-", NaturalText(-v));
      assert Bytes("-") == [MINUS];
    } else {
      NaturalPrinted(v);
    }
  }

  lemma {:induction false} MarkBytes()
    ensures Bytes("[") == [OPEN] && Bytes("]") == [CLOSE] && Bytes(",") == [COMMA] && Bytes("") == []
  {
  }

  lemma {:induction false} TermPrinted(t: Triple)
    ensures Bytes(TermText(t)) == TermJson(t)
  {
    IntegerPrinted(t.qe);
    IntegerPrinted(t.te);
    IntegerPrinted(t.coef);
    ThreeParts(IntegerText(t.qe), IntegerText(t.te), IntegerText(t.coef));
  }

  lemma {:induction false} ThreeParts(q: string, e: string, c: string)
    ensures Bytes("[" + q + "," + e + "," + c + "]")
         == [OPEN] + (Bytes(q) + ([COMMA] + (Bytes(e) + ([COMMA] + (Bytes(c) + [CLOSE])))))
  {
    MarkBytes();
    BytesConcat("[", q);
    BytesConcat("[" + q, ",");
    BytesConcat("[" + q + ",", e);
    BytesConcat("[" + q + "," + e, ",");
    BytesConcat("[" + q + "," + e + ",", c);
    BytesConcat("[" + q + "," + e + "," + c, "]");
    JoinParts(Bytes(q), Bytes(e), Bytes(c));
  }

  lemma {:induction false} JoinParts(q: seq<byte>, e: seq<byte>, c: seq<byte>)
    ensures [OPEN] + q + [COMMA] + e + [COMMA] + c + [CLOSE]
         == [OPEN] + (q + ([COMMA] + (e + ([COMMA] + (c + [CLOSE])))))
  {
    Regroup([OPEN] + q + [COMMA] + e + [COMMA], c, [CLOSE]);
    Regroup([OPEN] + q + [COMMA] + e, [COMMA], c + [CLOSE]);
    Regroup([OPEN] + q + [COMMA], e, [COMMA] + (c + [CLOSE]));
    Regroup([OPEN] + q, [COMMA], e + ([COMMA] + (c + [CLOSE])));
    Regroup([OPEN], q, [COMMA] + (e + ([COMMA] + (c + [CLOSE]))));
  }

  lemma {:induction false} TermsPrinted(terms: seq<Triple>)
    ensures Bytes(TermsText(terms)) == TermsJson(terms)
  {
    MarkBytes();
    if |terms| > 0 { TermPrinted(terms[0]); }
    if |terms| > 1 {
      TermsPrinted(terms[1..]);
      BytesConcat(TermText(terms[0]), ",");
      BytesConcat(TermText(terms[0]) + ",", TermsText(terms[1..]));
      Regroup(TermJson(terms[0]), [COMMA], TermsJson(terms[1..]));
    }
  }

  lemma {:induction false} FrameBytes()
    ensures Bytes("{\"a\":[") == [LBRACE, QUOTE, LETTER_A, QUOTE, COLON, OPEN]
    ensures Bytes("],\"b\":[") == [CLOSE, COMMA, QUOTE, LETTER_B, QUOTE, COLON, OPEN]
    ensures Bytes("]}") == [CLOSE, RBRACE]
  {
  }

  /** A field printed with the marks before and after its terms. */
  lemma {:induction false} FieldFrame(letter: byte, terms: seq<Triple>, tail: seq<byte>)
    ensures FieldJson(letter, terms, tail)
         == [QUOTE, letter, QUOTE, COLON, OPEN] + (TermsJson(terms) + ([CLOSE] + tail))
  {
    var rest := TermsJson(terms) + ([CLOSE] + tail);
    Regroup([COLON], [OPEN], rest);
    Regroup([QUOTE, letter, QUOTE], [COLON, OPEN], rest);
    assert [COLON] + [OPEN] == [COLON, OPEN];
    assert [QUOTE, letter, QUOTE] + [COLON, OPEN] == [QUOTE, letter, QUOTE, COLON, OPEN];
  }

  /** The compact request, for all factors, is the text with the marks and digits as they are written. */
  lemma {:induction false} RequestPrinted(a: seq<Triple>, b: seq<Triple>)
    ensures Bytes(RequestOf(a, b)) == RequestJson(a, b)
  {
    var x, y := TermsText(a), TermsText(b);
    var head, middle, end := "{\"a\":[", "],\"b\":[", "]}";
    TermsPrinted(a);
    TermsPrinted(b);
    FrameBytes();
    BytesConcat(head, x);
    BytesConcat(head + x, middle);
    BytesConcat(head + x + middle, y);
    BytesConcat(head + x + middle + y, end);
    FrameJoins(TermsJson(a), TermsJson(b));
    SecondField(a, b);
  }

  lemma {:induction false} SecondField(a: seq<Triple>, b: seq<Triple>)
    ensures RequestJson(a, b)
         == [LBRACE, QUOTE, LETTER_A, QUOTE, COLON, OPEN]
            + (TermsJson(a) + ([CLOSE, COMMA, QUOTE, LETTER_B, QUOTE, COLON, OPEN]
                               + (TermsJson(b) + [CLOSE, RBRACE])))
  {
    var end := TermsJson(b) + ([CLOSE] + [RBRACE]);
    var second := FieldJson(LETTER_B, b, [RBRACE]);
    FieldFrame(LETTER_B, b, [RBRACE]);
    FieldFrame(LETTER_A, a, [COMMA] + second);
    Regroup([COMMA], [QUOTE, LETTER_B, QUOTE, COLON, OPEN], end);
    Regroup([CLOSE], [COMMA, QUOTE, LETTER_B, QUOTE, COLON, OPEN], end);
    assert [COMMA] + [QUOTE, LETTER_B, QUOTE, COLON, OPEN] == [COMMA, QUOTE, LETTER_B, QUOTE, COLON, OPEN];
    assert [CLOSE] + [COMMA, QUOTE, LETTER_B, QUOTE, COLON, OPEN]
        == [CLOSE, COMMA, QUOTE, LETTER_B, QUOTE, COLON, OPEN];
    assert [CLOSE] + [RBRACE] == [CLOSE, RBRACE];
    Regroup([LBRACE], [QUOTE, LETTER_A, QUOTE, COLON, OPEN], TermsJson(a) + ([CLOSE] + ([COMMA] + second)));
    assert [LBRACE] + [QUOTE, LETTER_A, QUOTE, COLON, OPEN] == [LBRACE, QUOTE, LETTER_A, QUOTE, COLON, OPEN];
  }

  lemma {:induction false} FrameJoins(x: seq<byte>, y: seq<byte>)
    ensures var head: seq<byte> := [LBRACE, QUOTE, LETTER_A, QUOTE, COLON, OPEN];
            var middle: seq<byte> := [CLOSE, COMMA, QUOTE, LETTER_B, QUOTE, COLON, OPEN];
            var end: seq<byte> := [CLOSE, RBRACE];
            head + x + middle + y + end == head + (x + (middle + (y + end)))
  {
    var head: seq<byte> := [LBRACE, QUOTE, LETTER_A, QUOTE, COLON, OPEN];
    var middle: seq<byte> := [CLOSE, COMMA, QUOTE, LETTER_B, QUOTE, COLON, OPEN];
    var end: seq<byte> := [CLOSE, RBRACE];
    Regroup(head + x + middle, y, end);
    Regroup(head + x, middle, y + end);
    Regroup(head, x, middle + (y + end));
  }

  /** The text is read back as its factors. */
  lemma {:induction false} TextIsRead(a: seq<Triple>, b: seq<Triple>)
    requires |a| <= 8 && |b| <= 8
    ensures ParseRequest(Bytes(RequestOf(a, b))) == Factors(a, b)
  {
    RequestPrinted(a, b);
    JsonRoundTrip(a, b);
  }
}
