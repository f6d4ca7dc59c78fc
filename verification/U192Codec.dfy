/** The tagged byte encoding of six-word values: format tags, limb and byte orders, hexadecimal. */
module U192Codec {
  import opened Options
  import opened MachineInts
  import opened Limbs
  import opened U192Tags
  import NT = NumberTheory

  // ---------- limbs and bytes ----------

  function LittleBytes(x: nat, n: nat): (r: seq<byte>)
    ensures |r| == n
  {
    if n == 0 then [] else [x % 256] + LittleBytes(x / 256, n - 1)
  }

  function FromLittle(s: seq<byte>): nat {
    if s == [] then 0 else s[0] + 256 * FromLittle(s[1..])
  }

  function Span(n: nat): (r: nat)
    ensures r > 0
  {
    if n == 0 then 1 else 256 * Span(n - 1)
  }

  lemma {:induction false} LittleRoundTrip(x: nat, n: nat)
    requires x < Span(n)
    ensures FromLittle(LittleBytes(x, n)) == x
  {
    if n > 0 {
      LittleRoundTrip(x / 256, n - 1);
      assert LittleBytes(x, n)[1..] == LittleBytes(x / 256, n - 1);
    }
  }

  lemma {:induction false} LittleDecodes(s: seq<byte>)
    ensures FromLittle(s) < Span(|s|)
    ensures LittleBytes(FromLittle(s), |s|) == s
  {
    if s != [] {
      LittleDecodes(s[1..]);
      LowByte(s[0], FromLittle(s[1..]));
      assert s == [s[0]] + s[1..];
    }
  }

  lemma {:induction false} LowByte(b: byte, high: nat)
    ensures (b + 256 * high) % 256 == b && (b + 256 * high) / 256 == high
  {
  }

  lemma {:induction false} ReversedTwice<T>(s: seq<T>)
    ensures Reversed(Reversed(s)) == s
  {
  }

  /** `int.to_bytes(4, order)`. */
  function WordBytes(w: u32, order: ByteOrder): (r: seq<byte>)
    ensures |r| == 4
  {
    if order == Little then LittleBytes(w, 4) else Reversed(LittleBytes(w, 4))
  }

  /** `int.from_bytes(raw, order)`, of four bytes. */
  function WordFrom(s: seq<byte>, order: ByteOrder): (r: u32) {
    if |s| != 4 then 0
    else
      LittleDecodes(s);
      LittleDecodes(Reversed(s));
      FourBytes();
      FromLittle(if order == Little then s else Reversed(s))
  }

  lemma {:induction false} FourBytes()
    ensures Span(4) == U32
  {
    assert Span(2) == 65536;
  }

  lemma {:induction false} WordDecodes(w: u32, order: ByteOrder)
    ensures WordFrom(WordBytes(w, order), order) == w
  {
    FourBytes();
    LittleRoundTrip(w, 4);
    ReversedTwice(LittleBytes(w, 4));
  }

  lemma {:induction false} WordEncodes(s: seq<byte>, order: ByteOrder)
    requires |s| == 4
    ensures WordBytes(WordFrom(s, order), order) == s
  {
    LittleDecodes(s);
    LittleDecodes(Reversed(s));
    ReversedTwice(s);
  }

  /** The encodings of the words one after another, and the words of consecutive four-byte groups. */
  function Joined(words: seq<u32>, order: ByteOrder): (r: seq<byte>)
    ensures |r| == 4 * |words|
  {
    if words == [] then [] else WordBytes(words[0], order) + Joined(words[1..], order)
  }

  function Split(raw: seq<byte>, order: ByteOrder): (r: seq<u32>)
    ensures |raw| % 4 == 0 ==> |r| == |raw| / 4
  {
    if |raw| < 4 then [] else [WordFrom(raw[..4], order)] + Split(raw[4..], order)
  }

  lemma {:induction false} SplitCons(head: seq<byte>, tail: seq<byte>, order: ByteOrder)
    requires |head| == 4
    ensures Split(head + tail, order) == [WordFrom(head, order)] + Split(tail, order)
  {
    assert (head + tail)[..4] == head && (head + tail)[4..] == tail;
  }

  lemma {:induction false} SplitJoined(words: seq<u32>, order: ByteOrder)
    ensures Split(Joined(words, order), order) == words
  {
    if words != [] {
      var head, tail := WordBytes(words[0], order), Joined(words[1..], order);
      WordDecodes(words[0], order);
      SplitJoined(words[1..], order);
      SplitCons(head, tail, order);
      assert words == [words[0]] + words[1..];
    }
  }

  lemma {:induction false} JoinedSplit(raw: seq<byte>, order: ByteOrder)
    requires |raw| % 4 == 0
    ensures Joined(Split(raw, order), order) == raw
  {
    if raw != [] {
      WordEncodes(raw[..4], order);
      JoinedSplit(raw[4..], order);
      assert Split(raw, order)[1..] == Split(raw[4..], order);
      assert raw == raw[..4] + raw[4..];
    }
  }

  function Ordered(words: seq<u32>, limbs: LimbOrder): (r: seq<u32>)
    ensures |r| == |words|
  {
    if limbs == Lsw then words else Reversed(words)
  }

  function EncodeLimbs(words: Words, limbs: LimbOrder, order: ByteOrder): (r: seq<byte>)
    ensures |r| == 24
  {
    Joined(Ordered(words, limbs), order)
  }

  function DecodeLimbs(raw: seq<byte>, limbs: LimbOrder, order: ByteOrder): Words
    requires |raw| == 24
  {
    Ordered(Split(raw, order), limbs)
  }

  /** Under every layout the words and the 24-byte strings are in bijection. */
  lemma {:induction false} LimbsRoundTrip(words: Words, raw: seq<byte>, limbs: LimbOrder, order: ByteOrder)
    requires |raw| == 24
    ensures DecodeLimbs(EncodeLimbs(words, limbs, order), limbs, order) == words
    ensures EncodeLimbs(DecodeLimbs(raw, limbs, order), limbs, order) == raw
  {
    SplitJoined(Ordered(words, limbs), order);
    ReversedTwice(words);
    JoinedSplit(raw, order);
    ReversedTwice(Split(raw, order));
  }

  // ---------- which bytes a layout writes ----------

  /** The byte of the value, by weight, that a layout writes at position `i`. */
  function Weight(layout: Layout, i: nat): nat
    requires i < 24
  {
    match layout
    case LeU32LswFirst => i
    case BeU32LswFirst => i / 4 * 4 + (3 - i % 4)
    case LeU32MswFirst => (5 - i / 4) * 4 + i % 4
    case BeU192MsbFirst => 23 - i
  }

  lemma {:induction false} DivideTwice(x: nat, b: nat)
    requires b > 0
    ensures (x / 256) / b == x / (256 * b)
  {
    var q := (x / 256) / b;
    var r, s := x % 256, (x / 256) % b;
    assert x == 256 * (b * q + s) + r;
    NT.MulAssoc(256, b, q);
    NT.RemainderUnique(x, 256 * b, q, 256 * s + r);
  }

  /** A byte of a little-endian string, by its weight. */
  lemma {:induction false} LittleAt(s: seq<byte>, i: nat)
    requires i < |s|
    ensures FromLittle(s) / Span(i) % 256 == s[i]
  {
    LowByte(s[0], FromLittle(s[1..]));
    if i > 0 {
      LittleAt(s[1..], i - 1);
      DivideTwice(FromLittle(s), Span(i - 1));
    }
  }

  lemma {:induction false} LittleConcat(u: seq<byte>, v: seq<byte>)
    ensures FromLittle(u + v) == FromLittle(u) + Span(|u|) * FromLittle(v)
  {
    if u == [] {
      assert u + v == v;
    } else {
      assert (u + v)[1..] == u[1..] + v && (u + v)[0] == u[0];
      LittleConcat(u[1..], v);
      NT.MulAssoc(256, Span(|u| - 1), FromLittle(v));
    }
  }

  /** All words, least significant byte first, have the value of the words. */
  lemma {:induction false} FlatValue(words: seq<u32>)
    ensures FromLittle(Joined(words, Little)) == Value(words)
  {
    if words != [] {
      FlatValue(words[1..]);
      FourBytes();
      LittleRoundTrip(words[0], 4);
      LittleConcat(WordBytes(words[0], Little), Joined(words[1..], Little));
    }
  }

  /** `s` is made of groups of four, the `k`-th one `group`. */
  ghost predicate GroupAt(s: seq<byte>, k: nat, group: seq<byte>) {
    4 * k + 4 <= |s| && s[4 * k..4 * k + 4] == group
  }

  lemma {:induction false} ByteInGroup(s: seq<byte>, k: nat, group: seq<byte>, j: nat)
    requires GroupAt(s, k, group) && j < 4
    ensures |group| == 4 && s[4 * k + j] == group[j]
  {
    assert s[4 * k..4 * k + 4][j] == s[4 * k + j];
  }

  lemma {:induction false} FirstGroup(head: seq<byte>, tail: seq<byte>)
    requires |head| == 4
    ensures GroupAt(head + tail, 0, head)
  {
  }

  lemma {:induction false} LaterGroup(head: seq<byte>, tail: seq<byte>, k: nat, group: seq<byte>)
    requires |head| == 4 && GroupAt(tail, k, group)
    ensures GroupAt(head + tail, k + 1, group)
  {
    assert (head + tail)[4 * k + 4..4 * k + 8] == tail[4 * k..4 * k + 4];
  }

  /** Every word is written in its group. */
  lemma {:induction false} JoinedAt(words: seq<u32>, order: ByteOrder, k: nat)
    requires k < |words|
    ensures GroupAt(Joined(words, order), k, WordBytes(words[k], order))
  {
    var head, tail := WordBytes(words[0], order), Joined(words[1..], order);
    if k == 0 {
      FirstGroup(head, tail);
    } else {
      JoinedAt(words[1..], order, k - 1);
      LaterGroup(head, tail, k - 1, WordBytes(words[k], order));
    }
  }

  lemma {:induction false} ByteOfWord(w: u32, order: ByteOrder, j: nat)
    requires j < 4
    ensures WordBytes(w, order)[j] == WordBytes(w, Little)[if order == Little then j else 3 - j]
  {
  }

  lemma {:induction false} OrderedAt(words: Words, limbs: LimbOrder, k: nat)
    requires k < 6
    ensures Ordered(words, limbs)[k] == words[if limbs == Lsw then k else 5 - k]
  {
  }

  /** A byte of a string of words, from its word. */
  lemma {:induction false} JoinedByte(words: seq<u32>, order: ByteOrder, k: nat, j: nat, w: u32)
    requires k < |words| && j < 4 && words[k] == w
    ensures Joined(words, order)[4 * k + j] == WordBytes(w, order)[j]
  {
    JoinedAt(words, order, k);
    ByteInGroup(Joined(words, order), k, WordBytes(w, order), j);
  }

  /** Byte `place` of a word is byte `j` of it in the other order. */
  predicate SameByte(order: ByteOrder, j: nat, place: nat) {
    j < 4 && place == if order == Little then j else 3 - j
  }

  predicate SameWord(limbs: LimbOrder, k: nat, word: nat) {
    k < 6 && word == if limbs == Lsw then k else 5 - k
  }

  /** What is written is, byte for byte, what least significant first writes elsewhere. */
  lemma {:induction false} WrittenByte(words: Words, limbs: LimbOrder, order: ByteOrder, k: nat, j: nat, word: nat,
                                       place: nat)
    requires SameWord(limbs, k, word) && SameByte(order, j, place)
    ensures Joined(Ordered(words, limbs), order)[4 * k + j] == Joined(words, Little)[4 * word + place]
  {
    var w := words[word];
    OrderedAt(words, limbs, k);
    JoinedByte(Ordered(words, limbs), order, k, j, w);
    JoinedByte(words, Little, word, place, w);
    ByteOfWord(w, order, j);
  }

  lemma {:induction false} WeightAt(layout: Layout, k: nat, j: nat, word: nat, place: nat)
    requires SameWord(LimbsOf(layout), k, word) && SameByte(OrderOf(layout), j, place)
    ensures Weight(layout, 4 * k + j) == 4 * word + place
  {
    assert (4 * k + j) / 4 == k && (4 * k + j) % 4 == j;
  }

  lemma {:induction false} ByteInWord(words: Words, layout: Layout, k: nat, j: nat, word: nat, place: nat)
    requires SameWord(LimbsOf(layout), k, word) && SameByte(OrderOf(layout), j, place)
    ensures Joined(Ordered(words, LimbsOf(layout)), OrderOf(layout))[4 * k + j]
         == Value(words) / Span(4 * word + place) % 256
  {
    WrittenByte(words, LimbsOf(layout), OrderOf(layout), k, j, word, place);
    FlatValue(words);
    ByValue(Joined(words, Little), 4 * word + place, Value(words));
  }

  /** What the bytes of every layout mean: each is the byte of the value that the layout puts there. */
  lemma {:induction false} BytesByWeight(words: Words, layout: Layout, i: nat)
    requires i < 24
    ensures EncodeLimbs(words, LimbsOf(layout), OrderOf(layout))[i]
         == Value(words) / Span(Weight(layout, i)) % 256
  {
    var k, j := i / 4, i % 4;
    var word := if LimbsOf(layout) == Lsw then k else 5 - k;
    var place := if OrderOf(layout) == Little then j else 3 - j;
    ByteInWord(words, layout, k, j, word, place);
    WeightAt(layout, k, j, word, place);
    assert 4 * k + j == i;
  }

  lemma {:induction false} ByValue(s: seq<byte>, i: nat, v: nat)
    requires i < |s| && FromLittle(s) == v
    ensures v / Span(i) % 256 == s[i]
  {
    LittleAt(s, i);
  }

  // ---------- hexadecimal ----------

  function HexDigit(n: nat): char
    requires n < 16
  {
    if n < 10 then '0' + n as char else 'a' + (n - 10) as char
  }

  function DigitValue(c: char): Option<nat> {
    if '0' <= c <= '9' then Some((c - '0') as nat)
    else if 'a' <= c <= 'f' then Some((c - 'a') as nat + 10)
    else None
  }

  lemma {:induction false} DigitRoundTrip(n: nat, c: char)
    ensures n < 16 ==> DigitValue(HexDigit(n)) == Some(n)
    ensures DigitValue(c).Some? ==> DigitValue(c).value < 16 && HexDigit(DigitValue(c).value) == c
  {
  }

  function Hex(s: seq<byte>): (r: string)
    ensures |r| == 2 * |s|
  {
    if s == [] then [] else [HexDigit(s[0] / 16), HexDigit(s[0] % 16)] + Hex(s[1..])
  }

  predicate LowerHex(s: string) {
    forall i :: 0 <= i < |s| ==> DigitValue(s[i]).Some?
  }

  function FromHex(s: string): (r: seq<byte>)
    requires |s| % 2 == 0 && LowerHex(s)
    ensures |r| == |s| / 2
  {
    if s == [] then []
    else
      DigitRoundTrip(0, s[0]);
      DigitRoundTrip(0, s[1]);
      [16 * DigitValue(s[0]).value + DigitValue(s[1]).value] + FromHex(s[2..])
  }

  lemma {:induction false} HexDecodes(s: seq<byte>)
    ensures LowerHex(Hex(s)) && FromHex(Hex(s)) == s
  {
    if s != [] {
      HexDecodes(s[1..]);
      DigitRoundTrip(s[0] / 16, '0');
      DigitRoundTrip(s[0] % 16, '0');
      var h := Hex(s);
      assert h[2..] == Hex(s[1..]);
      assert forall i :: 2 <= i < |h| ==> h[i] == Hex(s[1..])[i - 2];
    }
  }

  const DIGITS := "0123456789abcdef"

  /** Two digits for each byte, the high half first. */
  lemma {:induction false} HexAt(s: seq<byte>, i: nat)
    requires i < |s|
    ensures Hex(s)[2 * i] == DIGITS[s[i] / 16] && Hex(s)[2 * i + 1] == DIGITS[s[i] % 16]
  {
    if i == 0 {
      DigitAt(s[0] / 16);
      DigitAt(s[0] % 16);
    } else {
      HexAt(s[1..], i - 1);
      assert Hex(s)[2..] == Hex(s[1..]);
      assert Hex(s)[2 * i] == Hex(s[1..])[2 * (i - 1)] && Hex(s)[2 * i + 1] == Hex(s[1..])[2 * (i - 1) + 1];
    }
  }

  lemma {:induction false} DigitAt(n: nat)
    requires n < 16
    ensures HexDigit(n) == DIGITS[n]
  {
  }

  lemma {:induction false} PairEncodes(c: char, d: char)
    requires DigitValue(c).Some? && DigitValue(d).Some?
    ensures var b := 16 * DigitValue(c).value + DigitValue(d).value;
            b < 256 && HexDigit(b / 16) == c && HexDigit(b % 16) == d
  {
    DigitRoundTrip(0, c);
    DigitRoundTrip(0, d);
  }

  lemma {:induction false} HexCons(b: byte, s: seq<byte>)
    ensures Hex([b] + s) == [HexDigit(b / 16), HexDigit(b % 16)] + Hex(s)
  {
    assert ([b] + s)[1..] == s;
  }

  lemma {:induction false} HexEncodes(s: string)
    requires |s| % 2 == 0 && LowerHex(s)
    ensures Hex(FromHex(s)) == s
  {
    if s != [] {
      HexEncodes(s[2..]);
      PairEncodes(s[0], s[1]);
      var b := 16 * DigitValue(s[0]).value + DigitValue(s[1]).value;
      HexCons(b, FromHex(s[2..]));
      assert s == [s[0], s[1]] + s[2..];
    }
  }

  // ---------- descriptors ----------

  /** A JSON value, as far as a descriptor looks at it. */
  datatype Field = Text(text: string) | Integer(number: int) | OtherValue

  datatype Structure = Object(fields: map<string, Field>) | NotObject

  datatype Problem =
    | NotAnObject | MissingFields | UnknownFields | SchemaMismatch
    | TagNotByte | UnsupportedVersion | ReservedBits
    | PayloadNotText | PayloadLength | PayloadNotHex | Noncanonical

  datatype Normalized = Canonical(words: Words) | Rejected(problem: Problem)

  const SCHEMA := "mathpunch.u192-abi.v1"
  const FIELDS: set<string> := {"schema", "format_tag", "payload_hex"}

  /** `make_tagged_u192`. */
  function MakeTagged(words: Words, layout: Layout): Structure {
    Object(map["schema" := Text(SCHEMA),
               "format_tag" := Integer(TagOf(layout)),
               "payload_hex" := Text(Hex(EncodeLimbs(words, LimbsOf(layout), OrderOf(layout))))])
  }

  /** The checks of the payload against an admitted layout, with the final re-encoding. */
  function NormalizePayload(s: Structure, payload: Field, layout: Layout): Normalized {
    match payload
    case Text(hex) =>
      if |hex| != 48 then Rejected(PayloadLength)
      else if !LowerHex(hex) then Rejected(PayloadNotHex)
      else
        var words := DecodeLimbs(FromHex(hex), LimbsOf(layout), OrderOf(layout));
        if MakeTagged(words, layout) != s then Rejected(Noncanonical) else Canonical(words)
    case _ => Rejected(PayloadNotText)
  }

  /** Why a tag is not admitted. */
  function TagProblem(tag: byte): Problem {
    if DecodeTag(tag).version != 0 then UnsupportedVersion else ReservedBits
  }

  /** `normalize_tagged_u192`. */
  function Normalize(s: Structure): Normalized {
    if s.NotObject? then Rejected(NotAnObject)
    else if !(FIELDS <= s.fields.Keys) then Rejected(MissingFields)
    else if !(s.fields.Keys <= FIELDS) then Rejected(UnknownFields)
    else if s.fields["schema"] != Text(SCHEMA) then Rejected(SchemaMismatch)
    else NormalizeTag(s, s.fields["format_tag"], s.fields["payload_hex"])
  }

  /** The checks of the tag, and then of the payload. */
  function NormalizeTag(s: Structure, tag: Field, payload: Field): Normalized {
    match tag
    case Integer(n) =>
      if n < 0 || n > 255 then Rejected(TagNotByte)
      else
        (match LayoutOf(n)
         case None => Rejected(TagProblem(n))
         case Some(layout) => NormalizePayload(s, payload, layout))
    case _ => Rejected(TagNotByte)
  }

  /** What is made is normalized back. */
  lemma {:induction false} MadeIsNormalized(words: Words, layout: Layout)
    ensures Normalize(MakeTagged(words, layout)) == Canonical(words)
  {
    MadeFields(words, layout);
    MadePayload(words, layout);
    Reaches(MakeTagged(words, layout), layout, Hex(EncodeLimbs(words, LimbsOf(layout), OrderOf(layout))));
  }

  /** The text shows a byte at position `i`, as two hexadecimal digits. */
  predicate ShowsByte(hex: string, i: nat, b: byte) {
    |hex| == 48 && i < 24 && hex[2 * i] == "0123456789abcdef"[b / 16] && hex[2 * i + 1] == "0123456789abcdef"[b % 16]
  }

  /** A descriptor outright: the schema, the tag of the layout, and the bytes of the value in hexadecimal,
      from the least significant up, from the most significant down, or word by word in the mixed layouts. */
  lemma {:induction false} MadeOutright(words: Words, layout: Layout)
    returns (hex: string)
    ensures MakeTagged(words, layout)
         == Object(map["schema" := Text("mathpunch.u192-abi.v1"),
                       "format_tag" := Integer(match layout
                                               case LeU32LswFirst => 0
                                               case BeU32LswFirst => 16
                                               case LeU32MswFirst => 32
                                               case BeU192MsbFirst => 48),
                       "payload_hex" := Text(hex)])
    ensures forall i :: 0 <= i < 24 ==> ShowsByte(hex, i, Value(words) / Span(Weight(layout, i)) % 256)
  {
    var raw := EncodeLimbs(words, LimbsOf(layout), OrderOf(layout));
    hex := Hex(raw);
    forall i | 0 <= i < 24 ensures ShowsByte(hex, i, Value(words) / Span(Weight(layout, i)) % 256) {
      BytesByWeight(words, layout, i);
      HexAt(raw, i);
    }
  }

  /** A structure of the right shape with an admitted tag. */
  ghost predicate Shaped(s: Structure, layout: Layout, hex: string) {
    && s.Object? && s.fields.Keys == FIELDS && s.fields["schema"] == Text(SCHEMA)
    && s.fields["format_tag"] == Integer(TagOf(layout)) && s.fields["payload_hex"] == Text(hex)
  }

  lemma {:induction false} MadeFields(words: Words, layout: Layout)
    ensures Shaped(MakeTagged(words, layout), layout, Hex(EncodeLimbs(words, LimbsOf(layout), OrderOf(layout))))
  {
    assert MakeTagged(words, layout).fields.Keys == FIELDS;
  }

  lemma {:induction false} Reaches(s: Structure, layout: Layout, hex: string)
    requires Shaped(s, layout, hex)
    ensures Normalize(s) == NormalizePayload(s, Text(hex), layout)
  {
    TagReaches(s, layout, Text(hex));
  }

  lemma {:induction false} TagReaches(s: Structure, layout: Layout, payload: Field)
    ensures NormalizeTag(s, Integer(TagOf(layout)), payload) == NormalizePayload(s, payload, layout)
  {
    AdmittedTags(TagOf(layout), layout);
  }

  lemma {:induction false} MadePayload(words: Words, layout: Layout)
    ensures NormalizePayload(MakeTagged(words, layout),
                             Text(Hex(EncodeLimbs(words, LimbsOf(layout), OrderOf(layout)))), layout)
         == Canonical(words)
  {
    var raw := EncodeLimbs(words, LimbsOf(layout), OrderOf(layout));
    HexDecodes(raw);
    LimbsRoundTrip(words, raw, LimbsOf(layout), OrderOf(layout));
  }

  /** A payload that passes the length and digit checks re-encodes to itself: the last check never
      fires. */
  lemma {:induction false} PayloadReencodes(hex: string, layout: Layout)
    requires |hex| == 48 && LowerHex(hex)
    ensures var words := DecodeLimbs(FromHex(hex), LimbsOf(layout), OrderOf(layout));
            Hex(EncodeLimbs(words, LimbsOf(layout), OrderOf(layout))) == hex
  {
    var raw := FromHex(hex);
    LimbsRoundTrip(ZERO, raw, LimbsOf(layout), OrderOf(layout));
    HexEncodes(hex);
  }

  lemma {:induction false} PayloadIsCanonical(s: Structure, hex: string, layout: Layout)
    requires |hex| == 48 && LowerHex(hex) && Shaped(s, layout, hex)
    ensures MakeTagged(DecodeLimbs(FromHex(hex), LimbsOf(layout), OrderOf(layout)), layout) == s
  {
    PayloadReencodes(hex, layout);
    var made := MakeTagged(DecodeLimbs(FromHex(hex), LimbsOf(layout), OrderOf(layout)), layout);
    assert made.fields == s.fields;
  }

  lemma {:induction false} TagNeverNoncanonical(s: Structure, tag: Field, payload: Field)
    requires s.Object? && s.fields.Keys == FIELDS && s.fields["schema"] == Text(SCHEMA)
    requires s.fields["format_tag"] == tag && s.fields["payload_hex"] == payload
    ensures NormalizeTag(s, tag, payload) != Rejected(Noncanonical)
  {
    if tag.Integer? && 0 <= tag.number <= 255 && LayoutOf(tag.number).Some? {
      var layout := LayoutOf(tag.number).value;
      AdmittedTags(tag.number, layout);
      if payload.Text? && |payload.text| == 48 && LowerHex(payload.text) {
        PayloadIsCanonical(s, payload.text, layout);
      }
    }
  }

  lemma {:induction false} NeverNoncanonical(s: Structure)
    ensures Normalize(s) != Rejected(Noncanonical)
  {
    if s.Object? && s.fields.Keys == FIELDS && s.fields["schema"] == Text(SCHEMA) {
      TagNeverNoncanonical(s, s.fields["format_tag"], s.fields["payload_hex"]);
    }
  }

  /** A descriptor is accepted exactly when it is made from some words under some layout, and gives
      those words. */
  lemma {:induction false} AcceptedIsMade(s: Structure, words: Words)
    ensures Normalize(s) == Canonical(words) <==> exists layout :: s == MakeTagged(words, layout)
  {
    if layout :| s == MakeTagged(words, layout) {
      MadeIsNormalized(words, layout);
    }
    if Normalize(s) == Canonical(words) {
      var layout := AcceptedPayload(s, words);
      assert s == MakeTagged(words, layout);
    }
  }

  lemma {:induction false} AcceptedPayload(s: Structure, words: Words) returns (layout: Layout)
    requires Normalize(s) == Canonical(words)
    ensures s.Object? && "payload_hex" in s.fields && MakeTagged(words, layout) == s
  {
    layout := LayoutOf(s.fields["format_tag"].number).value;
    var payload := s.fields["payload_hex"];
    assert NormalizePayload(s, payload, layout) == Canonical(words);
    PayloadReturns(s, payload, layout, words);
  }

  lemma {:induction false} PayloadReturns(s: Structure, payload: Field, layout: Layout, words: Words)
    requires NormalizePayload(s, payload, layout) == Canonical(words)
    ensures MakeTagged(words, layout) == s
  {
  }

  predicate HexDigits(s: string) {
    forall i :: 0 <= i < |s| ==> s[i] in "0123456789abcdef"
  }

  lemma {:induction false} HexDigitsMeaning(s: string)
    ensures HexDigits(s) <==> LowerHex(s)
  {
    forall c: char ensures c in "0123456789abcdef" <==> DigitValue(c).Some? {
      if DigitValue(c).Some? {
        DigitRoundTrip(0, c);
        DigitAt(DigitValue(c).value);
      }
    }
  }

  /** What each rejection says about the descriptor. */
  predicate RejectionMeaning(s: Structure, problem: Problem) {
    match problem
    case NotAnObject => s.NotObject?
    case MissingFields =>
      s.Object? && ("schema" !in s.fields || "format_tag" !in s.fields || "payload_hex" !in s.fields)
    case UnknownFields =>
      s.Object? && exists name :: name in s.fields && name != "schema" && name != "format_tag" && name != "payload_hex"
    case _ =>
      && s.Object? && "schema" in s.fields && "format_tag" in s.fields && "payload_hex" in s.fields
      && FieldMeaning(s.fields["schema"], s.fields["format_tag"], s.fields["payload_hex"], problem)
  }

  predicate FieldMeaning(schema: Field, tag: Field, payload: Field, problem: Problem) {
    match problem
    case SchemaMismatch => schema != Text("mathpunch.u192-abi.v1")
    case TagNotByte => !(tag.Integer? && 0 <= tag.number <= 255)
    case UnsupportedVersion => tag.Integer? && 64 <= tag.number <= 255
    case ReservedBits => tag.Integer? && 0 <= tag.number < 64 && tag.number % 16 != 0
    case PayloadNotText => !payload.Text?
    case PayloadLength => payload.Text? && |payload.text| != 48
    case PayloadNotHex => payload.Text? && |payload.text| == 48 && !HexDigits(payload.text)
    case _ => false
  }

  /** Every rejection tells the truth. */
  lemma {:induction false} RejectionIsTrue(s: Structure)
    requires Normalize(s).Rejected?
    ensures RejectionMeaning(s, Normalize(s).problem)
  {
    NeverNoncanonical(s);
    if s.Object? && FIELDS <= s.fields.Keys {
      if !(s.fields.Keys <= FIELDS) {
        var name :| name in s.fields.Keys && name !in FIELDS;
      } else if s.fields["schema"] == Text(SCHEMA) {
        TagRejection(s, s.fields["schema"], s.fields["format_tag"], s.fields["payload_hex"]);
      }
    }
  }

  lemma {:induction false} TagRejection(s: Structure, schema: Field, tag: Field, payload: Field)
    requires NormalizeTag(s, tag, payload).Rejected?
    requires NormalizeTag(s, tag, payload).problem != Noncanonical
    ensures FieldMeaning(schema, tag, payload, NormalizeTag(s, tag, payload).problem)
  {
    if tag.Integer? && 0 <= tag.number <= 255 {
      Quotients(tag.number);
      RejoinedTag(tag.number, DecodeTag(tag.number));
      TagParts(tag.number);
    }
    if payload.Text? { HexDigitsMeaning(payload.text); }
  }

  /** Why a byte is no tag of a layout. */
  lemma {:induction false} TagParts(tag: byte)
    ensures LayoutOf(tag) == None ==>
              if tag >= 64 then TagProblem(tag) == UnsupportedVersion
              else TagProblem(tag) == ReservedBits && tag % 16 != 0
  {
    Quotients(tag);
    RejoinedTag(tag, DecodeTag(tag));
  }

  /** The words and the layout of a descriptor are unique. */
  lemma {:induction false} MadeOnce(u: Words, v: Words, x: Layout, y: Layout)
    requires MakeTagged(u, x) == MakeTagged(v, y)
    ensures u == v && x == y
  {
    MadeIsNormalized(u, x);
    MadeIsNormalized(v, y);
    assert MakeTagged(u, x).fields["format_tag"] == MakeTagged(v, y).fields["format_tag"];
  }

  // ---------- integers ----------

  /** `u192_from_int`; `None` is its exception. */
  function FromInt(v: int): Option<Words> {
    if v < 0 || v >= TWO_192 then None
    else
      var words: Words := WordsOf(v, 6);
      Some(words)
  }

  /** Words and integers below 2^192 are in bijection, through every layout. */
  lemma {:induction false} IntegersRoundTrip(v: int, words: Words, layout: Layout)
    ensures FromInt(v).Some? <==> 0 <= v < TWO_192
    ensures FromInt(v).Some? ==> Value(FromInt(v).value) == v
    ensures FromInt(v).Some? ==> Normalize(MakeTagged(FromInt(v).value, layout)) == Canonical(FromInt(v).value)
    ensures FromInt(Value(words)) == Some(words)
  {
    WordsBound(words);
    if 0 <= v < TWO_192 {
      WordsBijection(v, words);
      MadeIsNormalized(WordsOf(v, 6), layout);
    }
    WordsBijection(0, words);
  }
}
