/** The one-byte format tags of the six-word encodings. */
module U192Tags {
  import opened Options
  import opened MachineInts
  import Bits
  import BitMasks

  datatype LimbOrder = Lsw | Msw
  datatype ByteOrder = Little | Big

  datatype Tag = Tag(version: nat, limbs: LimbOrder, order: ByteOrder, reserved: nat)

  datatype Layout = LeU32LswFirst | BeU32LswFirst | LeU32MswFirst | BeU192MsbFirst

  predicate ValidTag(t: Tag) {
    t.version < 4 && t.reserved < 16
  }

  /** `decode_format_tag_raw`, total on bytes; `FieldsByMasks` gives the masks and shifts. */
  function DecodeTag(tag: byte): (t: Tag)
    ensures ValidTag(t)
  {
    var version := if tag < 64 then 0 else if tag < 128 then 1 else if tag < 192 then 2 else 3;
    var rest := tag - 64 * version;
    var limbs := if rest < 32 then Lsw else Msw;
    var rest' := rest - LimbBit(limbs);
    var order := if rest' < 16 then Little else Big;
    Tag(version, limbs, order, rest' - ByteBit(order))
  }

  function LimbBit(limbs: LimbOrder): nat { if limbs == Msw then 0x20 else 0 }
  function ByteBit(order: ByteOrder): nat { if order == Big then 0x10 else 0 }

  /** `encode_format_tag_raw`; `None` is its exception. `JoinAt` turns its or-ing into adding. */
  function EncodeTag(t: Tag): Option<nat> {
    if ValidTag(t) then Some(64 * t.version + LimbBit(t.limbs) + ByteBit(t.order) + t.reserved) else None
  }

  /** The fields of a tag are what its masks cut out. */
  lemma {:induction false} FieldsByMasks(tag: byte)
    ensures Bits.And(tag, 0xC0) == 64 * DecodeTag(tag).version
    ensures Bits.And(tag, 0x20) != 0 <==> DecodeTag(tag).limbs == Msw
    ensures Bits.And(tag, 0x10) != 0 <==> DecodeTag(tag).order == Big
    ensures Bits.And(tag, 0x0F) == DecodeTag(tag).reserved
  {
    BitMasks.Ones4();
    BitMasks.Low4(tag);
    BitMasks.AndLow(tag, 4);
    MaskAt(tag, 4, 1);
    MaskAt(tag, 5, 1);
    MaskAt(tag, 6, 2);
    Quotients(tag);
  }

  lemma {:induction false} Quotients(tag: byte)
    ensures var t := DecodeTag(tag);
            && tag / 64 % 4 == t.version && tag / 32 % 2 == LimbBit(t.limbs) / 32
            && tag / 16 % 2 == ByteBit(t.order) / 16 && tag % 16 == t.reserved
  {
    var t := DecodeTag(tag);
    RejoinedTag(tag, t);
    FieldQuotients(t.version, LimbBit(t.limbs) / 32, ByteBit(t.order) / 16, t.reserved);
  }

  lemma {:induction false} FieldQuotients(v: nat, m: nat, b: nat, r: nat)
    requires v < 4 && m < 2 && b < 2 && r < 16
    ensures var x := 64 * v + 32 * m + 16 * b + r;
            x / 64 % 4 == v && x / 32 % 2 == m && x / 16 % 2 == b && x % 16 == r
  {
    var x := 64 * v + 32 * m + 16 * b + r;
    assert x / 64 == v;
    assert x / 32 == 2 * v + m;
    assert x / 16 == 4 * v + 2 * m + b;
  }

  lemma {:induction false} MaskAt(x: nat, k: nat, n: nat)
    requires 4 <= k <= 6 && 1 <= n <= 2
    ensures var unit := if k == 4 then 16 else if k == 5 then 32 else 64;
            var ones := if n == 1 then 1 else 3;
            Bits.And(x, unit * ones) == unit * (x / unit % (ones + 1))
  {
    BitMasks.Ones4();
    BitMasks.Shift4(BitMasks.Ones(n));
    BitMasks.Drop4(x);
    BitMasks.Low4(BitMasks.Drop(x, k));
    BitMasks.Shift4(BitMasks.Low(BitMasks.Drop(x, k), n));
    BitMasks.AndField(x, k, n);
  }

  /** Or-ing a field above bit `k` with one below it adds them. */
  lemma {:induction false} JoinAt(x: nat, low: nat, k: nat)
    requires 4 <= k <= 6 && low < (if k == 4 then 16 else if k == 5 then 32 else 64)
    ensures var unit := if k == 4 then 16 else if k == 5 then 32 else 64;
            Bits.Or(x * unit, low) == x * unit + low
  {
    BitMasks.Shift4(x);
    BitMasks.Powers();
    BitMasks.OrAbove(x, low, k);
  }

  /** Every byte decodes to fields that encode to it, and every field combination survives. */
  lemma {:induction false} TagRoundTrip(tag: byte, t: Tag)
    ensures EncodeTag(DecodeTag(tag)) == Some(tag)
    ensures EncodeTag(t).Some? <==> ValidTag(t)
    ensures ValidTag(t) ==> EncodeTag(t).value < 256 && DecodeTag(EncodeTag(t).value) == t
  {
    RejoinedTag(tag, DecodeTag(tag));
    if ValidTag(t) { EncodedDecodes(t, EncodeTag(t).value); }
  }

  lemma {:induction false} EncodedDecodes(t: Tag, x: nat)
    requires ValidTag(t) && x == 64 * t.version + LimbBit(t.limbs) + ByteBit(t.order) + t.reserved
    ensures x < 256 && DecodeTag(x) == t
  {
    assert LimbBit(t.limbs) + ByteBit(t.order) + t.reserved < 64;
    assert ByteBit(t.order) + t.reserved < 32;
    var u := DecodeTag(x);
    assert u.version == t.version;
    assert u.limbs == t.limbs;
    assert u.order == t.order;
  }

  function TagOf(layout: Layout): byte {
    match layout
    case LeU32LswFirst => 0x00
    case BeU32LswFirst => 0x10
    case LeU32MswFirst => 0x20
    case BeU192MsbFirst => 0x30
  }

  function LimbsOf(layout: Layout): LimbOrder {
    if layout == LeU32MswFirst || layout == BeU192MsbFirst then Msw else Lsw
  }

  function OrderOf(layout: Layout): ByteOrder {
    if layout == BeU32LswFirst || layout == BeU192MsbFirst then Big else Little
  }

  /** The fields of a canonical tag. */
  function CanonicalTag(layout: Layout): Tag {
    Tag(0, LimbsOf(layout), OrderOf(layout), 0)
  }

  function LayoutOfFields(t: Tag): Option<Layout> {
    if t.version != 0 || t.reserved != 0 then None
    else if t.limbs == Lsw then Some(if t.order == Little then LeU32LswFirst else BeU32LswFirst)
    else Some(if t.order == Little then LeU32MswFirst else BeU192MsbFirst)
  }

  /** `validate_format_tag`: the layout of a canonical tag. */
  function LayoutOf(tag: byte): Option<Layout> {
    LayoutOfFields(DecodeTag(tag))
  }

  lemma {:induction false} CanonicalFields(t: Tag, layout: Layout)
    ensures LayoutOfFields(t) == Some(layout) <==> t == CanonicalTag(layout)
  {
    match layout
    case LeU32LswFirst =>
    case BeU32LswFirst =>
    case LeU32MswFirst =>
    case BeU192MsbFirst =>
  }

  /** The admitted tags are those of the four layouts, and they name them. */
  lemma {:induction false} AdmittedTags(tag: byte, layout: Layout)
    ensures LayoutOf(tag) == Some(layout) <==> tag == TagOf(layout)
    ensures LayoutOf(tag) == Some(layout) ==> DecodeTag(tag) == CanonicalTag(layout)
  {
    CanonicalFields(DecodeTag(tag), layout);
    CanonicalDecodes(layout);
    if DecodeTag(tag) == CanonicalTag(layout) { CanonicalRejoins(tag, layout); }
  }

  lemma {:induction false} CanonicalDecodes(layout: Layout)
    ensures DecodeTag(TagOf(layout)) == CanonicalTag(layout)
  {
    match layout
    case LeU32LswFirst =>
    case BeU32LswFirst =>
    case LeU32MswFirst =>
    case BeU192MsbFirst =>
  }

  lemma {:induction false} CanonicalRejoins(tag: byte, layout: Layout)
    requires DecodeTag(tag) == CanonicalTag(layout)
    ensures tag == TagOf(layout)
  {
    RejoinedTag(tag, CanonicalTag(layout));
    CanonicalSum(layout);
  }

  lemma {:induction false} CanonicalSum(layout: Layout)
    ensures LimbBit(LimbsOf(layout)) + ByteBit(OrderOf(layout)) == TagOf(layout)
  {
  }

  lemma {:induction false} RejoinedTag(tag: byte, t: Tag)
    requires t == DecodeTag(tag)
    ensures tag == 64 * t.version + LimbBit(t.limbs) + ByteBit(t.order) + t.reserved
  {
  }
}
