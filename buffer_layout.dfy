/** The part of the `buffer-layout` library that the token registry relies on: a
    structure of unsigned-byte fields, decoded strictly by position. A structure
    reads its fields in declaration order, each at the offset where the previous
    one ended, so the field at index i starts at the sum of the spans before it.

    The encoder is the partner of the decoder: the two round-trip lemmas show
    that a structure covers its byte range exactly once, with no padding, no
    overlap and no byte left out. */
module BufferLayout {

  /** What `u8()` decodes: an unsigned 8-bit number. */
  newtype byte = b: int | 0 <= b < 256

  /** The two field kinds the registry's layout uses: `u8()` and `seq(u8(), count)`. */
  datatype FieldKind = U8 | U8Seq(count: nat)

  /** A field of a structure: the property name it is stored under, and its kind. */
  datatype Field = Field(property: string, kind: FieldKind)

  /** A decoded field: one number for `u8()`, an array of numbers for `seq(u8(), n)`. */
  datatype FieldValue = Byte(b: byte) | Bytes(bs: seq<byte>)

  /** The number of bytes a field of kind `k` occupies. */
  function Span(k: FieldKind): nat
  {
    match k
    case U8 => 1
    case U8Seq(n) => n
  }

  /** The number of bytes a structure occupies: the sum of its fields' spans. */
  function StructSpan(fs: seq<Field>): nat
  {
    if fs == [] then 0 else Span(fs[0].kind) + StructSpan(fs[1..])
  }

  /** A value has the shape a field of kind `k` decodes to. */
  predicate Fits(k: FieldKind, v: FieldValue)
  {
    match k
    case U8 => v.Byte?
    case U8Seq(n) => v.Bytes? && |v.bs| == n
  }

  /** `vs` holds one value per field of `fs`, each of its field's shape. */
  predicate Shaped(fs: seq<Field>, vs: seq<FieldValue>)
    decreases |fs|
  {
    && |vs| == |fs|
    && (fs != [] ==> Fits(fs[0].kind, vs[0]) && Shaped(fs[1..], vs[1..]))
  }

  /** Where field `i` starts, relative to the start of the structure. The field
      lies wholly inside the structure. */
  function OffsetOf(fs: seq<Field>, i: nat): (off: nat)
    requires i <= |fs|
    ensures off <= StructSpan(fs)
    ensures i < |fs| ==> off + Span(fs[i].kind) <= StructSpan(fs)
  {
    if i == 0 then 0 else Span(fs[0].kind) + OffsetOf(fs[1..], i - 1)
  }

  /** Each field starts where the previous one ends: there is no padding. */
  lemma {:induction false} OffsetsAreContiguous(fs: seq<Field>, i: nat)
    requires i < |fs|
    ensures OffsetOf(fs, i + 1) == OffsetOf(fs, i) + Span(fs[i].kind)
  {
    if i > 0 {
      OffsetsAreContiguous(fs[1..], i - 1);
    }
  }

  /** The offset just past the last field is the span of the whole structure. */
  lemma {:induction false} LastOffsetIsSpan(fs: seq<Field>)
    ensures OffsetOf(fs, |fs|) == StructSpan(fs)
  {
    if fs != [] {
      LastOffsetIsSpan(fs[1..]);
    }
  }

  /** Decodes one field of kind `k` at byte `offset` of `data`. */
  function DecodeField(k: FieldKind, data: seq<byte>, offset: nat): (v: FieldValue)
    requires offset + Span(k) <= |data|
    ensures Fits(k, v)
  {
    match k
    case U8 => Byte(data[offset])
    case U8Seq(n) => Bytes(data[offset..offset + n])
  }

  /** Decodes the structure `fs` starting at byte `offset` of `data`, one field
      after the other: one value per field, each of its field's shape. The
      buffer must hold the whole structure; bytes past its end are not read. */
  function DecodeStruct(fs: seq<Field>, data: seq<byte>, offset: nat): (vs: seq<FieldValue>)
    requires offset + StructSpan(fs) <= |data|
    ensures |vs| == |fs|
    ensures Shaped(fs, vs)
    decreases |fs|
  {
    if fs == [] then []
    else
      [DecodeField(fs[0].kind, data, offset)]
        + DecodeStruct(fs[1..], data, offset + Span(fs[0].kind))
  }

  /** Field `i` of a decoded structure is read at `offset + OffsetOf(fs, i)`. */
  lemma {:induction false} DecodeStructAt(fs: seq<Field>, data: seq<byte>, offset: nat, i: nat)
    requires offset + StructSpan(fs) <= |data|
    requires i < |fs|
    ensures DecodeStruct(fs, data, offset)[i] == DecodeField(fs[i].kind, data, offset + OffsetOf(fs, i))
    decreases |fs|
  {
    var next := offset + Span(fs[0].kind);
    var tail := DecodeStruct(fs[1..], data, next);
    DecodeStructStep(fs, data, offset);
    if i > 0 {
      assert DecodeStruct(fs, data, offset)[i] == tail[i - 1];
      assert fs[1..][i - 1] == fs[i];
      assert OffsetOf(fs, i) == Span(fs[0].kind) + OffsetOf(fs[1..], i - 1);
      DecodeStructAt(fs[1..], data, next, i - 1);
    }
  }

  /** A non-empty structure decodes as its first field followed by the rest. */
  lemma DecodeStructStep(fs: seq<Field>, data: seq<byte>, offset: nat)
    requires fs != []
    requires offset + StructSpan(fs) <= |data|
    ensures DecodeStruct(fs, data, offset)
         == [DecodeField(fs[0].kind, data, offset)] + DecodeStruct(fs[1..], data, offset + Span(fs[0].kind))
  {
  }

  /** The bytes a field value occupies when written back. */
  function EncodeField(v: FieldValue): (bytes: seq<byte>)
  {
    match v
    case Byte(b) => [b]
    case Bytes(bs) => bs
  }

  /** Writes field values back one after the other, with nothing in between. */
  function EncodeStruct(vs: seq<FieldValue>): (bytes: seq<byte>)
  {
    if vs == [] then [] else EncodeField(vs[0]) + EncodeStruct(vs[1..])
  }

  /** Every value sequence shaped like `fs` encodes to exactly `StructSpan(fs)` bytes. */
  lemma {:induction false} EncodeStructLength(fs: seq<Field>, vs: seq<FieldValue>)
    requires Shaped(fs, vs)
    ensures |EncodeStruct(vs)| == StructSpan(fs)
  {
    if fs != [] {
      EncodeStructLength(fs[1..], vs[1..]);
    }
  }

  /** A byte range is the concatenation of its two halves at any midpoint. */
  lemma SliceConcat(data: seq<byte>, lo: nat, mid: nat, hi: nat)
    requires lo <= mid <= hi <= |data|
    ensures data[lo..hi] == data[lo..mid] + data[mid..hi]
  {
  }

  /** If a byte range is `a + b`, its halves at `|a|` are `a` and `b`. */
  lemma SliceSplit(data: seq<byte>, lo: nat, hi: nat, a: seq<byte>, b: seq<byte>)
    requires lo + |a| <= hi <= |data|
    requires data[lo..hi] == a + b
    ensures data[lo..lo + |a|] == a
    ensures data[lo + |a|..hi] == b
  {
    var w := data[lo..hi];
    assert data[lo..lo + |a|] == w[..|a|];
    assert data[lo + |a|..hi] == w[|a|..];
    assert (a + b)[..|a|] == a;
    assert (a + b)[|a|..] == b;
  }

  /** A non-empty value sequence encodes as its first value followed by the rest. */
  lemma EncodeStructStep(vs: seq<FieldValue>)
    requires vs != []
    ensures EncodeStruct(vs) == EncodeField(vs[0]) + EncodeStruct(vs[1..])
  {
  }

  /** A single decoded field encodes back to the bytes it was read from. */
  lemma EncodeDecodedField(k: FieldKind, data: seq<byte>, offset: nat)
    requires offset + Span(k) <= |data|
    ensures EncodeField(DecodeField(k, data, offset)) == data[offset..offset + Span(k)]
  {
  }

  /** Decoding then encoding gives back exactly the bytes the structure covers. */
  lemma {:induction false} EncodeDecode(fs: seq<Field>, data: seq<byte>, offset: nat)
    requires offset + StructSpan(fs) <= |data|
    ensures EncodeStruct(DecodeStruct(fs, data, offset)) == data[offset..offset + StructSpan(fs)]
    decreases |fs|
  {
    if fs != [] {
      var next, end := offset + Span(fs[0].kind), offset + StructSpan(fs);
      var head, tail := DecodeField(fs[0].kind, data, offset), DecodeStruct(fs[1..], data, next);
      var vs := DecodeStruct(fs, data, offset);
      calc {
        EncodeStruct(vs);
        { DecodeStructStep(fs, data, offset);
          assert vs[0] == head && vs[1..] == tail;
          EncodeStructStep(vs); }
        EncodeField(head) + EncodeStruct(tail);
        { assert end == next + StructSpan(fs[1..]);
          EncodeDecodedField(fs[0].kind, data, offset);
          assert EncodeField(head) == data[offset..next];
          EncodeDecode(fs[1..], data, next);
          assert EncodeStruct(tail) == data[next..end]; }
        data[offset..next] + data[next..end];
        { SliceConcat(data, offset, next, end); }
        data[offset..end];
      }
    }
  }

  /** A single field decodes to the value whose encoding sits at its offset. */
  lemma DecodeEncodedField(k: FieldKind, v: FieldValue, data: seq<byte>, offset: nat)
    requires Fits(k, v)
    requires offset + Span(k) <= |data|
    requires data[offset..offset + Span(k)] == EncodeField(v)
    ensures DecodeField(k, data, offset) == v
  {
    if k.U8? {
      assert data[offset] == data[offset..offset + 1][0];
    }
  }

  /** The encoding of well-shaped values splits into the first value's bytes and
      the encoding of the rest, at the first field's span. */
  lemma EncodedStructSplit(fs: seq<Field>, vs: seq<FieldValue>, data: seq<byte>, offset: nat)
    requires fs != [] && |vs| == |fs|
    requires Fits(fs[0].kind, vs[0])
    requires offset + StructSpan(fs) <= |data|
    requires data[offset..offset + StructSpan(fs)] == EncodeStruct(vs)
    ensures data[offset..offset + Span(fs[0].kind)] == EncodeField(vs[0])
    ensures data[offset + Span(fs[0].kind)..offset + StructSpan(fs)] == EncodeStruct(vs[1..])
  {
    assert EncodeStruct(vs) == EncodeField(vs[0]) + EncodeStruct(vs[1..]) by {
      EncodeStructStep(vs);
    }
    assert |EncodeField(vs[0])| == Span(fs[0].kind);
    SliceSplit(data, offset, offset + StructSpan(fs), EncodeField(vs[0]), EncodeStruct(vs[1..]));
  }

  /** Encoding values shaped like `fs` and decoding them gives back the same values,
      wherever in a buffer the encoded bytes sit. */
  lemma {:induction false} DecodeEncode(fs: seq<Field>, vs: seq<FieldValue>, data: seq<byte>, offset: nat)
    requires Shaped(fs, vs)
    requires offset + StructSpan(fs) <= |data|
    requires data[offset..offset + StructSpan(fs)] == EncodeStruct(vs)
    ensures DecodeStruct(fs, data, offset) == vs
    decreases |fs|
  {
    if fs != [] {
      var k := fs[0].kind;
      var next := offset + Span(k);
      EncodedStructSplit(fs, vs, data, offset);
      DecodeEncodedField(k, vs[0], data, offset);
      DecodeEncode(fs[1..], vs[1..], data, next);
      DecodeStructStep(fs, data, offset);
      assert vs == [vs[0]] + vs[1..];
    }
  }
}
