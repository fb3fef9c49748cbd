/**
 Packing generated material parameters into a byte block, and the overflow-safe test that
 decides beforehand whether a binding fits.
 */
module MaterialPacking {
  import opened Wrappers
  import opened Arithmetic

  const UINT32_LIMIT := 0x1_0000_0000
  const UINT64_LIMIT := 0x1_0000_0000_0000_0000

  type Byte = x: int | 0 <= x < 256
  type Word = x: int | 0 <= x < 0x1_0000_0000

  datatype ValueType =
    | Float | Float2 | Float3 | Float4 | Integer | Boolean | Texture2D | Sampler | CombinedTextureSampler

  /** Numbers appear as the words that represent them. */
  datatype Value =
    | FloatValue(x: Word)
    | Float2Value(x: Word, y: Word)
    | Float3Value(x: Word, y: Word, z: Word)
    | Float4Value(x: Word, y: Word, z: Word, w: Word)
    | IntegerValue(x: Word)
    | BooleanValue(flag: bool)
    | ResourceValue

  datatype Binding = Binding(name: string, valueType: ValueType, offset: Word, arraySize: Word, arrayStride: Word)

  datatype Entry = Entry(name: string, valueType: ValueType, values: seq<Value>)

  datatype Outcome = Packed | StateMismatch | UnsupportedType | ExceedsBuffer | WrongValueType

  // ------------------------------------------------------------ Values as bytes

  function PackedSize(t: ValueType): (size: Option<nat>)
    ensures size.Some? ==> 4 <= size.value <= 16
  {
    match t
    case Float => Some(4)
    case Float2 => Some(8)
    case Float3 => Some(12)
    case Float4 => Some(16)
    case Integer => Some(4)
    case Boolean => Some(4)
    case _ => None
  }

  function WordBytes(w: Word): (bs: seq<Byte>)
    ensures |bs| == 4
  {
    var n: int := w;
    var a: int, b: int, c: int := n / 256, n / 65536, n / 16777216;
    [n % 256, a % 256, b % 256, c]
  }

  function WordOf(bs: seq<Byte>): (w: Word)
    requires |bs| == 4
  {
    var a: int, b: int, c: int, d: int := bs[0], bs[1], bs[2], bs[3];
    a + 256 * b + 65536 * c + 16777216 * d
  }

  lemma WordRoundTrip(w: Word)
    ensures WordOf(WordBytes(w)) == w
  {
    var a, b, c := w / 256, w / 65536, w / 16777216;
    assert a / 256 == b && b / 256 == c;
    assert w == 256 * a + w % 256 && a == 256 * b + a % 256 && b == 256 * c + b % 256;
  }

  /** The bytes of a value of the declared type; None if the value has another type. */
  function Encoded(v: Value, t: ValueType): (bs: Option<seq<Byte>>)
    ensures bs.Some? ==> PackedSize(t) == Some(|bs.value|)
  {
    match (t, v)
    case (Float, FloatValue(x)) => Some(WordBytes(x))
    case (Float2, Float2Value(x, y)) => Some(WordBytes(x) + WordBytes(y))
    case (Float3, Float3Value(x, y, z)) => Some(WordBytes(x) + WordBytes(y) + WordBytes(z))
    case (Float4, Float4Value(x, y, z, w)) => Some(WordBytes(x) + WordBytes(y) + WordBytes(z) + WordBytes(w))
    case (Integer, IntegerValue(x)) => Some(WordBytes(x))
    case (Boolean, BooleanValue(flag)) => Some(WordBytes(if flag then 1 else 0))
    case _ => None
  }

  /** What a reader of the block sees. */
  function Decoded(bs: seq<Byte>, t: ValueType): (v: Value)
    requires PackedSize(t) == Some(|bs|)
  {
    match t
    case Float => FloatValue(WordOf(bs))
    case Float2 => Float2Value(WordOf(bs[..4]), WordOf(bs[4..]))
    case Float3 => Float3Value(WordOf(bs[..4]), WordOf(bs[4..8]), WordOf(bs[8..]))
    case Float4 => Float4Value(WordOf(bs[..4]), WordOf(bs[4..8]), WordOf(bs[8..12]), WordOf(bs[12..]))
    case Integer => IntegerValue(WordOf(bs))
    case Boolean => BooleanValue(WordOf(bs) != 0)
    case _ => ResourceValue
  }

  lemma ValueRoundTrip(v: Value, t: ValueType)
    requires Encoded(v, t).Some?
    ensures Decoded(Encoded(v, t).value, t) == v
  {
    var bs := Encoded(v, t).value;
    match v
    case FloatValue(x) => WordRoundTrip(x);
    case Float2Value(x, y) =>
      WordRoundTrip(x); WordRoundTrip(y);
      assert bs[..4] == WordBytes(x) && bs[4..] == WordBytes(y);
    case Float3Value(x, y, z) =>
      WordRoundTrip(x); WordRoundTrip(y); WordRoundTrip(z);
      assert bs[..4] == WordBytes(x) && bs[4..8] == WordBytes(y) && bs[8..] == WordBytes(z);
    case Float4Value(x, y, z, w) =>
      WordRoundTrip(x); WordRoundTrip(y); WordRoundTrip(z); WordRoundTrip(w);
      assert bs[..4] == WordBytes(x) && bs[4..8] == WordBytes(y) && bs[8..12] == WordBytes(z) &&
             bs[12..] == WordBytes(w);
    case IntegerValue(x) => WordRoundTrip(x);
    case BooleanValue(flag) => WordRoundTrip(if flag then 1 else 0);
    case ResourceValue =>
  }

  /** Four bytes, the lowest first, that represent the word. */
  ghost predicate WordAt(bytes: seq<Byte>, at: int, w: Word) {
    && 0 <= at <= |bytes| - 4
    && var a: int, b: int, c: int, d: int := bytes[at], bytes[at + 1], bytes[at + 2], bytes[at + 3];
       a + 256 * b + 65536 * c + 16777216 * d == w
  }

  /** The components of the value one after the other, each as a word; a flag as 1 or 0. */
  ghost predicate HoldsAt(bytes: seq<Byte>, at: int, t: ValueType, v: Value) {
    match (t, v)
    case (Float, FloatValue(x)) => WordAt(bytes, at, x)
    case (Float2, Float2Value(x, y)) => WordAt(bytes, at, x) && WordAt(bytes, at + 4, y)
    case (Float3, Float3Value(x, y, z)) => WordAt(bytes, at, x) && WordAt(bytes, at + 4, y) && WordAt(bytes, at + 8, z)
    case (Float4, Float4Value(x, y, z, w)) =>
      WordAt(bytes, at, x) && WordAt(bytes, at + 4, y) && WordAt(bytes, at + 8, z) && WordAt(bytes, at + 12, w)
    case (Integer, IntegerValue(x)) => WordAt(bytes, at, x)
    case (Boolean, BooleanValue(flag)) => WordAt(bytes, at, if flag then 1 else 0)
    case _ => false
  }

  lemma WordIsAt(bytes: seq<Byte>, at: nat, e: seq<Byte>, k: nat, w: Word)
    requires at + |e| <= |bytes| && bytes[at..at + |e|] == e && k + 4 <= |e| && e[k..k + 4] == WordBytes(w)
    ensures WordAt(bytes, at + k, w)
  {
    WordRoundTrip(w);
    hide WordBytes;
    assert forall q :: k <= q < k + 4 ==> bytes[at + q] == e[q] == e[k..k + 4][q - k];
  }

  /** Where the encoding of a value lies, its components can be read in the clear. */
  lemma EncodedHolds(bytes: seq<Byte>, at: nat, t: ValueType, v: Value)
    requires Encoded(v, t).Some? && at + |Encoded(v, t).value| <= |bytes|
    requires bytes[at..at + |Encoded(v, t).value|] == Encoded(v, t).value
    ensures HoldsAt(bytes, at, t, v)
  {
    hide WordBytes, WordAt;
    var e := Encoded(v, t).value;
    match v
    case FloatValue(x) => WordIsAt(bytes, at, e, 0, x);
    case Float2Value(x, y) =>
      assert e[0..4] == WordBytes(x) && e[4..8] == WordBytes(y);
      WordIsAt(bytes, at, e, 0, x); WordIsAt(bytes, at, e, 4, y);
    case Float3Value(x, y, z) =>
      assert e[0..4] == WordBytes(x) && e[4..8] == WordBytes(y) && e[8..12] == WordBytes(z);
      WordIsAt(bytes, at, e, 0, x); WordIsAt(bytes, at, e, 4, y); WordIsAt(bytes, at, e, 8, z);
    case Float4Value(x, y, z, w) =>
      assert e == (WordBytes(x) + WordBytes(y)) + (WordBytes(z) + WordBytes(w));
      assert e[0..4] == WordBytes(x) && e[4..8] == WordBytes(y);
      assert e[8..12] == WordBytes(z) && e[12..16] == WordBytes(w);
      WordIsAt(bytes, at, e, 0, x); WordIsAt(bytes, at, e, 4, y);
      WordIsAt(bytes, at, e, 8, z); WordIsAt(bytes, at, e, 12, w);
    case IntegerValue(x) => WordIsAt(bytes, at, e, 0, x);
    case BooleanValue(flag) => WordIsAt(bytes, at, e, 0, if flag then 1 else 0);
    case ResourceValue =>
  }

  /** The value is of the type, which is no resource. */
  predicate OfType(v: Value, t: ValueType) {
    || (t.Float? && v.FloatValue?) || (t.Float2? && v.Float2Value?) || (t.Float3? && v.Float3Value?)
    || (t.Float4? && v.Float4Value?) || (t.Integer? && v.IntegerValue?) || (t.Boolean? && v.BooleanValue?)
  }

  /** The values that have an encoding: those of the declared type. */
  lemma EncodableExactly(v: Value, t: ValueType)
    ensures Encoded(v, t).Some? <==> OfType(v, t)
    ensures PackedSize(t).None? <==> t.Texture2D? || t.Sampler? || t.CombinedTextureSampler?
  {
  }

  // ------------------------------------------------------------ The fit test

  function Stride(b: Binding): (s: nat)
    requires PackedSize(b.valueType).Some?
    ensures s > 0
  {
    if b.arrayStride == 0 then PackedSize(b.valueType).value else b.arrayStride
  }

  /** The test as written: subtractions and a division instead of sums and a product. */
  predicate GeneratedBindingFits(b: Binding, bufferSize: Word) {
    var size := PackedSize(b.valueType);
    if size.None? || b.arraySize == 0 then false
    else if b.offset > bufferSize || size.value > bufferSize - b.offset then false
    else if b.arraySize == 1 then true
    else if Stride(b) < size.value then false
    else
      var remaining := bufferSize - b.offset - size.value;
      b.arraySize - 1 <= remaining / Stride(b)
  }

  /** The test says exactly that the last value ends inside the block and that values do not
      overlap, where they lie the declared stride apart, or side by side if none is declared. */
  lemma FitsExactly(b: Binding, bufferSize: Word)
    ensures GeneratedBindingFits(b, bufferSize) <==>
              && PackedSize(b.valueType).Some? && b.arraySize > 0
              && var n := PackedSize(b.valueType).value;
                 var s: nat := if b.arrayStride != 0 then b.arrayStride else n;
                 && b.offset + s * (b.arraySize - 1) + n <= bufferSize
                 && (b.arraySize > 1 ==> s >= n)
  {
    if PackedSize(b.valueType).Some? && b.arraySize > 0 {
      var size, stride, n := PackedSize(b.valueType).value, Stride(b), b.arraySize - 1;
      assert stride * n >= 0;
      if b.offset + size <= bufferSize {
        QuotientBounds(n, bufferSize - b.offset - size, stride);
      }
      if n == 0 {
        assert stride * n == 0;
      }
    }
  }

  /** The subtraction of one from an array size wraps in 32 bits. */
  function LastIndex(arraySize: Word): Word {
    if arraySize == 0 then 0xFFFF_FFFF else arraySize - 1
  }

  /** The end as the packer computes it, in 64 bits. */
  function PackerEnd(b: Binding): int
    requires PackedSize(b.valueType).Some?
  {
    b.offset + Stride(b) * LastIndex(b.arraySize) + PackedSize(b.valueType).value
  }

  /** No operand of 32 bits can make it overflow, and an empty array never passes. */
  lemma PackerEndIsExact(b: Binding, bufferSize: Word)
    requires PackedSize(b.valueType).Some?
    ensures 0 <= PackerEnd(b) < UINT64_LIMIT
    ensures b.arraySize == 0 ==> PackerEnd(b) > bufferSize
    ensures b.arraySize > 0 ==>
              var n := PackedSize(b.valueType).value;
              var s: nat := if b.arrayStride != 0 then b.arrayStride else n;
              PackerEnd(b) == b.offset + s * (b.arraySize - 1) + n
    ensures GeneratedBindingFits(b, bufferSize) ==> PackerEnd(b) <= bufferSize
  {
    var stride, n := Stride(b), LastIndex(b.arraySize);
    ProductBounds(stride, n);
    FitsExactly(b, bufferSize);
  }

  lemma ProductBounds(a: nat, b: nat)
    requires 0 < a < UINT32_LIMIT && b < UINT32_LIMIT
    ensures b <= a * b <= (UINT32_LIMIT - 1) * (UINT32_LIMIT - 1)
  {
    ProductGrows(1, a, b);
    ProductGrows(a, UINT32_LIMIT - 1, b);
    ProductGrows(b, UINT32_LIMIT - 1, UINT32_LIMIT - 1);
    assert (UINT32_LIMIT - 1) * b == b * (UINT32_LIMIT - 1);
  }
}
