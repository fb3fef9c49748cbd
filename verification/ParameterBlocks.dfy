/**
 The packer itself: it fills one block of a byte buffer in place, and every packed value
 can be read back.
 */
module ParameterBlocks {
  import opened Wrappers
  import opened Arithmetic
  import opened MaterialPacking
  import opened Splices

  // ------------------------------------------------------------ Expected contents

  function Zeros(n: nat): (z: seq<Byte>)
    ensures |z| == n && forall i :: 0 <= i < n ==> z[i] == 0
  {
    seq(n, _ => 0)
  }

  /** The first entry with the name, as a linear search finds it. */
  function Find(entries: seq<Entry>, name: string): (e: Option<Entry>)
    ensures e.Some? ==> e.value in entries && e.value.name == name
    ensures e.None? ==> forall x :: x in entries ==> x.name != name
  {
    if entries == [] then None
    else if entries[0].name == name then Some(entries[0])
    else Find(entries[1..], name)
  }

  /** Entry k is the first with the name. */
  predicate FirstNamed(entries: seq<Entry>, name: string, k: int) {
    0 <= k < |entries| && entries[k].name == name && forall j :: 0 <= j < k ==> entries[j].name != name
  }

  lemma {:induction false} FindIsFirst(entries: seq<Entry>, name: string)
    ensures Find(entries, name).Some? <==> exists k :: FirstNamed(entries, name, k)
    ensures forall k :: FirstNamed(entries, name, k) ==> Find(entries, name) == Some(entries[k])
  {
    if entries != [] && entries[0].name == name {
      assert FirstNamed(entries, name, 0);
    } else if entries != [] {
      FindIsFirst(entries[1..], name);
      assert forall k :: FirstNamed(entries, name, k) ==> FirstNamed(entries[1..], name, k - 1);
      assert forall k :: FirstNamed(entries[1..], name, k) ==> FirstNamed(entries, name, k + 1);
    }
  }

  predicate AllEncodable(values: seq<Value>, t: ValueType) {
    forall i :: 0 <= i < |values| ==> Encoded(values[i], t).Some?
  }

  /** When one binding can be packed from the material's state. */
  predicate BindingPacks(b: Binding, entries: seq<Entry>, size: Word) {
    var e := Find(entries, b.name);
    && e.Some? && e.value.valueType == b.valueType && |e.value.values| == b.arraySize
    && PackedSize(b.valueType).Some? && PackerEnd(b) <= size
    && AllEncodable(e.value.values, b.valueType)
  }

  /** In the binding's own fields: the first entry of its name has its type and count, the type is
      no resource, the last value ends inside the block, and every value is of the type. */
  ghost predicate Suits(b: Binding, entries: seq<Entry>, size: Word) {
    exists k :: FirstNamed(entries, b.name, k) && EntrySuits(b, entries[k], size)
  }

  ghost predicate EntrySuits(b: Binding, e: Entry, size: Word) {
    && e.valueType == b.valueType && |e.values| == b.arraySize > 0
    && PackedSize(b.valueType).Some?
    && var n := PackedSize(b.valueType).value;
       var s: nat := if b.arrayStride != 0 then b.arrayStride else n;
    && b.offset + s * (b.arraySize - 1) + n <= size
    && (forall i :: 0 <= i < |e.values| ==> OfType(e.values[i], b.valueType))
  }

  lemma PacksExactly(b: Binding, entries: seq<Entry>, size: Word)
    ensures BindingPacks(b, entries, size) <==> Suits(b, entries, size)
  {
    hide Stride, PackerEnd, Find, Encoded, PackedSize;
    FindIsFirst(entries, b.name);
    if PackedSize(b.valueType).Some? {
      PackerEndIsExact(b, size);
    }
    if k :| FirstNamed(entries, b.name, k) {
      forall i | 0 <= i < |entries[k].values|
        ensures Encoded(entries[k].values[i], b.valueType).Some? <==> OfType(entries[k].values[i], b.valueType)
      {
        EncodableExactly(entries[k].values[i], b.valueType);
      }
    }
  }

  ghost predicate AllSuit(bindings: seq<Binding>, entries: seq<Entry>, size: Word) {
    forall k :: 0 <= k < |bindings| ==> Suits(bindings[k], entries, size)
  }

  lemma AllPackExactly(bindings: seq<Binding>, entries: seq<Entry>, size: Word)
    ensures AllPack(bindings, entries, size) <==> AllSuit(bindings, entries, size)
  {
    hide BindingPacks, Suits;
    forall k | 0 <= k < |bindings| {
      PacksExactly(bindings[k], entries, size);
    }
  }

  /** What is wrong with one binding, in the order in which it is noticed. */
  predicate Hinders(b: Binding, entries: seq<Entry>, size: Word, outcome: Outcome) {
    var e := Find(entries, b.name);
    var matches := e.Some? && e.value.valueType == b.valueType && |e.value.values| == b.arraySize;
    match outcome
    case Packed => false
    case StateMismatch => !matches
    case UnsupportedType => matches && PackedSize(b.valueType).None?
    case ExceedsBuffer => matches && PackedSize(b.valueType).Some? && PackerEnd(b) > size
    case WrongValueType =>
      matches && PackedSize(b.valueType).Some? && PackerEnd(b) <= size && !AllEncodable(e.value.values, b.valueType)
  }

  /** A binding packs, or exactly one thing hinders it. */
  lemma HinderedOnce(b: Binding, entries: seq<Entry>, size: Word)
    ensures !BindingPacks(b, entries, size) <==> exists outcome :: Hinders(b, entries, size, outcome)
    ensures forall o, o' :: Hinders(b, entries, size, o) && Hinders(b, entries, size, o') ==> o == o'
  {
    if !BindingPacks(b, entries, size) {
      assert Hinders(b, entries, size, StateMismatch) || Hinders(b, entries, size, UnsupportedType) ||
             Hinders(b, entries, size, ExceedsBuffer) || Hinders(b, entries, size, WrongValueType);
    }
  }

  /** Where value i starts, from the start of the block. */
  function StartOf(b: Binding, i: nat): nat
    requires PackedSize(b.valueType).Some?
  {
    b.offset + Stride(b) * i
  }

  lemma StartFits(b: Binding, i: nat, size: Word)
    requires PackedSize(b.valueType).Some? && i < b.arraySize && PackerEnd(b) <= size
    ensures StartOf(b, i) + PackedSize(b.valueType).value <= size
  {
    ProductGrows(i, b.arraySize - 1, Stride(b));
    assert Stride(b) * i == i * Stride(b) && Stride(b) * (b.arraySize - 1) == (b.arraySize - 1) * Stride(b);
  }

  /** The buffer after the first n values of a binding are written at `base`. */
  function ValuesWritten(buf: seq<Byte>, base: nat, size: Word, b: Binding, values: seq<Value>, n: nat): (r: seq<Byte>)
    requires base + size <= |buf| && PackedSize(b.valueType).Some? && PackerEnd(b) <= size
    requires n <= |values| == b.arraySize && AllEncodable(values, b.valueType)
    ensures |r| == |buf|
  {
    if n == 0 then buf
    else
      StartFits(b, n - 1, size);
      WriteAt(ValuesWritten(buf, base, size, b, values, n - 1), base + StartOf(b, n - 1),
              Encoded(values[n - 1], b.valueType).value)
  }

  predicate AllPack(bindings: seq<Binding>, entries: seq<Entry>, size: Word) {
    forall k :: 0 <= k < |bindings| ==> BindingPacks(bindings[k], entries, size)
  }

  /** The buffer after the block is cleared and the first k bindings are packed. */
  function BindingsWritten(buf: seq<Byte>, base: nat, size: Word, bindings: seq<Binding>, entries: seq<Entry>, k: nat):
    (r: seq<Byte>)
    requires base + size <= |buf| && k <= |bindings| && AllPack(bindings[..k], entries, size)
    ensures |r| == |buf|
  {
    if k == 0 then WriteAt(buf, base, Zeros(size))
    else
      var b := bindings[k - 1];
      assert bindings[..k][k - 1] == b && bindings[..k - 1] == bindings[..k][..k - 1];
      ValuesWritten(BindingsWritten(buf, base, size, bindings, entries, k - 1), base, size, b,
                    Find(entries, b.name).value.values, b.arraySize)
  }

  // ------------------------------------------------------------ In place

  /** Copies one value's bytes; a value of another type copies nothing. */
  method CopyMaterialValue(buffer: array<Byte>, at: nat, value: Value, t: ValueType) returns (outcome: Outcome)
    requires PackedSize(t).Some? && at + PackedSize(t).value <= buffer.Length
    modifies buffer
    ensures outcome == if Encoded(value, t).Some? then Packed else WrongValueType
    ensures buffer[..] == if Encoded(value, t).Some? then WriteAt(old(buffer[..]), at, Encoded(value, t).value)
                          else old(buffer[..])
  {
    var bytes := Encoded(value, t);
    if bytes.None? {
      return WrongValueType;
    }
    var k := 0;
    while k < |bytes.value|
      invariant 0 <= k <= |bytes.value|
      invariant forall q :: 0 <= q < buffer.Length ==>
                  buffer[q] == if at <= q < at + k then bytes.value[q - at] else old(buffer[q])
    {
      buffer[at + k] := bytes.value[k];
      k := k + 1;
    }
    assert buffer[..] == WriteAt(old(buffer[..]), at, bytes.value);
    return Packed;
  }

  method ClearBlock(buffer: array<Byte>, base: nat, size: Word)
    requires base + size <= buffer.Length
    modifies buffer
    ensures buffer[..] == WriteAt(old(buffer[..]), base, Zeros(size))
  {
    var k: nat := 0;
    while k < size
      invariant 0 <= k <= size
      invariant forall q :: 0 <= q < buffer.Length ==> buffer[q] == if base <= q < base + k then 0 else old(buffer[q])
    {
      buffer[base + k] := 0;
      k := k + 1;
    }
    assert buffer[..] == WriteAt(old(buffer[..]), base, Zeros(size));
  }

  /** Outside the block nothing changes, whatever happens. */
  ghost predicate OutsideKept(before: seq<Byte>, after: seq<Byte>, base: nat, size: nat) {
    && |after| == |before|
    && forall q :: 0 <= q < |before| && !(base <= q < base + size) ==> after[q] == before[q]
  }

  lemma KeptTrivially(buf: seq<Byte>, base: nat, size: nat)
    ensures OutsideKept(buf, buf, base, size)
  {
  }

  lemma KeptByWrite(before: seq<Byte>, current: seq<Byte>, base: nat, size: nat, at: nat, bytes: seq<Byte>)
    requires OutsideKept(before, current, base, size) && at + |bytes| <= size && base + size <= |before|
    ensures OutsideKept(before, WriteAt(current, base + at, bytes), base, size)
  {
  }

  lemma ClearKeeps(before: seq<Byte>, base: nat, size: nat)
    requires base + size <= |before|
    ensures OutsideKept(before, WriteAt(before, base, Zeros(size)), base, size)
  {
  }

  lemma KeptTwice(before: seq<Byte>, middle: seq<Byte>, after: seq<Byte>, base: nat, size: nat)
    requires OutsideKept(before, middle, base, size) && OutsideKept(middle, after, base, size)
    ensures OutsideKept(before, after, base, size)
  {
  }

  method CopyValues(buffer: array<Byte>, base: nat, size: Word, b: Binding, values: seq<Value>)
    returns (outcome: Outcome)
    requires base + size <= buffer.Length && PackedSize(b.valueType).Some? && PackerEnd(b) <= size
    requires |values| == b.arraySize
    modifies buffer
    ensures outcome == if AllEncodable(values, b.valueType) then Packed else WrongValueType
    ensures outcome.Packed? ==>
              buffer[..] == ValuesWritten(old(buffer[..]), base, size, b, values, |values|)
    ensures OutsideKept(old(buffer[..]), buffer[..], base, size)
  {
    hide Encoded, StartOf, PackerEnd, Stride, WriteAt, OutsideKept;
    ghost var before := buffer[..];
    var index := 0;
    KeptTrivially(before, base, size);
    while index < |values|
      invariant 0 <= index <= |values| && AllEncodable(values[..index], b.valueType)
      invariant OutsideKept(before, buffer[..], base, size)
      invariant AllEncodable(values, b.valueType) ==>
                  buffer[..] == ValuesWritten(before, base, size, b, values, index)
    {
      StartFits(b, index, size);
      ghost var current := buffer[..];
      outcome := CopyMaterialValue(buffer, base + StartOf(b, index), values[index], b.valueType);
      if !outcome.Packed? {
        return;
      }
      KeptByWrite(before, current, base, size, StartOf(b, index), Encoded(values[index], b.valueType).value);
      assert values[..index + 1][..index] == values[..index];
      index := index + 1;
    }
    assert values[..index] == values;
    return Packed;
  }

  /** Packs every binding, or reports the first that cannot be packed. */
  method PackGeneratedMaterialParameters(buffer: array<Byte>, base: nat, size: Word, bindings: seq<Binding>,
                                         entries: seq<Entry>)
    returns (outcome: Outcome)
    requires base + size <= buffer.Length
    modifies buffer
    ensures outcome.Packed? <==> AllSuit(bindings, entries, size)
    ensures outcome.Packed? ==> BlockReads(buffer[..], base, size, bindings, entries)
    ensures outcome.Packed? <==> AllPack(bindings, entries, size)
    ensures !outcome.Packed? ==>
              exists k :: 0 <= k < |bindings| && AllPack(bindings[..k], entries, size) &&
                          Hinders(bindings[k], entries, size, outcome)
    ensures outcome.Packed? ==>
              && bindings[..|bindings|] == bindings
              && buffer[..] == BindingsWritten(old(buffer[..]), base, size, bindings, entries, |bindings|)
    ensures OutsideKept(old(buffer[..]), buffer[..], base, size)
    ensures (forall k :: 0 <= k < |bindings| ==> GeneratedBindingFits(bindings[k], size)) ==>
              outcome != ExceedsBuffer && outcome != UnsupportedType
  {
    hide Encoded, StartOf, PackerEnd, Stride, PackedSize, OutsideKept, ValuesWritten, Zeros, AllSuit, BlockReads;
    ghost var before := buffer[..];
    AllPackExactly(bindings, entries, size);
    ClearBlock(buffer, base, size);
    ClearKeeps(before, base, size);
    var k := 0;
    assert bindings[..0] == [];
    while k < |bindings|
      invariant 0 <= k <= |bindings| && AllPack(bindings[..k], entries, size)
      invariant buffer[..] == BindingsWritten(before, base, size, bindings, entries, k)
      invariant OutsideKept(before, buffer[..], base, size)
    {
      var b := bindings[k];
      var state := Find(entries, b.name);
      if state.None? || state.value.valueType != b.valueType || |state.value.values| != b.arraySize {
        return StateMismatch;
      }
      if PackedSize(b.valueType).None? {
        return UnsupportedType;
      }
      PackerEndIsExact(b, size);
      if PackerEnd(b) > size {
        return ExceedsBuffer;
      }
      ghost var current := buffer[..];
      outcome := CopyValues(buffer, base, size, b, state.value.values);
      KeptTwice(before, current, buffer[..], base, size);
      if !outcome.Packed? {
        return;
      }
      assert bindings[..k + 1] == bindings[..k] + [b];
      k := k + 1;
    }
    assert bindings[..k] == bindings;
    PackedReads(before, base, size, bindings, entries);
    return Packed;
  }

  // ------------------------------------------------------------ Reading back

  /** Whether position p belongs to value i: they lie the declared stride apart, or side by side. */
  predicate InValue(b: Binding, i: nat, p: nat)
    requires PackedSize(b.valueType).Some?
  {
    var n := PackedSize(b.valueType).value;
    var s: nat := if b.arrayStride != 0 then b.arrayStride else n;
    b.offset + s * i <= p < b.offset + s * i + n
  }

  /** The same by where the packer puts the value. */
  predicate Spans(b: Binding, i: nat, p: nat)
    requires PackedSize(b.valueType).Some?
  {
    StartOf(b, i) <= p < StartOf(b, i) + PackedSize(b.valueType).value
  }

  lemma SpansExactly(b: Binding, p: nat)
    requires PackedSize(b.valueType).Some?
    ensures forall i: nat :: Spans(b, i, p) <==> InValue(b, i, p)
  {
    hide PackedSize;
    forall i: nat ensures Spans(b, i, p) <==> InValue(b, i, p) {
      assert StartOf(b, i) == b.offset + Stride(b) * i;
    }
  }

  /** Whether position p of the block belongs to some value of the binding. */
  ghost predicate InBinding(b: Binding, p: nat) {
    PackedSize(b.valueType).Some? && exists i: nat :: i < b.arraySize && InValue(b, i, p)
  }

  /** Values of one binding that fits do not overlap. */
  lemma ValuesApart(b: Binding, size: Word, i: nat, j: nat, p: nat)
    requires GeneratedBindingFits(b, size) && i < j < b.arraySize && Spans(b, i, p)
    ensures !Spans(b, j, p)
  {
    FitsExactly(b, size);
    StepsApart(b.offset, Stride(b), PackedSize(b.valueType).value, i, j, p);
    hide PackedSize, GeneratedBindingFits;
  }

  lemma StepsApart(offset: nat, s: nat, n: nat, i: nat, j: nat, p: nat)
    requires s >= n && i < j && p < offset + s * i + n
    ensures p < offset + s * j
  {
    ProductGrows(i + 1, j, s);
    ProductStep(i + 1, s);
    assert s * j == j * s && s * i == i * s;
  }

  lemma {:induction false} ValuesElsewhere(buf: seq<Byte>, base: nat, size: Word, b: Binding, values: seq<Value>,
                                           n: nat, p: nat)
    requires base + size <= |buf| && PackedSize(b.valueType).Some? && PackerEnd(b) <= size
    requires n <= |values| == b.arraySize && AllEncodable(values, b.valueType)
    requires p < size && forall i :: 0 <= i < n ==> !Spans(b, i, p)
    ensures ValuesWritten(buf, base, size, b, values, n)[base + p] == buf[base + p]
  {
    hide Encoded, StartOf, PackerEnd, Stride, PackedSize;
    if n > 0 {
      ValuesElsewhere(buf, base, size, b, values, n - 1, p);
      StartFits(b, n - 1, size);
      assert !Spans(b, n - 1, p);
    }
  }

  lemma {:induction false} ValuesReadBack(buf: seq<Byte>, base: nat, size: Word, b: Binding, values: seq<Value>,
                                          n: nat, i: nat, p: nat)
    requires base + size <= |buf| && PackedSize(b.valueType).Some? && PackerEnd(b) <= size
    requires n <= |values| == b.arraySize && AllEncodable(values, b.valueType)
    requires GeneratedBindingFits(b, size) && i < n && Spans(b, i, p) && p < size
    ensures ValuesWritten(buf, base, size, b, values, n)[base + p] ==
            Encoded(values[i], b.valueType).value[p - StartOf(b, i)]
  {
    hide Encoded, StartOf, PackerEnd, Stride, PackedSize, GeneratedBindingFits;
    StartFits(b, n - 1, size);
    if i < n - 1 {
      ValuesReadBack(buf, base, size, b, values, n - 1, i, p);
      ValuesApart(b, size, i, n - 1, p);
    }
  }

  /** No position belongs to two bindings. */
  ghost predicate PairwiseDisjoint(bindings: seq<Binding>, size: Word) {
    forall j, k, p: nat {:trigger InBinding(bindings[j], p), InBinding(bindings[k], p)} ::
      0 <= j < k < |bindings| && p < size ==> !(InBinding(bindings[j], p) && InBinding(bindings[k], p))
  }

  lemma {:induction false} BlockElsewhere(buf: seq<Byte>, base: nat, size: Word, bindings: seq<Binding>,
                                          entries: seq<Entry>, k: nat, p: nat)
    requires base + size <= |buf| && k <= |bindings| && AllPack(bindings, entries, size) && p < size
    requires forall j :: 0 <= j < k ==> !InBinding(bindings[j], p)
    ensures AllPack(bindings[..k], entries, size)
    ensures BindingsWritten(buf, base, size, bindings, entries, k)[base + p] == 0
  {
    hide StartOf, PackerEnd, Stride, PackedSize, AllEncodable, Spans, InValue;
    if k > 0 {
      BlockElsewhere(buf, base, size, bindings, entries, k - 1, p);
      var b := bindings[k - 1];
      assert BindingPacks(b, entries, size) && !InBinding(b, p);
      SpansExactly(b, p);
      assert forall i: nat :: i < b.arraySize ==> !InValue(b, i, p);
      ValuesElsewhere(BindingsWritten(buf, base, size, bindings, entries, k - 1), base, size, b,
                      Find(entries, b.name).value.values, b.arraySize, p);
    }
  }

  /** Byte p of value i of binding j survives all later bindings. */
  lemma {:induction false} BlockHolds(buf: seq<Byte>, base: nat, size: Word, bindings: seq<Binding>,
                                      entries: seq<Entry>, k: nat, j: nat, i: nat, p: nat)
    requires base + size <= |buf| && j < k <= |bindings| && AllPack(bindings, entries, size) && p < size
    requires forall x :: 0 <= x < |bindings| ==> GeneratedBindingFits(bindings[x], size)
    requires PackedSize(bindings[j].valueType).Some?
    requires PairwiseDisjoint(bindings, size) && i < bindings[j].arraySize && Spans(bindings[j], i, p)
    ensures AllPack(bindings[..k], entries, size) && BindingPacks(bindings[j], entries, size)
    ensures BindingsWritten(buf, base, size, bindings, entries, k)[base + p] ==
            var value := Find(entries, bindings[j].name).value.values[i];
            Encoded(value, bindings[j].valueType).value[p - StartOf(bindings[j], i)]
  {
    hide Encoded, StartOf, PackerEnd, Stride, PackedSize, GeneratedBindingFits, InValue, Spans, Find;
    var b := bindings[k - 1];
    SpansExactly(bindings[j], p);
    SpansExactly(b, p);
    assert BindingPacks(b, entries, size) && BindingPacks(bindings[j], entries, size);
    assert AllPack(bindings[..k - 1], entries, size) && AllPack(bindings[..k], entries, size);
    var before := BindingsWritten(buf, base, size, bindings, entries, k - 1);
    if j == k - 1 {
      ValuesReadBack(before, base, size, b, Find(entries, b.name).value.values, b.arraySize, i, p);
    } else {
      BlockHolds(buf, base, size, bindings, entries, k - 1, j, i, p);
      assert InBinding(bindings[j], p) && !InBinding(b, p);
      assert forall x: nat :: x < b.arraySize ==> !InValue(b, x, p);
      ValuesElsewhere(before, base, size, b, Find(entries, b.name).value.values, b.arraySize, p);
    }
  }

  /** Every packed value reads back from the block, and every byte no binding owns is zero. */
  lemma PackedReadsBack(buf: seq<Byte>, base: nat, size: Word, bindings: seq<Binding>, entries: seq<Entry>, j: nat,
                        i: nat)
    requires base + size <= |buf| && AllPack(bindings, entries, size) && j < |bindings| && i < bindings[j].arraySize
    requires forall x :: 0 <= x < |bindings| ==> GeneratedBindingFits(bindings[x], size)
    requires PairwiseDisjoint(bindings, size)
    ensures PackedSize(bindings[j].valueType).Some?
    ensures bindings[..|bindings|] == bindings && Find(entries, bindings[j].name).Some?
    ensures var b := bindings[j];
            var n := PackedSize(b.valueType).value;
            var s: nat := if b.arrayStride != 0 then b.arrayStride else n;
            var at := b.offset + s * i;
            var e := Find(entries, b.name).value;
            var after := BindingsWritten(buf, base, size, bindings, entries, |bindings|);
            && at + n <= size && i < |e.values|
            && HoldsAt(after, base + at, b.valueType, e.values[i])
            && Decoded(after[base + at..base + at + n], b.valueType) == e.values[i]
  {
    hide BindingsWritten, Encoded, Decoded, GeneratedBindingFits, PackerEnd, Stride, PairwiseDisjoint, Find, HoldsAt,
      PackedSize;
    assert bindings[..|bindings|] == bindings;
    var b := bindings[j];
    assert BindingPacks(b, entries, size);
    var value, n := Find(entries, b.name).value.values[i], PackedSize(b.valueType).value;
    StartFits(b, i, size);
    var after := BindingsWritten(buf, base, size, bindings, entries, |bindings|);
    var at := StartOf(b, i);
    StartsAt(b, i);
    var bytes := after[base + at..base + at + n];
    forall q | 0 <= q < n ensures bytes[q] == Encoded(value, b.valueType).value[q] {
      BlockHolds(buf, base, size, bindings, entries, |bindings|, j, i, at + q);
    }
    assert bytes == Encoded(value, b.valueType).value;
    EncodedHolds(after, base + at, b.valueType, value);
    ValueRoundTrip(value, b.valueType);
  }

  lemma StartsAt(b: Binding, i: nat)
    requires PackedSize(b.valueType).Some?
    ensures var s: nat := if b.arrayStride != 0 then b.arrayStride else PackedSize(b.valueType).value;
            StartOf(b, i) == b.offset + s * i
  {
  }

  // ------------------------------------------------------------ What a packed block holds

  /** Value i of binding j can be read at its place, for all of them. */
  ghost predicate ValuesInPlace(bytes: seq<Byte>, base: nat, bindings: seq<Binding>, entries: seq<Entry>) {
    forall j, i :: 0 <= j < |bindings| && 0 <= i < bindings[j].arraySize ==>
      ValueInPlace(bytes, base, bindings[j], entries, i)
  }

  /** The value is that of the first entry with the binding's name; values lie the declared stride
      apart, or side by side if none is declared. */
  ghost predicate ValueInPlace(bytes: seq<Byte>, base: nat, b: Binding, entries: seq<Entry>, i: nat) {
    && PackedSize(b.valueType).Some?
    && var s: nat := if b.arrayStride != 0 then b.arrayStride else PackedSize(b.valueType).value;
       exists k :: FirstNamed(entries, b.name, k) && i < |entries[k].values| &&
                   HoldsAt(bytes, base + b.offset + s * i, b.valueType, entries[k].values[i])
  }

  lemma PackedInPlace(buf: seq<Byte>, base: nat, size: Word, bindings: seq<Binding>, entries: seq<Entry>)
    requires base + size <= |buf| && AllPack(bindings, entries, size)
    requires forall x :: 0 <= x < |bindings| ==> GeneratedBindingFits(bindings[x], size)
    requires PairwiseDisjoint(bindings, size)
    ensures bindings[..|bindings|] == bindings
    ensures ValuesInPlace(BindingsWritten(buf, base, size, bindings, entries, |bindings|), base, bindings, entries)
  {
    hide BindingsWritten, GeneratedBindingFits, PackerEnd, Stride, PairwiseDisjoint, Find, HoldsAt, PackedSize,
      FirstNamed;
    assert bindings[..|bindings|] == bindings;
    var after := BindingsWritten(buf, base, size, bindings, entries, |bindings|);
    forall j, i: nat | 0 <= j < |bindings| && i < bindings[j].arraySize
      ensures ValueInPlace(after, base, bindings[j], entries, i)
    {
      PackedReadsBack(buf, base, size, bindings, entries, j, i);
      FindIsFirst(entries, bindings[j].name);
      var k :| FirstNamed(entries, bindings[j].name, k);
    }
  }

  /** Every byte that belongs to no value is zero. */
  ghost predicate ZeroElsewhere(bytes: seq<Byte>, base: nat, size: Word, bindings: seq<Binding>)
    requires base + size <= |bytes|
  {
    forall p: nat :: p < size && Unowned(bindings, p) ==> bytes[base + p] == 0
  }

  ghost predicate Unowned(bindings: seq<Binding>, p: nat) {
    forall j :: 0 <= j < |bindings| ==> !InBinding(bindings[j], p)
  }

  lemma PackedElsewhere(buf: seq<Byte>, base: nat, size: Word, bindings: seq<Binding>, entries: seq<Entry>)
    requires base + size <= |buf| && AllPack(bindings, entries, size)
    ensures bindings[..|bindings|] == bindings
    ensures ZeroElsewhere(BindingsWritten(buf, base, size, bindings, entries, |bindings|), base, size, bindings)
  {
    hide BindingsWritten, PackerEnd, InBinding, PackedSize, Find;
    assert bindings[..|bindings|] == bindings;
    forall p: nat | p < size && Unowned(bindings, p)
      ensures BindingsWritten(buf, base, size, bindings, entries, |bindings|)[base + p] == 0
    {
      BlockElsewhere(buf, base, size, bindings, entries, |bindings|, p);
    }
  }

  /** Where all bindings fit and do not overlap, every value is in its place; and all else is zero. */
  ghost predicate BlockReads(bytes: seq<Byte>, base: nat, size: Word, bindings: seq<Binding>, entries: seq<Entry>)
    requires base + size <= |bytes|
  {
    && ((forall k :: 0 <= k < |bindings| ==> GeneratedBindingFits(bindings[k], size)) &&
        PairwiseDisjoint(bindings, size) ==>
          ValuesInPlace(bytes, base, bindings, entries))
    && ZeroElsewhere(bytes, base, size, bindings)
  }

  lemma PackedReads(buf: seq<Byte>, base: nat, size: Word, bindings: seq<Binding>, entries: seq<Entry>)
    requires base + size <= |buf| && AllPack(bindings, entries, size)
    ensures bindings[..|bindings|] == bindings
    ensures BlockReads(BindingsWritten(buf, base, size, bindings, entries, |bindings|), base, size, bindings, entries)
  {
    hide BindingsWritten, GeneratedBindingFits, PairwiseDisjoint, ValuesInPlace, ZeroElsewhere, BindingPacks;
    PackedElsewhere(buf, base, size, bindings, entries);
    if (forall x :: 0 <= x < |bindings| ==> GeneratedBindingFits(bindings[x], size)) &&
       PairwiseDisjoint(bindings, size) {
      PackedInPlace(buf, base, size, bindings, entries);
    }
  }
}
