/** Values as bytes: the indexed buffer of a constant signal, and the conversion loop that reads
    values back. Integers only; the final conversion to double is left out, and a floating-point
    value is its bit pattern. */
module ConstantRule {
  import opened Words
  import opened Signals
  import Layout
  import Producer

  /** Width in bytes and signedness of the type that the conversion reads. */
  datatype Encoding = Encoding(width: nat, signed: bool)

  /** Unsigned 64-bit values and 64-bit bit fields are read as signed. Other types are not
      converted. */
  function ReadAs(t: SampleType): Option<Encoding> {
    match t
    case BitField32 => Some(Encoding(4, false))
    case BitField64 => Some(Encoding(8, true))
    case SampleOf(b) =>
      (match b
       case U8 => Some(Encoding(1, false))
       case U16 => Some(Encoding(2, false))
       case U32 | Real32 => Some(Encoding(4, false))
       case Real64 => Some(Encoding(8, false))
       case U64 => Some(Encoding(8, true))
       case S8 => Some(Encoding(1, true))
       case S16 => Some(Encoding(2, true))
       case S32 => Some(Encoding(4, true))
       case S64 => Some(Encoding(8, true))
       case Complex32 | Complex64 => None)
    case SampleUnknown | SampleArray | SampleStruct => None
  }

  /** The types that are converted: everything but complex numbers, arrays, structs and signals that
      were not described. */
  lemma ConvertedIff(t: SampleType)
    ensures ReadAs(t).None? <==> t.SampleUnknown? || t.SampleArray? || t.SampleStruct?
                                 || t == SampleOf(Layout.Complex32) || t == SampleOf(Layout.Complex64)
  {
  }

  /** The stride with which a scalar or bit field is read divides the value size computed from its
      description, whatever its dimensions, and is that size when there are none. It is read as a
      signed number exactly for the signed types and the 64-bit ones. */
  lemma StrideDividesValueSize(s: SignalState, n: Layout.Node)
    requires n.kind.Base? || n.kind.BitField?
    requires NewSampleType(s, n).Some? && ReadAs(NewSampleType(s, n).value).Some?
    ensures var e := ReadAs(NewSampleType(s, n).value).value;
            var b := if n.kind.Base? then n.kind.base else n.kind.bits.kind.base;
            && e.width == Layout.Width(b)
            && Layout.ValueSize(n) % e.width == 0 && (Layout.ValueSize(n) != 0 ==> Layout.ValueSize(n) >= e.width)
            && (n.dimensions == Layout.NoDimensions
                && (n.kind.BitField? ==> n.kind.bits.dimensions == Layout.NoDimensions)
                ==> Layout.ValueSize(n) == e.width)
            && (e.signed <==> b in {Layout.S8, Layout.S16, Layout.S32, Layout.S64, Layout.U64})
  {
    hide Layout.ValueSize;
    var b := if n.kind.Base? then n.kind.base else n.kind.bits.kind.base;
    Layout.ScalarSizeMultiple(n, b);
    if n.dimensions == Layout.NoDimensions
       && (n.kind.BitField? ==> n.kind.bits.dimensions == Layout.NoDimensions) {
      ScalarStride(n, b);
    }
  }

  lemma ScalarStride(n: Layout.Node, b: Layout.BaseType)
    requires n.dimensions == Layout.NoDimensions
    requires n.kind == Layout.Base(b) ||
             n.kind == Layout.BitField(Layout.Node(Layout.NoDimensions, Layout.Base(b)))
    ensures Layout.ValueSize(n) == Layout.Width(b)
  {
    hide Layout.Leaves, Layout.Sum;
    Layout.BaseSize(b);
    Layout.BitFieldSize(Layout.Node(Layout.NoDimensions, Layout.Base(b)));
  }

  predicate Fits(v: int, width: nat) {
    0 <= v + Pow256(width) && v < Pow256(width)
  }

  /** A value in memory: two's complement, least significant byte first. */
  function ToBytes(v: int, width: nat): (b: seq<Byte>)
    requires Fits(v, width)
    ensures |b| == width
  {
    ToLE(if v >= 0 then v else v + Pow256(width), width)
  }

  function FromBytes(b: seq<Byte>, signed: bool): int {
    var u := FromLE(b);
    if signed && 2 * u >= Pow256(|b|) then u - Pow256(|b|) else u
  }

  predicate InRange(v: int, e: Encoding) {
    if e.signed then 0 <= 2 * v + Pow256(e.width) && 2 * v < Pow256(e.width) else 0 <= v < Pow256(e.width)
  }

  /** A value in memory is the value modulo 256^width, least significant byte first. */
  lemma TwosComplement(v: int, width: nat, i: nat)
    requires Fits(v, width) && i < width
    ensures FromLE(ToBytes(v, width)) == v % Pow256(width)
    ensures ToBytes(v, width)[i] == v % Pow256(width) / Pow256(i) % 256
  {
    var p := Pow256(width);
    var u := if v >= 0 then v else v + p;
    assert u == v % p by {
      if v < 0 {
        DivUnique(v, p, -1);
      } else {
        DivUnique(v, p, 0);
      }
    }
    LERoundTrip(u, width);
    ToLEByte(u, width, i);
  }

  /** A value is read back exactly when it is in the range of the type it is read as. */
  lemma ValueRoundTripIff(v: int, e: Encoding)
    requires Fits(v, e.width) && (e.signed ==> e.width >= 1)
    ensures FromBytes(ToBytes(v, e.width), e.signed) == v <==> InRange(v, e)
  {
    LERoundTrip(if v >= 0 then v else v + Pow256(e.width), e.width);
    FromLEBound(ToBytes(v, e.width));
  }

  // ------------------------------------------------------------------ the producer's buffer

  predicate Storable(values: seq<int>, width: nat) {
    forall i :: 0 <= i < |values| ==> Fits(values[i], width)
  }

  /** One entry: the value index, then the value. */
  function Entry(index: Word64, v: int, width: nat): seq<Byte>
    requires Fits(v, width)
  {
    ToLE(index, 8) + ToBytes(v, width)
  }

  function Entries(values: seq<int>, indices: seq<Word64>, width: nat): (r: seq<seq<Byte>>)
    requires |values| == |indices| && Storable(values, width)
    ensures |r| == |values| && forall i :: 0 <= i < |r| ==> r[i] == Entry(indices[i], values[i], width)
  {
    seq(|values|, i requires 0 <= i < |values| => Entry(indices[i], values[i], width))
  }

  lemma {:induction false} EntriesWhole(r: seq<seq<Byte>>, k: nat)
    requires forall i :: 0 <= i < |r| ==> |r[i]| == k
    ensures Producer.AllOfLength(r, k)
  {
    if r != [] {
      EntriesWhole(r[..|r| - 1], k);
    }
  }

  /** Copies bytes into a buffer. */
  method Copy(buffer: array<Byte>, offset: nat, bytes: seq<Byte>)
    requires offset + |bytes| <= buffer.Length
    modifies buffer
    ensures buffer[..offset] == old(buffer[..offset])
    ensures buffer[offset..offset + |bytes|] == bytes
  {
    for i := 0 to |bytes|
      invariant buffer[..offset] == old(buffer[..offset])
      invariant buffer[offset..offset + i] == bytes[..i]
    {
      buffer[offset + i] := bytes[i];
      assert buffer[offset..offset + i + 1] == buffer[offset..offset + i] + [bytes[i]];
    }
  }

  /** Appends one entry behind the bytes already filled. */
  method CopyEntry(buffer: array<Byte>, offset: nat, index: Word64, v: int, width: nat)
    requires Fits(v, width) && offset + 8 + width <= buffer.Length
    modifies buffer
    ensures buffer[..offset + 8 + width] == old(buffer[..offset]) + Entry(index, v, width)
  {
    Copy(buffer, offset, ToLE(index, 8));
    ghost var half := buffer[..offset + 8];
    assert half == old(buffer[..offset]) + ToLE(index, 8);
    Copy(buffer, offset + 8, ToBytes(v, width));
    assert buffer[..offset + 8 + width] == half + ToBytes(v, width);
  }

  lemma FlattenNothing(entries: seq<seq<Byte>>)
    ensures Producer.Flatten(entries[..0]) == []
  {
  }

  lemma FlattenTake(entries: seq<seq<Byte>>, i: nat)
    requires i < |entries|
    ensures Producer.Flatten(entries[..i + 1]) == Producer.Flatten(entries[..i]) + entries[i]
  {
    assert entries[..i + 1][..i] == entries[..i];
  }

  /** The buffer that a constant signal writes: index and value of each entry, packed. */
  method FillBuffer(values: seq<int>, indices: seq<Word64>, width: nat) returns (buffer: array<Byte>)
    requires |values| == |indices| && Storable(values, width)
    ensures fresh(buffer) && buffer[..] == Producer.Flatten(Entries(values, indices, width))
  {
    hide Producer.Flatten, Entry;
    var entrySize := 8 + width;
    ghost var entries := Entries(values, indices, width);
    buffer := new Byte[|values| * entrySize](_ => 0);
    var offset := 0;
    assert Producer.Flatten(entries[..0]) == [] by { FlattenNothing(entries); }
    for i := 0 to |values|
      invariant offset == i * entrySize <= buffer.Length
      invariant buffer[..offset] == Producer.Flatten(entries[..i])
    {
      NextOffset(i, |values|, entrySize);
      CopyEntry(buffer, offset, indices[i], values[i], width);
      FlattenTake(entries, i);
      offset := offset + entrySize;
    }
    assert entries[..|values|] == entries;
  }

  lemma NextOffset(i: nat, n: nat, k: nat)
    requires i < n
    ensures (i + 1) * k == i * k + k <= n * k
  {
    MulMonotone(i + 1, n, k);
  }

  // ------------------------------------------------------------------ the consumer's conversion

  /** Values only, or each value after its index. */
  function Skip(explicit: bool): nat {
    if explicit then 0 else 8
  }

  /** Value number i of a packet. */
  function ValueAt(explicit: bool, e: Encoding, data: seq<Byte>, i: nat): int {
    FromBytes(Clip(data, i * (Skip(explicit) + e.width) + Skip(explicit), e.width), e.signed)
  }

  /** The conversion loop over `count` values. The caller provides room for them. What lies behind
      the end of the packet is not part of it and contributes no bytes. */
  method Convert(explicit: bool, e: Encoding, data: seq<Byte>, count: nat, out: array<int>)
    requires count <= out.Length
    modifies out
    ensures forall i :: 0 <= i < count ==> out[i] == ValueAt(explicit, e, data, i)
  {
    hide ValueAt, FromBytes, Clip;
    var stride := Skip(explicit) + e.width;
    var position := 0;
    for i := 0 to count
      invariant position == i * stride
      invariant forall j :: 0 <= j < i ==> out[j] == ValueAt(explicit, e, data, j)
    {
      ValueAtPosition(explicit, e, data, i, position);
      position := position + Skip(explicit);
      out[i] := FromBytes(Clip(data, position, e.width), e.signed);
      position := position + e.width;
      assert (i + 1) * stride == i * stride + stride;
    }
  }

  lemma ValueAtPosition(explicit: bool, e: Encoding, data: seq<Byte>, i: nat, at: nat)
    requires at == i * (Skip(explicit) + e.width)
    ensures ValueAt(explicit, e, data, i) == FromBytes(Clip(data, at + Skip(explicit), e.width), e.signed)
  {
  }

  /** What is read at entry i of the buffer. */
  lemma ReadEntry(values: seq<int>, indices: seq<Word64>, width: nat, i: nat)
    requires |values| == |indices| && Storable(values, width) && i < |values|
    ensures var b := Producer.Flatten(Entries(values, indices, width));
            && |b| == |values| * (8 + width)
            && Clip(b, i * (8 + width), 8) == ToLE(indices[i], 8)
            && Clip(b, i * (8 + width) + 8, width) == ToBytes(values[i], width)
  {
    hide Producer.Flatten, Entries, ToLE, ToBytes, Clip;
    var entries := Entries(values, indices, width);
    var k := 8 + width;
    EntriesWhole(entries, k);
    Producer.FlattenLength(entries, k);
    Producer.FlattenAt(entries, k, i);
    SliceEntry(Producer.Flatten(entries), i * k, ToLE(indices[i], 8), ToBytes(values[i], width));
  }

  /** The two parts of an entry. */
  lemma SliceEntry(b: seq<Byte>, at: nat, index: seq<Byte>, value: seq<Byte>)
    requires at + |index| + |value| <= |b| && b[at..at + |index| + |value|] == index + value
    ensures Clip(b, at, |index|) == index && Clip(b, at + |index|, |value|) == value
  {
    var both := b[at..at + |index| + |value|];
    assert b[at..at + |index|] == both[..|index|] == index;
    assert b[at + |index|..at + |index| + |value|] == both[|index|..] == value;
  }

  /** Round trip through the buffer of a constant signal: the conversion reads entry i as value i
      if and only if the value is in the range of the type it is read as. */
  lemma ConstantRoundTripIff(values: seq<int>, indices: seq<Word64>, e: Encoding, i: nat)
    requires |values| == |indices| && Storable(values, e.width) && e.width >= 1 && i < |values|
    ensures var b := Producer.Flatten(Entries(values, indices, e.width));
            ValueAt(false, e, b, i) == values[i] <==> InRange(values[i], e)
  {
    hide FromBytes, ToBytes, InRange, Producer.Flatten, Entries, Clip;
    ReadEntry(values, indices, e.width, i);
    ValueRoundTripIff(values[i], e);
  }

  /** The values of a packet by the signal's sample type; nothing is converted for the other types. */
  method InterpretValues(t: SampleType, explicit: bool, data: seq<Byte>, count: nat, out: array<int>)
    returns (converted: nat)
    requires count <= out.Length
    modifies out
    ensures converted == if ReadAs(t).Some? then count else 0
    ensures forall i :: 0 <= i < converted ==> out[i] == ValueAt(explicit, ReadAs(t).value, data, i)
  {
    match ReadAs(t) {
      case None =>
        converted := 0;
      case Some(e) =>
        Convert(explicit, e, data, count, out);
        converted := count;
    }
  }

  /** The consumer counts the entries of the buffer by dividing by the size of an indexed value. */
  lemma EntriesCounted(values: seq<int>, indices: seq<Word64>, s: SignalState)
    requires |values| == |indices| && Storable(values, s.valueSize) && 1 <= s.valueSize <= 16
    ensures Quotient(|Producer.Flatten(Entries(values, indices, s.valueSize))|, IndexedSize(s)) == |values|
  {
    hide Entries, Producer.Flatten, Quotient;
    var k := 8 + s.valueSize;
    assert IndexedSize(s) == k;
    WholeCount(Entries(values, indices, s.valueSize), k);
  }

  lemma WholeCount(entries: seq<seq<Byte>>, k: nat)
    requires k > 0 && forall i :: 0 <= i < |entries| ==> |entries[i]| == k
    ensures Quotient(|Producer.Flatten(entries)|, k) == |entries|
  {
    hide Producer.Flatten, Quotient;
    EntriesWhole(entries, k);
    Producer.FlattenLength(entries, k);
    QuotientOfProduct(|entries|, k);
  }

  /** For unsigned 64-bit values the range is that of a signed 64-bit number. */
  lemma Unsigned64Range(v: Word64)
    ensures InRange(v, ReadAs(SampleOf(Layout.U64)).value) <==> v < 0x8000_0000_0000_0000
  {
    Pow256Values();
  }
}
