/** Transport framing: the writer's encoding of a packet, and a parser for complete packets.
    The word layout is 20 bits signal number, 8 bits size, 2 bits type, 2 bits unused. */
module Framing {
  import opened Words

  const TYPE_SIGNALDATA: nat := 1
  const TYPE_METAINFORMATION: nat := 2

  datatype Packet = Packet(number: nat, kind: nat, payload: seq<Byte>)

  /** What the writer can be asked to send: the type is one of the two enumerators, the number
      an unsigned int. */
  predicate Writable(p: Packet) {
    (p.kind == TYPE_SIGNALDATA || p.kind == TYPE_METAINFORMATION) && p.number < 0x1_0000_0000
  }

  /** What survives the wire. */
  predicate Sendable(p: Packet) {
    Writable(p) && p.number < 0x10_0000 && 1 <= |p.payload| < 0x1_0000_0000
  }

  /** Header word without the size field. */
  function BaseWord(kind: nat, number: nat): nat {
    BitOr(number, Shl(kind, 28))
  }

  function ShortWord(kind: nat, number: nat, size: nat): nat {
    BitOr(BaseWord(kind, number), Shl(size, 20))
  }

  function Encode(p: Packet): seq<Byte> {
    if |p.payload| <= 0xff then
      ToLE(ShortWord(p.kind, p.number, |p.payload|), 4) + p.payload
    else
      ToLE(BaseWord(p.kind, p.number), 4) + ToLE(|p.payload| % 0x1_0000_0000, 4) + p.payload
  }

  function EncodeAll(ps: seq<Packet>): seq<Byte> {
    if ps == [] then [] else Encode(ps[0]) + EncodeAll(ps[1..])
  }

  function NumberField(word: nat): nat { word % 0x10_0000 }
  function SizeField(word: nat): nat { word / 0x10_0000 % 0x100 }
  function TypeField(word: nat): nat { word / 0x1000_0000 % 4 }

  /** A packet together with the number of header bytes that announced it. */
  datatype Frame = Frame(packet: Packet, headerSize: nat) {
    function Length(): nat { headerSize + |packet.payload| }
  }

  /** A header read from the wire: the fields of the packet to come. */
  datatype Header = Header(number: nat, kind: nat, headerSize: nat, length: nat)

  function Word32(b: seq<Byte>): (w: nat)
    requires |b| >= 4
    ensures w < 0x1_0000_0000
  {
    FromLEBound(b[..4]);
    Pow256Values();
    FromLE(b[..4])
  }

  /** The header at the front of b; the length word follows only when the size field is zero. */
  function ParseHeader(b: seq<Byte>): (r: Option<Header>)
    ensures r.Some? ==> 4 <= r.value.headerSize <= |b|
    ensures r.Some? ==> r.value.number < 0x10_0000 && r.value.length < 0x1_0000_0000
  {
    if |b| < 4 then None else
      var word := Word32(b);
      var size := SizeField(word);
      if size != 0 then
        Some(Header(NumberField(word), TypeField(word), 4, size))
      else if |b| < 8 then
        None
      else
        Some(Header(NumberField(word), TypeField(word), 8, Word32(b[4..])))
  }

  /** The complete frame at the front of b, if there is one. */
  function ParseOne(b: seq<Byte>): (r: Option<Frame>)
    ensures r.Some? ==> 4 <= r.value.Length() <= |b|
    ensures r.Some? ==> b[r.value.headerSize..r.value.Length()] == r.value.packet.payload
    ensures r.Some? ==> r.value.packet.number < 0x10_0000 && |r.value.packet.payload| < 0x1_0000_0000
  {
    match ParseHeader(b)
    case None => None
    case Some(h) =>
      var end := h.headerSize + h.length;
      if |b| < end then None else
        Some(Frame(Packet(h.number, h.kind, b[h.headerSize..end]), h.headerSize))
  }

  /** All complete frames of b in order, and the bytes after them. */
  function ParseAll(b: seq<Byte>): (r: (seq<Frame>, seq<Byte>))
    decreases |b|
  {
    match ParseOne(b)
    case None => ([], b)
    case Some(f) =>
      var tail := ParseAll(b[f.Length()..]);
      ([f] + tail.0, tail.1)
  }

  function TotalLength(fs: seq<Frame>): nat {
    if fs == [] then 0 else fs[0].Length() + TotalLength(fs[1..])
  }

  function Packets(fs: seq<Frame>): (ps: seq<Packet>)
    ensures |ps| == |fs| && forall i :: 0 <= i < |fs| ==> ps[i] == fs[i].packet
  {
    seq(|fs|, i requires 0 <= i < |fs| => fs[i].packet)
  }

  /** The frames and the rest account for every byte. */
  lemma {:induction false} ParseConserves(b: seq<Byte>)
    ensures var (frames, rest) := ParseAll(b);
            TotalLength(frames) + |rest| == |b| && rest == b[TotalLength(frames)..]
    decreases |b|
  {
    var r := ParseOne(b);
    if r.Some? {
      var f := r.value;
      ParseConserves(b[f.Length()..]);
      var tail := ParseAll(b[f.Length()..]);
      TotalLengthStep(f, tail.0);
    }
  }

  lemma TotalLengthStep(f: Frame, fs: seq<Frame>)
    ensures TotalLength([f] + fs) == f.Length() + TotalLength(fs)
  {
    assert ([f] + fs)[1..] == fs;
  }

  lemma ShlValues(u: nat)
    ensures Shl(u, 20) == u * 0x10_0000 && Shl(u, 28) == u * 0x1000_0000 && Shl(u, 8) == u * 0x100
  {
    assert Shl(u, 4) == u * 0x10;
    assert Shl(u, 8) == u * 0x100;
    assert Shl(u, 12) == u * 0x1000;
    assert Shl(u, 16) == u * 0x1_0000;
    assert Shl(u, 20) == u * 0x10_0000;
    assert Shl(u, 24) == u * 0x100_0000;
  }

  /** Inside their ranges the three fields of a header word do not disturb each other. */
  lemma WordValue(kind: nat, number: nat, size: nat)
    requires kind < 4 && number < 0x10_0000 && size < 0x100
    ensures BaseWord(kind, number) == number + kind * 0x1000_0000
    ensures ShortWord(kind, number, size) == number + size * 0x10_0000 + kind * 0x1000_0000
  {
    hide Shl;
    ShlValues(0);
    ShlValues(1);
    ShlValues(kind);
    ShlValues(size);
    var above := kind * 0x100;
    ShlValues(above);
    BitOrAbove(number, 0, kind, 28);
    BitOrAbove(size, 0, kind, 8);
    BitOrCommutes(above, size);
    BitOrAbove(number, above, size, 20);
    ShlValues(BitOr(above, size));
  }

  lemma WordFields(kind: nat, number: nat, size: nat)
    requires kind < 4 && number < 0x10_0000 && size < 0x100
    ensures var w := number + size * 0x10_0000 + kind * 0x1000_0000;
            w < 0x1_0000_0000 && NumberField(w) == number && SizeField(w) == size && TypeField(w) == kind
  {
  }

  lemma Word32RoundTrip(word: nat, rest: seq<Byte>)
    requires word < 0x1_0000_0000
    ensures Word32(ToLE(word, 4) + rest) == word && (ToLE(word, 4) + rest)[4..] == rest
  {
    Pow256Values();
    LERoundTrip(word, 4);
    assert (ToLE(word, 4) + rest)[..4] == ToLE(word, 4);
  }

  /** The header written for a sendable packet is read back field by field. */
  lemma HeaderRoundTrip(p: Packet, rest: seq<Byte>)
    requires Sendable(p)
    ensures ParseHeader(Encode(p) + rest)
         == Some(Header(p.number, p.kind, |Encode(p)| - |p.payload|, |p.payload|))
  {
    hide ToLE, ShortWord, Word32, NumberField, SizeField, TypeField;
    var n := |p.payload|;
    if n <= 0xff {
      WordValue(p.kind, p.number, n);
      WordFields(p.kind, p.number, n);
      var word := ShortWord(p.kind, p.number, n);
      assert Encode(p) + rest == ToLE(word, 4) + (p.payload + rest);
      Word32RoundTrip(word, p.payload + rest);
    } else {
      LongHeaderRoundTrip(p, rest);
    }
  }

  lemma LongHeaderRoundTrip(p: Packet, rest: seq<Byte>)
    requires Sendable(p) && |p.payload| > 0xff
    ensures ParseHeader(Encode(p) + rest) == Some(Header(p.number, p.kind, 8, |p.payload|))
  {
    hide ToLE, BaseWord, Word32, NumberField, SizeField, TypeField;
    var n := |p.payload|;
    WordValue(p.kind, p.number, 0);
    WordFields(p.kind, p.number, 0);
    var word := BaseWord(p.kind, p.number);
    var afterWord := ToLE(n, 4) + (p.payload + rest);
    assert Encode(p) + rest == ToLE(word, 4) + afterWord;
    Word32RoundTrip(word, afterWord);
    Word32RoundTrip(n, p.payload + rest);
  }

  /** A sendable packet is read back exactly, with nothing of what follows. */
  lemma RoundTrip(p: Packet, rest: seq<Byte>)
    requires Sendable(p)
    ensures ParseOne(Encode(p) + rest) == Some(Frame(p, |Encode(p)| - |p.payload|))
  {
    HeaderRoundTrip(p, rest);
    var h := |Encode(p)| - |p.payload|;
    assert (Encode(p) + rest)[h..h + |p.payload|] == p.payload;
  }

  /** The round trip holds for exactly the sendable packets: an empty payload, a number of more
      than 20 bits or a length of more than 32 bits is not read back as it was written. */
  lemma RoundTripIff(p: Packet, rest: seq<Byte>)
    requires Writable(p)
    ensures ParseOne(Encode(p) + rest) == Some(Frame(p, |Encode(p)| - |p.payload|)) <==> Sendable(p)
  {
    if Sendable(p) {
      RoundTrip(p, rest);
    } else if p.number < 0x10_0000 && |p.payload| == 0 {
      ShortZeroHeader(p, rest);
    }
  }

  /** An empty packet is written with a zero size field, which the reader takes as the
      announcement of a length word: the header it sees is eight bytes long. */
  lemma ShortZeroHeader(p: Packet, rest: seq<Byte>)
    requires Writable(p) && p.number < 0x10_0000 && |p.payload| == 0
    ensures Encode(p) + rest == ToLE(p.number + p.kind * 0x1000_0000, 4) + rest
    ensures ParseHeader(Encode(p) + rest)
         == if |rest| < 4 then None else Some(Header(p.number, p.kind, 8, Word32(rest)))
  {
    WordValue(p.kind, p.number, 0);
    WordFields(p.kind, p.number, 0);
    assert Encode(p) + rest == ToLE(ShortWord(p.kind, p.number, 0), 4) + rest;
    Word32RoundTrip(ShortWord(p.kind, p.number, 0), rest);
  }

  /** An empty packet followed by a one-byte packet: the reader takes the second packet's header
      for the missing length word, waits for more payload and delivers neither. */
  lemma EmptyPacketDesynchronises()
    ensures var empty := Packet(1, TYPE_SIGNALDATA, []);
            var next := Packet(1, TYPE_SIGNALDATA, [7]);
            ParseOne(Encode(empty) + Encode(next)) == None
  {
    var empty := Packet(1, TYPE_SIGNALDATA, []);
    var next := Packet(1, TYPE_SIGNALDATA, [7]);
    ShortZeroHeader(empty, Encode(next));
    WordValue(1, 1, 1);
    Word32RoundTrip(ShortWord(1, 1, 1), [7]);
    assert |Encode(next)| == 5;
  }

  /** Whole streams: decoding the concatenated encodings gives back the packets and no rest. */
  lemma {:induction false} StreamRoundTrip(ps: seq<Packet>)
    requires forall p :: p in ps ==> Sendable(p)
    ensures Packets(ParseAll(EncodeAll(ps)).0) == ps && ParseAll(EncodeAll(ps)).1 == []
  {
    hide Encode, ParseOne;
    if ps != [] {
      var tail := EncodeAll(ps[1..]);
      RoundTrip(ps[0], tail);
      StreamRoundTrip(ps[1..]);
      var f := Frame(ps[0], |Encode(ps[0])| - |ps[0].payload|);
      ParseAllStep(Encode(ps[0]) + tail, f);
      assert (Encode(ps[0]) + tail)[f.Length()..] == tail;
      assert Packets([f] + ParseAll(tail).0) == [ps[0]] + Packets(ParseAll(tail).0);
    }
  }

  lemma ParseAllStep(b: seq<Byte>, f: Frame)
    requires ParseOne(b) == Some(f)
    ensures ParseAll(b) == ([f] + ParseAll(b[f.Length()..]).0, ParseAll(b[f.Length()..]).1)
  {
  }

  /** The reader takes the three fields apart and ignores the two bits above them. */
  lemma FieldsOfWord(number: nat, size: nat, kind: nat, above: nat)
    requires number < 0x10_0000 && size < 0x100 && kind < 4 && above < 4
    ensures var word := number + size * 0x10_0000 + kind * 0x1000_0000 + above * 0x4000_0000;
            NumberField(word) == number && SizeField(word) == size && TypeField(word) == kind
  {
    var word := number + size * 0x10_0000 + kind * 0x1000_0000 + above * 0x4000_0000;
    assert word / 0x10_0000 == size + 0x100 * (kind + 4 * above);
    assert word / 0x1000_0000 == kind + 4 * above;
  }

  // ------------------------------------------------------------------ the bytes on the wire

  /** The digits of a 32-bit word. */
  lemma WordBytes(a: Byte, b: Byte, c: Byte, d: Byte)
    ensures ToLE(a + 0x100 * b + 0x1_0000 * c + 0x100_0000 * d, 4) == [a, b, c, d]
  {
    hide ToLE;
    var x := a + 0x100 * b + 0x1_0000 * c + 0x100_0000 * d;
    ToLE4(x);
    assert x / 256 == b + 0x100 * c + 0x1_0000 * d;
    assert x / 0x1_0000 == c + 0x100 * d;
    assert x / 0x100_0000 == d;
  }

  /** A header word byte by byte. */
  lemma HeaderBytes(number: nat, size: nat, k: nat)
    requires number < 0x10_0000 && size <= 255 && k < 4
    ensures ToLE(number + size * 0x10_0000 + k * 0x1000_0000, 4)
         == [number % 256, number / 256 % 256, number / 0x1_0000 + size % 16 * 16, size / 16 + 16 * k]
  {
    hide ToLE;
    var l, m, h := number % 256, number / 256 % 256, number / 0x1_0000;
    var a, b := size / 16, size % 16;
    assert number == l + 0x100 * m + 0x1_0000 * h by {
      assert number / 256 / 256 == h;
    }
    assert size == 16 * a + b;
    WordBytes(l, m, h + 16 * b, a + 16 * k);
  }

  /** A short packet byte by byte. The type is 1 for signal data and 2 for meta information. */
  lemma ShortPacketBytes(number: nat, payload: seq<Byte>, k: nat)
    requires number < 0x10_0000 && |payload| <= 255
    requires k in {1, 2}
    ensures Encode(Packet(number, if k == 1 then TYPE_SIGNALDATA else TYPE_METAINFORMATION, payload))
         == [number % 256, number / 256 % 256, number / 0x1_0000 + |payload| % 16 * 16, |payload| / 16 + 16 * k]
            + payload
  {
    hide ToLE, ShortWord, BaseWord;
    WordValue(k, number, |payload|);
    HeaderBytes(number, |payload|, k);
  }

  /** A long packet: the size field is zero, and the length follows, least significant byte first. */
  lemma LongPacketBytes(number: nat, payload: seq<Byte>, k: nat)
    requires number < 0x10_0000 && 256 <= |payload| < 0x1_0000_0000
    requires k in {1, 2}
    ensures var n := |payload|;
            Encode(Packet(number, if k == 1 then TYPE_SIGNALDATA else TYPE_METAINFORMATION, payload))
            == [number % 256, number / 256 % 256, number / 0x1_0000, 16 * k]
               + [n % 256, n / 256 % 256, n / 0x1_0000 % 256, n / 0x100_0000] + payload
  {
    hide ToLE, ShortWord, BaseWord;
    WordValue(k, number, 0);
    HeaderBytes(number, 0, k);
    ToLE4(|payload|);
  }

  /** One byte of signal 1. */
  lemma OneByteOnTheWire()
    ensures Encode(Packet(1, TYPE_SIGNALDATA, [7])) == [0x01, 0x00, 0x10, 0x10, 0x07]
  {
    hide Encode;
    ShortPacketBytes(1, [7], 1);
  }
}
