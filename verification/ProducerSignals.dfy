/** The producing objects: the stream writer, and the synchronous and linear time signals. */
module ProducerSignals {
  import opened Words
  import opened Values
  import opened Messages
  import opened Framing
  import opened Session
  import opened EndToEnd
  import Producer
  import Layout
  import Tables
  import Ticks
  import ConstantRule

  class StreamWriter {
    const codec: Codec
    var sent: seq<Byte>

    constructor (codec: Codec)
      ensures this.codec == codec && sent == []
    {
      this.codec, sent := codec, [];
    }

    /** Fills the header words and returns the number of header bytes: four, or eight when the size
        does not fit into eight bits. */
    method CreateTransportHeader(kind: nat, number: nat, words: array<nat>, size: nat) returns (headerSize: nat)
      requires words.Length == 2
      modifies words
      ensures headerSize in {4, 8}
      ensures forall payload: seq<Byte> | |payload| == size ::
                Encode(Packet(number, kind, payload))
                == ToLE(words[0], 4) + (if headerSize == 8 then ToLE(words[1], 4) else []) + payload
    {
      var header := BitOr(number, Shl(kind, 28));
      if size <= 0xff {
        words[0] := BitOr(header, Shl(size, 20));
        headerSize := 4;
        assert forall payload: seq<Byte> :: ToLE(words[0], 4) + [] + payload == ToLE(words[0], 4) + payload;
      } else {
        words[0] := header;
        words[1] := size % 0x1_0000_0000;
        headerSize := 8;
      }
    }

    method Write(kind: nat, number: nat, payload: seq<Byte>)
      modifies this`sent
      ensures sent == old(sent) + Encode(Packet(number, kind, payload))
    {
      var words := new nat[2];
      var headerSize := CreateTransportHeader(kind, number, words, |payload|);
      var header := ToLE(words[0], 4) + (if headerSize == 8 then ToLE(words[1], 4) else []);
      sent := sent + header + payload;
    }

    method WriteSignalData(number: nat, data: seq<Byte>)
      modifies this`sent
      ensures sent == old(sent) + Encode(PacketOf(codec, Tables.Data(number, data)))
    {
      Write(TYPE_SIGNALDATA, number, data);
    }

    /** The encoding marker and the encoded message. */
    method WriteMetaInformation(number: nat, m: Message)
      modifies this`sent
      ensures sent == old(sent) + Encode(PacketOf(codec, Tables.Meta(number, m)))
    {
      Write(TYPE_METAINFORMATION, number, ToLE(METAINFORMATION_MSGPACK, 4) + codec.encode(m));
    }
  }

  lemma WireOne(codec: Codec, i: Tables.Input)
    ensures Wire(codec, [i]) == Encode(PacketOf(codec, i))
  {
    var p := PacketOf(codec, i);
    assert PacketsOf(codec, [i]) == [p] && [p][1..] == [];
    assert EncodeAll([p]) == Encode(p) + [];
  }

  lemma WireTwo(codec: Codec, i: Tables.Input, j: Tables.Input)
    ensures Wire(codec, [i, j]) == Encode(PacketOf(codec, i)) + Encode(PacketOf(codec, j))
  {
    var p, q := PacketOf(codec, i), PacketOf(codec, j);
    assert PacketsOf(codec, [i, j]) == [p, q];
    assert [p, q][1..] == [q] && [q][1..] == [];
    assert EncodeAll([q]) == Encode(q) + [];
  }

  /** What every signal does on subscribing: acknowledge, then describe itself. */
  method Subscribe(writer: StreamWriter, n: nat, e: Producer.Signal)
    modifies writer`sent
    ensures writer.sent == old(writer.sent) + Wire(writer.codec, Producer.OutgoingOf(e, Producer.SubscribeSignal(n)))
  {
    hide Wire, Encode, PacketOf, Producer.DescriptionOf;
    WireTwo(writer.codec, Tables.Meta(n, Message.Subscribe(Some(Text(e.id)))),
            Tables.Meta(n, Producer.DescriptionOf(e)));
    writer.WriteMetaInformation(n, Message.Subscribe(Some(Text(e.id))));
    writer.WriteMetaInformation(n, Producer.DescriptionOf(e));
  }

  method Unsubscribe(writer: StreamWriter, n: nat, e: Producer.Signal)
    modifies writer`sent
    ensures writer.sent == old(writer.sent) + Wire(writer.codec, Producer.OutgoingOf(e, Producer.UnsubscribeSignal(n)))
  {
    hide Wire, Encode, PacketOf;
    WireOne(writer.codec, Tables.Meta(n, Message.Unsubscribe));
    writer.WriteMetaInformation(n, Message.Unsubscribe);
  }

  method WriteSignalMetaInformation(writer: StreamWriter, n: nat, e: Producer.Signal)
    modifies writer`sent
    ensures writer.sent == old(writer.sent) + Wire(writer.codec, Producer.OutgoingOf(e, Producer.WriteDescription(n)))
  {
    hide Wire, Encode, PacketOf, Producer.DescriptionOf;
    WireOne(writer.codec, Tables.Meta(n, Producer.DescriptionOf(e)));
    writer.WriteMetaInformation(n, Producer.DescriptionOf(e));
  }

  class SynchronousSignal {
    const writer: StreamWriter
    const number: nat
    const id: string
    const table: string
    const base: Layout.BaseType
    var own: Attributes
    var valueIndex: Word64

    function View(): Producer.Signal
      reads this
    {
      Producer.Sync(id, table, base, own, valueIndex, 0, NO_ATTRIBUTES)
    }

    constructor (writer: StreamWriter, number: nat, id: string, table: string, base: Layout.BaseType,
                 valueIndex: Word64)
      ensures View() == Producer.Sync(id, table, base, NO_ATTRIBUTES, valueIndex, 0, NO_ATTRIBUTES)
      ensures this.writer == writer && this.number == number
    {
      this.writer, this.number, this.id, this.table, this.base := writer, number, id, table, base;
      own := NO_ATTRIBUTES;
      this.valueIndex := valueIndex;
    }

    method SetUnit(unit: Unit)
      modifies this`own
      ensures own == old(own).(unit := unit)
    {
      own := own.(unit := unit);
    }

    method SetRange(range: Range)
      modifies this`own
      ensures own == old(own).(range := range)
    {
      own := own.(range := range);
    }

    method SetPostScaling(scaling: PostScaling)
      modifies this`own
      ensures own == old(own).(scaling := scaling)
    {
      own := own.(scaling := scaling);
    }

    /** The value index counts the samples, whether or not anybody is subscribed. */
    method AddData(samples: seq<seq<Byte>>)
      modifies this`valueIndex, writer`sent
      ensures View() == Producer.Sync(id, table, base, own, Wrap(old(valueIndex) + |samples|), 0, NO_ATTRIBUTES)
      ensures writer.sent == old(writer.sent)
                             + Wire(writer.codec, Producer.OutgoingOf(old(View()), Producer.AddData(number, samples)))
    {
      hide Wire, Encode, PacketOf;
      WireOne(writer.codec, Tables.Data(number, Producer.Flatten(samples)));
      valueIndex := Wrap(valueIndex + |samples|);
      writer.WriteSignalData(number, Producer.Flatten(samples));
    }
  }

  class LinearTimeSignal {
    const writer: StreamWriter
    const number: nat
    const id: string
    const table: string
    const ticksPerSecond: Word64
    var outputRateInTicks: Word64
    var startInTicks: Word64

    function View(): Producer.Signal
      reads this
    {
      Producer.Clock(id, table, ticksPerSecond, outputRateInTicks, startInTicks, 0, 0)
    }

    constructor (writer: StreamWriter, number: nat, id: string, table: string, ticksPerSecond: Word64, outputRate: nat)
      ensures View() == Producer.Clock(id, table, ticksPerSecond, Ticks.OutputRateInTicks(ticksPerSecond, outputRate),
                                       0, 0, 0)
      ensures this.writer == writer && this.number == number
    {
      this.writer, this.number, this.id, this.table := writer, number, id, table;
      this.ticksPerSecond := ticksPerSecond;
      outputRateInTicks := Wrap(ticksPerSecond * outputRate) / 1_000_000_000;
      startInTicks := 0;
    }

    method SetOutputRate(ns: nat)
      modifies this`outputRateInTicks
      ensures View() == Producer.Clock(id, table, ticksPerSecond, Ticks.OutputRateInTicks(ticksPerSecond, ns),
                                       old(startInTicks), 0, 0)
    {
      outputRateInTicks := Wrap(ticksPerSecond * ns) / 1_000_000_000;
    }

    /** The start time is sent as an indexed value with index 0. */
    method SetTimeStart(ticks: Word64)
      modifies this`startInTicks, writer`sent
      ensures View() == Producer.Clock(id, table, ticksPerSecond, old(outputRateInTicks), ticks, 0, 0)
      ensures writer.sent == old(writer.sent)
                             + Wire(writer.codec, Producer.OutgoingOf(View(), Producer.SetTimeStart(number, ticks)))
    {
      hide Wire, Encode, PacketOf;
      WireOne(writer.codec, Tables.Data(number, Producer.TimeStart(ticks)));
      startInTicks := ticks;
      writer.WriteSignalData(number, ToLE(0, 8) + ToLE(ticks, 8));
    }
  }

  class ConstantSignal {
    const writer: StreamWriter
    const number: nat
    const id: string
    const table: string
    const base: Layout.BaseType
    const start: Option<NumberNode>

    function View(): Producer.Signal {
      Producer.Const(id, table, base, NO_ATTRIBUTES, start, NO_ATTRIBUTES)
    }

    constructor (writer: StreamWriter, number: nat, id: string, table: string, base: Layout.BaseType,
                 start: Option<NumberNode>)
      ensures this.writer == writer && this.number == number && this.base == base
      ensures View() == Producer.Const(id, table, base, NO_ATTRIBUTES, start, NO_ATTRIBUTES)
    {
      this.writer, this.number, this.id, this.table, this.base, this.start := writer, number, id, table, base, start;
    }

    /** Values are written with their indices in one buffer. */
    method AddData(values: seq<int>, indices: seq<Word64>)
      requires |values| == |indices| && ConstantRule.Storable(values, Layout.Width(base))
      modifies writer`sent
      ensures var entries := ConstantRule.Entries(values, indices, Layout.Width(base));
              && Producer.AllOfLength(entries, 8 + Layout.Width(base))
              && writer.sent == old(writer.sent)
                                + Wire(writer.codec,
                                       Producer.OutgoingOf(View(), Producer.AddConstants(number, entries)))
    {
      hide Wire, Encode, PacketOf;
      ghost var entries := ConstantRule.Entries(values, indices, Layout.Width(base));
      ConstantRule.EntriesWhole(entries, 8 + Layout.Width(base));
      WireOne(writer.codec, Tables.Data(number, Producer.Flatten(entries)));
      var buffer := ConstantRule.FillBuffer(values, indices, Layout.Width(base));
      writer.WriteSignalData(number, buffer[..]);
    }
  }
}
