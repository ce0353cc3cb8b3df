/** The consumer's session: what a complete packet does to the container. */
module Session {
  import opened Words
  import opened Messages
  import opened Framing
  import opened Reader
  import Container
  import Tables

  const METAINFORMATION_MSGPACK: nat := 2

  /** The msgpack encoding of meta information is library code; it is a parameter here. */
  datatype Codec = Codec(encode: Message -> seq<Byte>, decode: seq<Byte> -> Option<Message>)

  /** The encoding gives message m back. */
  predicate Carries(codec: Codec, m: Message) {
    codec.decode(codec.encode(m)) == Some(m)
  }

  /** `content` is the meta information interpreted last; it is kept when a meta packet of an
      unknown encoding arrives. */
  datatype Consumer = Consumer(container: Container.State, content: Message, events: seq<Event>)

  const NEW_CONSUMER := Consumer(Container.EMPTY, OtherMethod, [])

  /** Stream related meta information is refused only for a missing, malformed or too old version. */
  predicate StreamAccepts(m: Message) {
    m.ApiVersion? ==> m.tokens.Some? && |m.tokens.value| == 3 && !(m.tokens.value[0] < 1 && m.tokens.value[1] < 6)
  }

  /** Lexicographic order of versions. */
  predicate AtLeast(v: seq<nat>, bound: seq<nat>) {
    bound == [] || (v != [] && (v[0] > bound[0] || (v[0] == bound[0] && AtLeast(v[1..], bound[1..]))))
  }

  /** A version is accepted if and only if it has three numbers and is at least 0.6.0. Every other
      message about the stream is accepted. */
  lemma VersionIff(m: Message)
    ensures StreamAccepts(m) <==>
              (m.ApiVersion? ==> m.tokens.Some? && |m.tokens.value| == 3 && AtLeast(m.tokens.value, [0, 6, 0]))
  {
    if m.ApiVersion? && m.tokens.Some? && |m.tokens.value| == 3 {
      var v := m.tokens.value;
      var a, b, c := v[0], v[1], v[2];
      assert v == [a, b, c];
      assert [a, b, c][1..] == [b, c] && [b, c][1..] == [c] && [c][1..] == [];
      assert [0, 6, 0][1..] == [6, 0] && [6, 0][1..] == [0] && [0][1..] == [];
      assert AtLeast([c], [0]) && AtLeast([b, c], [6, 0]) == (b >= 6);
    }
  }

  function MetaType(payload: seq<Byte>): nat {
    FromLE(Clip(payload, 0, 4))
  }

  function MetaBody(payload: seq<Byte>): seq<Byte> {
    if |payload| <= 4 then [] else payload[4..]
  }

  function MetaPayload(codec: Codec, m: Message): seq<Byte> {
    ToLE(METAINFORMATION_MSGPACK, 4) + codec.encode(m)
  }

  /** The content after a meta packet; None when it cannot be decoded. */
  function Interpret(codec: Codec, content: Message, payload: seq<Byte>): Option<Message> {
    if MetaType(payload) == METAINFORMATION_MSGPACK then codec.decode(MetaBody(payload)) else Some(content)
  }

  function DeliverData(s: Consumer, n: nat, payload: seq<Byte>): Delivery<Consumer> {
    var r := Container.ProcessData(s.container, n, payload);
    Delivery(s.(container := r.state, events := s.events + r.events), true)
  }

  function DeliverMeta(codec: Codec, s: Consumer, n: nat, payload: seq<Byte>): Delivery<Consumer> {
    match Interpret(codec, s.content, payload)
    case None => Delivery(s, false)
    case Some(m) =>
      var s1 := s.(content := m);
      if n == 0 then
        if !StreamAccepts(m) || MetaType(payload) != METAINFORMATION_MSGPACK then Delivery(s1, false) else
          Delivery(s1.(events := s.events + [StreamEvent(m)]), true)
      else
        var r := Container.ProcessMeta(s.container, n, m);
        Delivery(s1.(container := r.state, events := s.events + r.events), r.accepted)
  }

  function DeliverPacket(codec: Codec, s: Consumer, p: Packet): Delivery<Consumer> {
    if p.kind == TYPE_SIGNALDATA then DeliverData(s, p.number, p.payload)
    else DeliverMeta(codec, s, p.number, p.payload)
  }

  /** The sink of the step machine for a given encoding. */
  function Sink(codec: Codec): (Consumer, Packet) -> Delivery<Consumer> {
    (s: Consumer, p: Packet) => DeliverPacket(codec, s, p)
  }

  lemma MetaRoundTrip(codec: Codec, m: Message, content: Message)
    requires Carries(codec, m)
    ensures Interpret(codec, content, MetaPayload(codec, m)) == Some(m)
    ensures MetaType(MetaPayload(codec, m)) == METAINFORMATION_MSGPACK
  {
    var b := MetaPayload(codec, m);
    Pow256Values();
    LERoundTrip(METAINFORMATION_MSGPACK, 4);
    assert b[0..4] == ToLE(METAINFORMATION_MSGPACK, 4);
    assert MetaBody(b) == codec.encode(m);
  }

  /** Meta information on the wire starts with the number of the msgpack encoding. */
  lemma MetaPayloadBytes(codec: Codec, m: Message)
    ensures MetaPayload(codec, m) == [2, 0, 0, 0] + codec.encode(m)
  {
    ToLE4(2);
  }

  /** Meta information in msgpack closes the session if and only if it cannot be decoded, is about
      the stream and not acceptable, or is about a signal and rejected by the container. */
  lemma MsgpackAcceptedIff(codec: Codec, s: Consumer, n: nat, body: seq<Byte>)
    ensures DeliverMeta(codec, s, n, [2, 0, 0, 0] + body).accepted <==>
              && codec.decode(body).Some?
              && (n == 0 ==> StreamAccepts(codec.decode(body).value))
              && (n != 0 ==> Container.ProcessMeta(s.container, n, codec.decode(body).value).accepted)
    ensures DeliverMeta(codec, s, n, [2, 0, 0, 0] + body).state.content == codec.decode(body).GetOr(s.content)
  {
    MarkerRead([2, 0, 0, 0] + body, 2);
    assert MetaBody([2, 0, 0, 0] + body) == body;
  }

  lemma MarkerRead(payload: seq<Byte>, k: Byte)
    requires |payload| >= 4 && payload[..4] == [k, 0, 0, 0]
    ensures MetaType(payload) == k
  {
    var b: seq<Byte> := [k, 0, 0, 0];
    assert b[1..] == [0, 0, 0] && b[1..][1..] == [0, 0] && b[1..][1..][1..] == [0] && b[1..][1..][1..][1..] == [];
    assert FromLE(b[1..][1..][1..]) == 0;
    assert FromLE(b[1..]) == 0;
    assert Clip(payload, 0, 4) == b;
  }

  /** Meta information in another encoding is not looked at: for the stream it closes the session,
      for a signal the message interpreted last is processed again. */
  lemma OtherEncoding(codec: Codec, s: Consumer, n: nat, payload: seq<Byte>, k: Byte)
    requires |payload| >= 4 && payload[..4] == [k, 0, 0, 0] && k != 2
    ensures var d := DeliverMeta(codec, s, n, payload);
            && d.state.content == s.content
            && (n == 0 ==> !d.accepted && d.state == s)
            && (n != 0 ==> d.accepted == Container.ProcessMeta(s.container, n, s.content).accepted)
  {
    MarkerRead(payload, k);
  }

  // ------------------------------------------------------------------ the consumer without the transport

  /** What a message or data does to the container and which callbacks it makes. Meta information
      with number 0 is about the stream and does not reach the container. */
  function Receive(c: Container.State, i: Tables.Input): Container.Result {
    if i.Meta? && i.number == 0 then
      Container.Result(c, if StreamAccepts(i.message) then [StreamEvent(i.message)] else [], StreamAccepts(i.message))
    else Tables.Process(c, i)
  }

  /** A refused meta message ends the session; refused data does not. */
  predicate Stops(c: Container.State, i: Tables.Input) {
    i.Meta? && !Receive(c, i).accepted
  }

  /** All inputs in order, up to and including the first that ends the session. */
  function ReceiveAll(c: Container.State, run: seq<Tables.Input>): Container.Result
    decreases |run|
  {
    if run == [] then Container.Result(c, [], true) else
      var r := Receive(c, run[0]);
      if Stops(c, run[0]) then Container.Result(r.state, r.events, false) else
        var rest := ReceiveAll(r.state, run[1..]);
        Container.Result(rest.state, r.events + rest.events, rest.accepted)
  }

  lemma {:induction false} ReceiveConcat(c: Container.State, a: seq<Tables.Input>, b: seq<Tables.Input>)
    requires ReceiveAll(c, a).accepted
    ensures var r := ReceiveAll(c, a);
            var q := ReceiveAll(r.state, b);
            ReceiveAll(c, a + b) == Container.Result(q.state, r.events + q.events, q.accepted)
    decreases |a|
  {
    hide Receive;
    if a == [] {
      assert a + b == b;
    } else {
      assert (a + b)[1..] == a[1..] + b;
      ReceiveConcat(Receive(c, a[0]).state, a[1..], b);
    }
  }

  /** After a refusal nothing more is received. */
  lemma {:induction false} ReceiveRefused(c: Container.State, a: seq<Tables.Input>, b: seq<Tables.Input>)
    requires !ReceiveAll(c, a).accepted
    ensures ReceiveAll(c, a + b) == ReceiveAll(c, a)
    decreases |a|
  {
    hide Receive;
    if a != [] {
      assert (a + b)[1..] == a[1..] + b;
      if !Stops(c, a[0]) {
        ReceiveRefused(Receive(c, a[0]).state, a[1..], b);
      }
    }
  }

  /** Inputs about signals go to the container. */
  lemma {:induction false} ReceiveIsProcess(c: Container.State, run: seq<Tables.Input>)
    requires forall i :: i in run ==> i.number != 0
    ensures ReceiveAll(c, run) == Tables.ProcessAll(c, run)
    decreases |run|
  {
    hide Tables.Process;
    if run != [] {
      ReceiveIsProcess(Tables.Process(c, run[0]).state, run[1..]);
    }
  }

  /** Inputs about the stream do not. */
  function StreamInputs(ms: seq<Message>): (r: seq<Tables.Input>)
    ensures |r| == |ms| && forall i :: 0 <= i < |r| ==> r[i] == Tables.Meta(0, ms[i])
  {
    seq(|ms|, i requires 0 <= i < |ms| => Tables.Meta(0, ms[i]))
  }

  function StreamEvents(ms: seq<Message>): (r: seq<Event>)
    ensures |r| == |ms| && forall i :: 0 <= i < |r| ==> r[i] == StreamEvent(ms[i])
  {
    seq(|ms|, i requires 0 <= i < |ms| => StreamEvent(ms[i]))
  }

  lemma {:induction false} ReceiveStream(c: Container.State, ms: seq<Message>)
    requires forall m :: m in ms ==> StreamAccepts(m)
    ensures ReceiveAll(c, StreamInputs(ms)) == Container.Result(c, StreamEvents(ms), true)
    decreases |ms|
  {
    if ms != [] {
      ReceiveStream(c, ms[1..]);
      assert StreamInputs(ms)[1..] == StreamInputs(ms[1..]);
      assert StreamEvents(ms) == [StreamEvent(ms[0])] + StreamEvents(ms[1..]);
    }
  }

  // ------------------------------------------------------------------ packets

  function PacketOf(codec: Codec, i: Tables.Input): Packet {
    match i
    case Meta(n, m) => Packet(n, TYPE_METAINFORMATION, MetaPayload(codec, m))
    case Data(n, bytes) => Packet(n, TYPE_SIGNALDATA, bytes)
  }

  function PacketsOf(codec: Codec, inputs: seq<Tables.Input>): (ps: seq<Packet>)
    ensures |ps| == |inputs| && forall i :: 0 <= i < |ps| ==> ps[i] == PacketOf(codec, inputs[i])
  {
    seq(|inputs|, i requires 0 <= i < |inputs| => PacketOf(codec, inputs[i]))
  }

  /** A packet made from an input does to the session what the input does to the consumer. */
  lemma DeliverInput(codec: Codec, s: Consumer, i: Tables.Input)
    requires i.Meta? ==> Carries(codec, i.message)
    ensures var d := Offer(Sink(codec), s, PacketOf(codec, i));
            var r := Receive(s.container, i);
            && d.state.container == r.state
            && d.state.events == s.events + r.events
            && (d.accepted <==> !Stops(s.container, i))
  {
    if i.Meta? {
      MetaRoundTrip(codec, i.message, s.content);
    }
  }

  /** The encoding gives every message of a run back. */
  predicate CarriesAll(codec: Codec, inputs: seq<Tables.Input>) {
    forall i :: i in inputs && i.Meta? ==> Carries(codec, i.message)
  }

  lemma {:induction false} DispatchInputs(codec: Codec, s: Consumer, inputs: seq<Tables.Input>)
    requires CarriesAll(codec, inputs)
    ensures var d := Dispatch(Sink(codec), s, PacketsOf(codec, inputs));
            var r := ReceiveAll(s.container, inputs);
            && d.state.container == r.state
            && d.state.events == s.events + r.events
            && d.accepted == r.accepted
    decreases |inputs|
  {
    hide Receive, Sink, PacketOf, Offer, Carries;
    if inputs != [] {
      DeliverInput(codec, s, inputs[0]);
      var d := Offer(Sink(codec), s, PacketOf(codec, inputs[0]));
      assert PacketsOf(codec, inputs)[1..] == PacketsOf(codec, inputs[1..]);
      if d.accepted {
        DispatchInputs(codec, d.state, inputs[1..]);
      }
    }
  }

  // ------------------------------------------------------------------ an encoding for every run

  function IndexOf(ms: seq<Message>, m: Message): nat {
    if ms == [] || ms[0] == m then 0 else 1 + IndexOf(ms[1..], m)
  }

  lemma {:induction false} IndexOfFound(ms: seq<Message>, m: Message)
    requires m in ms
    ensures IndexOf(ms, m) < |ms| && ms[IndexOf(ms, m)] == m
  {
    if ms[0] != m {
      IndexOfFound(ms[1..], m);
    }
  }

  /** Messages by their number in a list, written with the given number of bytes. */
  function ListCodec(ms: seq<Message>, width: nat): Codec {
    Codec((m: Message) => ToLE(IndexOf(ms, m), width),
          (b: seq<Byte>) => if FromLE(b) < |ms| then Some(ms[FromLE(b)]) else None)
  }

  function MessagesOf(inputs: seq<Tables.Input>): (ms: seq<Message>)
    ensures |ms| == |inputs|
    ensures forall i :: 0 <= i < |ms| && inputs[i].Meta? ==> ms[i] == inputs[i].message
  {
    seq(|inputs|, i requires 0 <= i < |inputs| => if inputs[i].Meta? then inputs[i].message else OtherMethod)
  }

  /** Whatever messages a run writes, there is an encoding that gives all of them back, with as few
      bytes as it takes to tell them apart. */
  lemma CodecForEveryRun(inputs: seq<Tables.Input>, width: nat)
    requires |inputs| <= Pow256(width)
    ensures var codec := ListCodec(MessagesOf(inputs), width);
            CarriesAll(codec, inputs) && forall m :: |codec.encode(m)| == width
  {
    var ms := MessagesOf(inputs);
    forall i | i in inputs && i.Meta? ensures Carries(ListCodec(ms, width), i.message) {
      var k :| 0 <= k < |inputs| && inputs[k] == i;
      assert ms[k] == i.message;
      IndexOfFound(ms, i.message);
      LERoundTrip(IndexOf(ms, i.message), width);
    }
  }
}
