/** The reading side as a step machine over a byte buffer. It is generic in the sink that packets
    are dispatched to, so what is proved here holds whatever the sink does with a packet. */
module Reader {
  import opened Words
  import opened Framing

  datatype Phase = AwaitHeader | AwaitLength | AwaitPayload | Closed

  /** The sink's answer to a packet: its new state, and whether the session goes on. */
  datatype Delivery<+S> = Delivery(state: S, accepted: bool)

  datatype State<+S> = State(phase: Phase, number: nat, kind: nat, length: nat, buffer: seq<Byte>, sink: S)

  /** Number of bytes the pending read waits for. */
  function Needed<S>(r: State<S>): nat {
    if r.phase == AwaitPayload then r.length else 4
  }

  predicate Enabled<S>(r: State<S>) {
    r.phase != Closed && Needed(r) <= |r.buffer|
  }

  function Feed<S>(r: State<S>, bytes: seq<Byte>): State<S> {
    r.(buffer := r.buffer + bytes)
  }

  function Fresh<S>(s: S, bytes: seq<Byte>): State<S> {
    State(AwaitHeader, 0, 0, 0, bytes, s)
  }

  /** Packets of an unknown type are never offered to the sink. */
  function Offer<S>(deliver: (S, Packet) -> Delivery<S>, s: S, p: Packet): Delivery<S> {
    if p.kind == TYPE_SIGNALDATA || p.kind == TYPE_METAINFORMATION then deliver(s, p) else Delivery(s, false)
  }

  /** One completed read: the callback for a header, for a length word or for a payload. */
  function Step<S>(deliver: (S, Packet) -> Delivery<S>, r: State<S>): State<S>
    requires Enabled(r)
  {
    match r.phase
    case AwaitHeader =>
      var word := Word32(r.buffer);
      r.(number := NumberField(word), kind := TypeField(word), length := SizeField(word),
         buffer := r.buffer[4..],
         phase := if SizeField(word) == 0 then AwaitLength else AwaitPayload)
    case AwaitLength =>
      r.(length := Word32(r.buffer), buffer := r.buffer[4..], phase := AwaitPayload)
    case AwaitPayload =>
      var d := Offer(deliver, r.sink, Packet(r.number, r.kind, r.buffer[..r.length]));
      if d.accepted then
        r.(phase := AwaitHeader, buffer := r.buffer[r.length..], sink := d.state)
      else
        r.(phase := Closed, sink := d.state)
  }

  /** All reads that the buffered bytes allow. */
  function Pump<S>(deliver: (S, Packet) -> Delivery<S>, r: State<S>): State<S>
    decreases r.phase != Closed, |r.buffer|, r.phase == AwaitPayload
  {
    if Enabled(r) then Pump(deliver, Step(deliver, r)) else r
  }

  /** A read consumes bytes, or ends a packet, or closes the session. */
  lemma StepProgress<S>(deliver: (S, Packet) -> Delivery<S>, r: State<S>)
    requires Enabled(r)
    ensures var next := Step(deliver, r);
            || (next.phase == Closed && r.phase != Closed)
            || |next.buffer| < |r.buffer|
            || (|next.buffer| == |r.buffer| && r.phase == AwaitPayload && next.phase == AwaitHeader)
    ensures Pump(deliver, Step(deliver, r)) == Pump(deliver, r)
  {
  }

  /** Bytes that arrive in chunks, each processed before the next one comes. */
  function PumpChunks<S>(deliver: (S, Packet) -> Delivery<S>, r: State<S>, chunks: seq<seq<Byte>>): State<S>
    decreases |chunks|
  {
    if chunks == [] then r else PumpChunks(deliver, Pump(deliver, Feed(r, chunks[0])), chunks[1..])
  }

  function Concat(chunks: seq<seq<Byte>>): seq<Byte> {
    if chunks == [] then [] else chunks[0] + Concat(chunks[1..])
  }

  /** Reference: the packets in order, up to and including the first one that is refused. */
  function Dispatch<S>(deliver: (S, Packet) -> Delivery<S>, s: S, ps: seq<Packet>): Delivery<S>
    decreases |ps|
  {
    if ps == [] then Delivery(s, true) else
      var d := Offer(deliver, s, ps[0]);
      if d.accepted then Dispatch(deliver, d.state, ps[1..]) else d
  }

  // ---------------------------------------------------------------- chunking

  lemma StepFeed<S>(deliver: (S, Packet) -> Delivery<S>, r: State<S>, more: seq<Byte>)
    requires Enabled(r)
    ensures Enabled(Feed(r, more))
    ensures Step(deliver, Feed(r, more)) == Feed(Step(deliver, r), more)
  {
    var n := Needed(r);
    assert (r.buffer + more)[..n] == r.buffer[..n];
    assert (r.buffer + more)[n..] == r.buffer[n..] + more;
  }

  /** Bytes may be processed as far as possible before more bytes are appended. */
  lemma {:induction false} PumpFeed<S>(deliver: (S, Packet) -> Delivery<S>, r: State<S>, more: seq<Byte>)
    ensures Pump(deliver, Feed(Pump(deliver, r), more)) == Pump(deliver, Feed(r, more))
    decreases r.phase != Closed, |r.buffer|, r.phase == AwaitPayload
  {
    if Enabled(r) {
      StepFeed(deliver, r, more);
      PumpFeed(deliver, Step(deliver, r), more);
    }
  }

  lemma {:induction false} PumpBlocked<S>(deliver: (S, Packet) -> Delivery<S>, r: State<S>)
    ensures !Enabled(Pump(deliver, r))
    decreases r.phase != Closed, |r.buffer|, r.phase == AwaitPayload
  {
    if Enabled(r) {
      PumpBlocked(deliver, Step(deliver, r));
    }
  }

  /** However the bytes are cut into chunks, the session ends in the same state. */
  lemma {:induction false} ChunksIrrelevant<S>(deliver: (S, Packet) -> Delivery<S>, r: State<S>, chunks: seq<seq<Byte>>)
    requires !Enabled(r)
    ensures PumpChunks(deliver, r, chunks) == Pump(deliver, Feed(r, Concat(chunks)))
    decreases |chunks|
  {
    if chunks == [] {
      assert r.buffer + [] == r.buffer;
    } else {
      var first := Feed(r, chunks[0]);
      PumpBlocked(deliver, first);
      ChunksIrrelevant(deliver, Pump(deliver, first), chunks[1..]);
      PumpFeed(deliver, first, Concat(chunks[1..]));
      assert r.buffer + chunks[0] + Concat(chunks[1..]) == r.buffer + (chunks[0] + Concat(chunks[1..]));
    }
  }

  // ------------------------------------------------------- refinement of the parser

  /** The reads from one header boundary to the point where the payload is awaited. */
  function AtPayload<S>(s: S, b: seq<Byte>, h: Header): State<S>
    requires h.headerSize <= |b|
  {
    State(AwaitPayload, h.number, h.kind, h.length, b[h.headerSize..], s)
  }

  lemma PumpToPayload<S>(deliver: (S, Packet) -> Delivery<S>, r: State<S>, h: Header)
    requires r.phase == AwaitHeader && ParseHeader(r.buffer) == Some(h)
    ensures Pump(deliver, r) == Pump(deliver, AtPayload(r.sink, r.buffer, h))
  {
    var r1 := Step(deliver, r);
    if h.headerSize == 8 {
      var r2 := Step(deliver, r1);
      assert r.buffer[4..][4..] == r.buffer[8..];
      assert r2 == AtPayload(r.sink, r.buffer, h);
    } else {
      assert r1 == AtPayload(r.sink, r.buffer, h);
    }
  }

  /** A complete frame is offered to the sink; if it is accepted reading goes on right behind it. */
  lemma PumpFrame<S>(deliver: (S, Packet) -> Delivery<S>, r: State<S>, f: Frame)
    requires r.phase == AwaitHeader && ParseOne(r.buffer) == Some(f)
    ensures var d := Offer(deliver, r.sink, f.packet);
            if d.accepted then
              exists next: State<S> :: next.phase == AwaitHeader && next.sink == d.state
                && next.buffer == r.buffer[f.Length()..] && Pump(deliver, r) == Pump(deliver, next)
            else
              Pump(deliver, r).phase == Closed && Pump(deliver, r).sink == d.state
  {
    var h := ParseHeader(r.buffer).value;
    PumpToPayload(deliver, r, h);
    var p := AtPayload(r.sink, r.buffer, h);
    assert p.buffer[..h.length] == r.buffer[h.headerSize..f.Length()];
    assert p.buffer[h.length..] == r.buffer[f.Length()..];
    var next := Step(deliver, p);
    assert Pump(deliver, p) == Pump(deliver, next);
  }

  /** Without a complete frame nothing is dispatched and the session stays open. */
  lemma PumpPartial<S>(deliver: (S, Packet) -> Delivery<S>, r: State<S>)
    requires r.phase == AwaitHeader && ParseOne(r.buffer) == None
    ensures var end := Pump(deliver, r);
            end.phase != Closed && end.sink == r.sink && (end.phase == AwaitHeader ==> end.buffer == r.buffer)
  {
    var header := ParseHeader(r.buffer);
    if header.Some? {
      PumpToPayload(deliver, r, header.value);
    } else if Enabled(r) {
      var r1 := Step(deliver, r);
      assert Pump(deliver, r) == Pump(deliver, r1) == r1;
    }
  }

  /** The step machine does what the parser says, on every byte string: it dispatches exactly the
      complete frames, in order, up to the first refusal, and closes if and only if there is a
      refusal. At a header boundary the bytes consumed are those of the dispatched frames. */
  lemma {:induction false} PumpParses<S>(deliver: (S, Packet) -> Delivery<S>, r: State<S>)
    requires r.phase == AwaitHeader
    ensures var (frames, rest) := ParseAll(r.buffer);
            var d := Dispatch(deliver, r.sink, Packets(frames));
            var end := Pump(deliver, r);
            && end.sink == d.state
            && (end.phase != Closed <==> d.accepted)
            && (end.phase == AwaitHeader ==>
                 end.buffer == rest && |r.buffer| - |end.buffer| == TotalLength(frames))
    decreases |r.buffer|
  {
    ParseConserves(r.buffer);
    var one := ParseOne(r.buffer);
    if one.None? {
      PumpPartial(deliver, r);
    } else {
      var f := one.value;
      PumpFrame(deliver, r, f);
      var tail := r.buffer[f.Length()..];
      var frames := ParseAll(tail).0;
      assert Packets([f] + frames)[1..] == Packets(frames);
      var d := Offer(deliver, r.sink, f.packet);
      if d.accepted {
        var next: State<S> :| next.phase == AwaitHeader && next.sink == d.state
                && next.buffer == tail && Pump(deliver, r) == Pump(deliver, next);
        PumpParses(deliver, next);
      }
    }
  }

  /** Once a packet was refused nothing that arrives later is dispatched. */
  lemma {:induction false} FailStop<S>(deliver: (S, Packet) -> Delivery<S>, s: S,
                                       chunks: seq<seq<Byte>>, later: seq<seq<Byte>>)
    requires PumpChunks(deliver, Fresh(s, []), chunks).phase == Closed
    ensures PumpChunks(deliver, Fresh(s, []), chunks + later).phase == Closed
    ensures PumpChunks(deliver, Fresh(s, []), chunks + later).sink == PumpChunks(deliver, Fresh(s, []), chunks).sink
  {
    PumpChunksConcat(deliver, Fresh(s, []), chunks, later);
    ClosedStays(deliver, PumpChunks(deliver, Fresh(s, []), chunks), later);
  }

  lemma {:induction false} PumpChunksConcat<S>(deliver: (S, Packet) -> Delivery<S>, r: State<S>,
                                               a: seq<seq<Byte>>, b: seq<seq<Byte>>)
    ensures PumpChunks(deliver, r, a + b) == PumpChunks(deliver, PumpChunks(deliver, r, a), b)
    decreases |a|
  {
    if a == [] {
      assert a + b == b;
    } else {
      assert (a + b)[1..] == a[1..] + b;
      PumpChunksConcat(deliver, Pump(deliver, Feed(r, a[0])), a[1..], b);
    }
  }

  lemma {:induction false} ClosedStays<S>(deliver: (S, Packet) -> Delivery<S>, r: State<S>, chunks: seq<seq<Byte>>)
    requires r.phase == Closed
    ensures PumpChunks(deliver, r, chunks).phase == Closed && PumpChunks(deliver, r, chunks).sink == r.sink
    decreases |chunks|
  {
    if chunks != [] {
      ClosedStays(deliver, Feed(r, chunks[0]), chunks[1..]);
    }
  }

  /** Writing packets, cutting the bytes anywhere and reading them dispatches exactly those
      packets, and leaves no byte over if none is refused. */
  lemma Transmission<S>(deliver: (S, Packet) -> Delivery<S>, s: S, ps: seq<Packet>, chunks: seq<seq<Byte>>)
    requires forall p :: p in ps ==> Sendable(p)
    requires Concat(chunks) == EncodeAll(ps)
    ensures var d := Dispatch(deliver, s, ps);
            var end := PumpChunks(deliver, Fresh(s, []), chunks);
            && end.sink == d.state
            && (d.accepted ==> end.phase == AwaitHeader && end.buffer == [])
            && (!d.accepted ==> end.phase == Closed)
  {
    var r := Fresh(s, EncodeAll(ps));
    ChunksIrrelevant(deliver, Fresh(s, []), chunks);
    assert Feed(Fresh(s, []), Concat(chunks)) == r;
    StreamRoundTrip(ps);
    PumpParses(deliver, r);
    if Dispatch(deliver, s, ps).accepted {
      DrainedAtBoundary(deliver, r);
    }
  }

  /** When the bytes are nothing but complete frames and all are accepted, reading ends at a
      header boundary with an empty buffer. */
  lemma {:induction false} DrainedAtBoundary<S>(deliver: (S, Packet) -> Delivery<S>, r: State<S>)
    requires r.phase == AwaitHeader && ParseAll(r.buffer).1 == []
    requires Dispatch(deliver, r.sink, Packets(ParseAll(r.buffer).0)).accepted
    ensures Pump(deliver, r).phase == AwaitHeader && Pump(deliver, r).buffer == []
    decreases |r.buffer|
  {
    var one := ParseOne(r.buffer);
    if one.Some? {
      var f := one.value;
      PumpFrame(deliver, r, f);
      var frames := ParseAll(r.buffer[f.Length()..]).0;
      assert Packets([f] + frames)[1..] == Packets(frames);
      var d := Offer(deliver, r.sink, f.packet);
      var next: State<S> :| next.phase == AwaitHeader && next.sink == d.state
              && next.buffer == r.buffer[f.Length()..] && Pump(deliver, r) == Pump(deliver, next);
      DrainedAtBoundary(deliver, next);
    }
  }

  /** A packet of another type than 1 or 2 closes the session and is not offered to the sink. */
  lemma UnknownTypeCloses<S>(deliver: (S, Packet) -> Delivery<S>, r: State<S>)
    requires r.phase == AwaitHeader && ParseOne(r.buffer).Some?
    requires ParseOne(r.buffer).value.packet.kind !in {1, 2}
    ensures Pump(deliver, r).phase == Closed && Pump(deliver, r).sink == r.sink
  {
    PumpFrame(deliver, r, ParseOne(r.buffer).value);
  }
}
