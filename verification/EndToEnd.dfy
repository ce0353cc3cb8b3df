/** From the producer's steps through bytes and chunks to the consumer's callbacks. */
module EndToEnd {
  import opened Words
  import opened Messages
  import opened Framing
  import opened Session
  import opened Producer
  import opened Lockstep
  import opened Runs
  import Announcements
  import Layout
  import Reader
  import Samples
  import Settings
  import Tables

  /** No packet is empty or longer than a length word can say. */
  predicate LengthsFit(ps: seq<Packet>) {
    forall p :: p in ps ==> 1 <= |p.payload| < 0x1_0000_0000
  }

  /** What the transport relies on: the encoding gives every message back, and packets are neither
      empty nor too long. */
  predicate Transmissible(codec: Codec, inputs: seq<Tables.Input>) {
    CarriesAll(codec, inputs) && LengthsFit(PacketsOf(codec, inputs))
  }

  /** There is such an encoding for every run whose data packets are neither empty nor too long. */
  lemma EveryRunTransmissible(inputs: seq<Tables.Input>, width: nat)
    requires forall i :: i in inputs && i.Data? ==> 1 <= |i.bytes| < 0x1_0000_0000
    requires |inputs| <= Pow256(width) && 4 + width < 0x1_0000_0000
    ensures Transmissible(ListCodec(MessagesOf(inputs), width), inputs)
  {
    hide ListCodec, Carries;
    var codec := ListCodec(MessagesOf(inputs), width);
    CodecForEveryRun(inputs, width);
    forall p | p in PacketsOf(codec, inputs) ensures 1 <= |p.payload| < 0x1_0000_0000 {
      var k :| 0 <= k < |inputs| && PacketOf(codec, inputs[k]) == p;
      assert inputs[k] in inputs;
    }
  }

  /** All bytes of a list of inputs. */
  function Wire(codec: Codec, inputs: seq<Tables.Input>): seq<Byte> {
    EncodeAll(PacketsOf(codec, inputs))
  }

  /** The session after reading bytes in chunks. */
  function Read(codec: Codec, s: Consumer, chunks: seq<seq<Byte>>): Reader.State<Consumer> {
    Reader.PumpChunks(Sink(codec), Reader.Fresh(s, []), chunks)
  }

  /** Accepted inputs arrive: in whatever chunks their bytes come, the session ends open at a
      header boundary, with nothing left over and with the effect of the inputs. */
  lemma InputsArrive(codec: Codec, s: Consumer, inputs: seq<Tables.Input>, chunks: seq<seq<Byte>>)
    requires Transmissible(codec, inputs) && forall i :: i in inputs ==> i.number < 0x10_0000
    requires Reader.Concat(chunks) == Wire(codec, inputs) && ReceiveAll(s.container, inputs).accepted
    ensures var end, r := Read(codec, s, chunks), ReceiveAll(s.container, inputs);
            && end.phase == Reader.AwaitHeader && end.buffer == []
            && end.sink.container == r.state && end.sink.events == s.events + r.events
  {
    hide Sink, EncodeAll, Reader.Concat, Reader.PumpChunks, ReceiveAll, Carries;
    var ps := PacketsOf(codec, inputs);
    DispatchInputs(codec, s, inputs);
    forall p | p in ps ensures Sendable(p) {
      var i :| 0 <= i < |ps| && ps[i] == p;
      assert inputs[i] in inputs;
    }
    Reader.Transmission(Sink(codec), s, ps, chunks);
  }

  /** For every permitted run of producer steps, and in whatever chunks the bytes it writes arrive,
      the session is still open at the end, has read every byte, has made exactly the expected
      callbacks in order, and holds a container that is in step with the producer. */
  lemma EndToEnd(codec: Codec, p: Site, s: Consumer, steps: seq<Step>)
    requires InStep(p.world, s.container) && PermittedRun(p, steps) && Transmissible(codec, SentAll(p, steps))
    ensures forall chunks | Reader.Concat(chunks) == Wire(codec, SentAll(p, steps)) ::
              var end := Read(codec, s, chunks);
              && end.phase == Reader.AwaitHeader && end.buffer == []
              && end.sink.events == s.events + CallbacksAll(p, steps)
              && InStep(NextAll(p, steps).world, end.sink.container)
  {
    hide InStep, Next, Callbacks, Sent, Possible, Wire, Read, Transmissible, Reader.Concat, ReceiveAll;
    LockstepRun(p, s.container, steps);
    InStepNumbers(p.world, s.container);
    NumbersFit(p, steps);
    forall chunks | Reader.Concat(chunks) == Wire(codec, SentAll(p, steps))
      ensures var end := Read(codec, s, chunks);
              && end.phase == Reader.AwaitHeader && end.buffer == []
              && end.sink.events == s.events + CallbacksAll(p, steps)
              && InStep(NextAll(p, steps).world, end.sink.container)
    {
      InputsArrive(codec, s, SentAll(p, steps), chunks);
    }
  }

  // ------------------------------------------------------------------ from the beginning

  /** A session with its first two messages and a run. */
  ghost function WholeSession(p: Site, steps: seq<Step>): seq<Tables.Input>
    requires AttemptedRun(p, steps)
  {
    StreamInputs(Announcements.HELLO) + SentAll(p, steps)
  }

  /** The starting point: nothing is subscribed and the session is new. */
  lemma StartInStep(w: World)
    requires WellFormed(w) && w.subscribed == {}
    ensures InStep(w, NEW_CONSUMER.container)
    ensures Samples.IndicesAgree(w, NEW_CONSUMER.container) && Settings.SettingsAgree(w, NEW_CONSUMER.container)
  {
  }

  lemma SessionReceived(p: Site, steps: seq<Step>)
    requires WellFormed(p.world) && p.world.subscribed == {} && PermittedRun(p, steps)
    ensures var r := ReceiveAll(NEW_CONSUMER.container, WholeSession(p, steps));
            && r.accepted && r.events == StreamEvents(Announcements.HELLO) + CallbacksAll(p, steps)
            && InStep(NextAll(p, steps).world, r.state)
    ensures forall i :: i in WholeSession(p, steps) ==> i.number < 0x10_0000
  {
    hide InStep, Next, Callbacks, Sent, Possible, ReceiveAll;
    var c := NEW_CONSUMER.container;
    StartInStep(p.world);
    LockstepRun(p, c, steps);
    ReceiveStream(c, Announcements.HELLO);
    ReceiveConcat(c, StreamInputs(Announcements.HELLO), SentAll(p, steps));
    NumbersFit(p, steps);
  }

  lemma HelloEvents()
    ensures StreamEvents(Announcements.HELLO) == [StreamEvent(ApiVersion(Some([1, 5, 0]))), StreamEvent(OtherMethod)]
  {
  }

  /** The whole session, from its first byte: the consumer starts with nothing, and whatever the
      session announces and its signals do, it makes exactly the expected callbacks and ends in
      step with the producer. */
  lemma EndToEndFromStart(codec: Codec, p: Site, steps: seq<Step>)
    requires WellFormed(p.world) && p.world.subscribed == {} && PermittedRun(p, steps)
    requires Transmissible(codec, WholeSession(p, steps))
    ensures forall chunks | Reader.Concat(chunks) == Wire(codec, WholeSession(p, steps)) ::
              var end := Read(codec, NEW_CONSUMER, chunks);
              && end.phase == Reader.AwaitHeader && end.buffer == []
              && end.sink.events
                 == [StreamEvent(ApiVersion(Some([1, 5, 0]))), StreamEvent(OtherMethod)] + CallbacksAll(p, steps)
              && InStep(NextAll(p, steps).world, end.sink.container)
  {
    hide InStep, Next, Callbacks, Sent, Possible, Wire, Read, Transmissible, Reader.Concat, ReceiveAll, WholeSession,
         CallbacksAll;
    SessionReceived(p, steps);
    HelloEvents();
    forall chunks | Reader.Concat(chunks) == Wire(codec, WholeSession(p, steps))
      ensures var end := Read(codec, NEW_CONSUMER, chunks);
              && end.phase == Reader.AwaitHeader && end.buffer == []
              && end.sink.events == StreamEvents(Announcements.HELLO) + CallbacksAll(p, steps)
              && InStep(NextAll(p, steps).world, end.sink.container)
    {
      InputsArrive(codec, NEW_CONSUMER, WholeSession(p, steps), chunks);
      var events := StreamEvents(Announcements.HELLO) + CallbacksAll(p, steps);
      assert [] + events == events;
    }
  }

  /** The samples of the whole session: read from the bytes in any chunks, they are exactly those
      that signal n took while it was subscribed, each once, in order and at its time, provided
      that no samples are added while the time signal is not subscribed. */
  lemma SamplesFromStart(codec: Codec, p: Site, n: nat, steps: seq<Step>)
    requires WellFormed(p.world) && p.world.subscribed == {} && PermittedRun(p, steps)
    requires Transmissible(codec, WholeSession(p, steps))
    requires Samples.NothingLost(p, steps) && n in p.world.signals && p.world.signals[n].Sync?
    ensures forall chunks | Reader.Concat(chunks) == Wire(codec, WholeSession(p, steps)) ::
              Samples.Delivered(n, Read(codec, NEW_CONSUMER, chunks).sink.events, Layout.Width(p.world.signals[n].base))
              == Samples.TakenAll(p, n, steps)
  {
    hide InStep, Next, Callbacks, Sent, Possible, Wire, Read, Transmissible, Reader.Concat, WholeSession, CallbacksAll,
         Samples.Delivered, Samples.NothingLost, Samples.IndicesAgree, Samples.TakenAll;
    var width := Layout.Width(p.world.signals[n].base);
    StartInStep(p.world);
    Samples.SamplesOfRun(p, NEW_CONSUMER.container, n, steps);
    HelloEvents();
    EndToEndFromStart(codec, p, steps);
    Samples.NoneDelivered(n, StreamEvents(Announcements.HELLO), width);
    Samples.DeliveredConcat(n, StreamEvents(Announcements.HELLO), CallbacksAll(p, steps), width);
  }

  /** The same at the producer's own times, provided that no step leaves the consumer with an old
      time start or rate. */
  lemma OwnTimesFromStart(codec: Codec, p: Site, n: nat, steps: seq<Step>)
    requires WellFormed(p.world) && p.world.subscribed == {} && PermittedRun(p, steps)
    requires Transmissible(codec, WholeSession(p, steps))
    requires Samples.NothingLost(p, steps) && Settings.NothingOutdated(p, steps)
    requires n in p.world.signals && p.world.signals[n].Sync?
    ensures forall chunks | Reader.Concat(chunks) == Wire(codec, WholeSession(p, steps)) ::
              Samples.Delivered(n, Read(codec, NEW_CONSUMER, chunks).sink.events, Layout.Width(p.world.signals[n].base))
              == Settings.OwnTakenAll(p, n, steps)
  {
    hide InStep, PermittedRun, Wire, Read, Transmissible, Reader.Concat, WholeSession, CallbacksAll, Samples.Delivered,
         Samples.NothingLost, Settings.NothingOutdated, Samples.IndicesAgree, Settings.SettingsAgree, Samples.TakenAll,
         Settings.OwnTakenAll;
    StartInStep(p.world);
    Samples.SamplesOfRun(p, NEW_CONSUMER.container, n, steps);
    Settings.SamplesAtOwnTimes(p, NEW_CONSUMER.container, n, steps);
    SamplesFromStart(codec, p, n, steps);
  }

  /** The announcements of the whole session: a client that replays the stream messages it was
      called back with, read from the bytes in any chunks, knows exactly the data signals that the
      producing session holds, provided that ids keep their kind. */
  lemma AnnouncementsFromStart(codec: Codec, p: Site, steps: seq<Step>)
    requires WellFormed(p.world) && p.world.subscribed == {} && p.held == map[] && PermittedRun(p, steps)
    requires Transmissible(codec, WholeSession(p, steps))
    requires Announcements.KindsKeptThroughout(p.held, Changes(steps))
    ensures forall chunks | Reader.Concat(chunks) == Wire(codec, WholeSession(p, steps)) ::
              Announcements.ReplayAll({}, StreamLog(Read(codec, NEW_CONSUMER, chunks).sink.events))
              == Announcements.DataSignals(NextAll(p, steps).held)
  {
    hide InStep, Next, Callbacks, Sent, Possible, Wire, Read, Transmissible, Reader.Concat, WholeSession, CallbacksAll,
         StreamLog, Announcements.ReplayAll, Announcements.KindsKeptThroughout;
    HelloEvents();
    EndToEndFromStart(codec, p, steps);
    ConsumerKnowsDataSignals(p, steps);
    assert Announcements.DataSignals(p.held) == {};
    StreamLogConcat(StreamEvents(Announcements.HELLO), CallbacksAll(p, steps));
    StreamLogOfMessages(Announcements.HELLO);
    Announcements.ReplayConcat({}, Announcements.HELLO, StreamLog(CallbacksAll(p, steps)));
    Announcements.NothingAnnounced();
  }

  // ------------------------------------------------------------------ acceptance

  /** Any session of any producer whose signals have the numbers they are issued, read from its
      bytes in any chunks, is still open at the end if and only if it keeps to the discipline. */
  lemma SessionOpenIff(codec: Codec, p: Site, steps: seq<Step>)
    requires p.world.subscribed == {} && forall n :: n in p.world.signals ==> 1 <= n < 0x10_0000
    requires AttemptedRun(p, steps) && Transmissible(codec, WholeSession(p, steps))
    ensures forall chunks | Reader.Concat(chunks) == Wire(codec, WholeSession(p, steps)) ::
              Read(codec, NEW_CONSUMER, chunks).phase != Reader.Closed <==> AllowedRun(p, steps)
  {
    hide Next, Sent, Applies, Allowed, ReceiveAll, AttemptedRun, AllowedRun, SentAll, Sink, EncodeAll, Reader.Concat,
         Reader.PumpChunks, Carries, Announcements.HELLO;
    var c, inputs := NEW_CONSUMER.container, WholeSession(p, steps);
    HelloAccepted();
    ReceiveStream(c, Announcements.HELLO);
    ReceiveConcat(c, StreamInputs(Announcements.HELLO), SentAll(p, steps));
    AcceptedRunIff(p, c, steps);
    NumbersFit(p, steps);
    DispatchInputs(codec, NEW_CONSUMER, inputs);
    var ps := PacketsOf(codec, inputs);
    forall q | q in ps ensures Sendable(q) {
      var i :| 0 <= i < |ps| && ps[i] == q;
      assert inputs[i] in inputs;
    }
    forall chunks | Reader.Concat(chunks) == Wire(codec, inputs)
      ensures Read(codec, NEW_CONSUMER, chunks).phase != Reader.Closed <==> AllowedRun(p, steps)
    {
      Reader.Transmission(Sink(codec), NEW_CONSUMER, ps, chunks);
    }
  }

  lemma HelloAccepted()
    ensures forall m :: m in Announcements.HELLO ==> StreamAccepts(m)
  {
  }
}
