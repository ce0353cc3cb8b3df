/** The session object: callbacks over a stream buffer that dispatch packets to the container. */
module ProtocolHandlers {
  import opened Words
  import opened Messages
  import opened Framing
  import opened Session
  import Reader
  import Container
  import opened SignalContainers

  class ProtocolHandler {
    const codec: Codec
    const container: SignalContainer
    var phase: Reader.Phase
    var number: nat
    var kind: nat
    var length: nat
    var buffer: seq<Byte>
    var content: Message
    var events: seq<Event>

    ghost predicate Valid()
      reads container, container.signals.Values
    {
      container.Valid()
    }

    ghost function Received(): Consumer
      reads this`content, this`events, container, container.signals.Values
    {
      Consumer(container.View(), content, events)
    }

    ghost function View(): Reader.State<Consumer>
      reads this, container, container.signals.Values
    {
      Reader.State(phase, number, kind, length, buffer, Received())
    }

    /** After initialisation the first header is awaited. */
    constructor (codec: Codec, container: SignalContainer)
      requires container.Valid()
      ensures Valid() && this.codec == codec && this.container == container
      ensures View() == Reader.Fresh(Consumer(container.View(), OtherMethod, []), [])
    {
      this.codec, this.container := codec, container;
      phase, number, kind, length := Reader.AwaitHeader, 0, 0, 0;
      buffer, content, events := [], OtherMethod, [];
    }

    method OnHeader()
      requires phase == Reader.AwaitHeader && |buffer| >= 4
      modifies this`phase, this`number, this`kind, this`length, this`buffer
      ensures View() == Reader.Step(Sink(codec), old(View()))
    {
      hide Sink, Received;
      var header := Word32(buffer);
      buffer := buffer[4..];
      number := NumberField(header);
      kind := TypeField(header);
      length := SizeField(header);
      phase := if length == 0 then Reader.AwaitLength else Reader.AwaitPayload;
    }

    method OnAdditionalLength()
      requires phase == Reader.AwaitLength && |buffer| >= 4
      modifies this`phase, this`number, this`kind, this`length, this`buffer
      ensures View() == Reader.Step(Sink(codec), old(View()))
    {
      hide Sink, Received;
      length := Word32(buffer);
      buffer := buffer[4..];
      phase := Reader.AwaitPayload;
    }

    /** Refused data is only logged. */
    method DispatchData(payload: seq<Byte>)
      requires Valid()
      modifies this`events, container.signals.Values
      ensures Valid()
      ensures Reader.Delivery(Received(), true) == DeliverData(old(Received()), number, payload)
    {
      hide Container.ProcessData, SignalContainer.View, SignalContainer.Valid;
      var accepted, callbacks := container.ProcessMeasuredData(number, payload);
      events := events + callbacks;
    }

    /** Stream related for signal number 0, signal related otherwise. */
    method DispatchMeta(payload: seq<Byte>) returns (accepted: bool)
      requires Valid()
      modifies this`content, this`events, container, container.signals.Values
      ensures Valid()
      ensures forall s :: s in container.signals.Values && s !in old(container.signals.Values) ==> fresh(s)
      ensures Reader.Delivery(Received(), accepted) == DeliverMeta(codec, old(Received()), number, payload)
    {
      hide Container.ProcessMeta, SignalContainer.View, SignalContainer.Valid;
      if MetaType(payload) == METAINFORMATION_MSGPACK {
        var decoded := codec.decode(MetaBody(payload));
        if decoded.None? {
          return false;
        }
        content := decoded.value;
      }
      if number == 0 {
        if !StreamAccepts(content) || MetaType(payload) != METAINFORMATION_MSGPACK {
          return false;
        }
        events := events + [StreamEvent(content)];
        return true;
      }
      var callbacks;
      accepted, callbacks := container.ProcessMetaInformation(number, content);
      events := events + callbacks;
    }

    method Dispatch(payload: seq<Byte>) returns (accepted: bool)
      requires Valid()
      modifies this`content, this`events, container, container.signals.Values
      ensures Valid()
      ensures forall s :: s in container.signals.Values && s !in old(container.signals.Values) ==> fresh(s)
      ensures Reader.Delivery(Received(), accepted)
           == Reader.Offer(Sink(codec), old(Received()), Packet(number, kind, payload))
    {
      hide DeliverData, DeliverMeta;
      accepted := false;
      if kind == TYPE_SIGNALDATA {
        DispatchData(payload);
        accepted := true;
      } else if kind == TYPE_METAINFORMATION {
        accepted := DispatchMeta(payload);
      }
    }

    /** The payload is consumed only if it was accepted. */
    method OnPayload()
      requires Valid() && phase == Reader.AwaitPayload && |buffer| >= length
      modifies this, container, container.signals.Values
      ensures Valid()
      ensures forall s :: s in container.signals.Values && s !in old(container.signals.Values) ==> fresh(s)
      ensures View() == Reader.Step(Sink(codec), old(View()))
    {
      hide Sink, Reader.Offer, Received;
      var accepted := Dispatch(buffer[..length]);
      if !accepted {
        phase := Reader.Closed;
        return;
      }
      buffer := buffer[length..];
      phase := Reader.AwaitHeader;
    }

    /** New bytes arrive: every pending read that they complete calls back. */
    method Receive(chunk: seq<Byte>)
      requires Valid()
      modifies this, container, container.signals.Values
      ensures Valid()
      ensures forall s :: s in container.signals.Values && s !in old(container.signals.Values) ==> fresh(s)
      ensures View() == Reader.Pump(Sink(codec), Reader.Feed(old(View()), chunk))
    {
      hide Reader.Step, Sink, Received;
      buffer := buffer + chunk;
      ghost var all := Reader.Pump(Sink(codec), View());
      while phase != Reader.Closed && |buffer| >= (if phase == Reader.AwaitPayload then length else 4)
        invariant Valid()
        invariant forall s :: s in container.signals.Values && s !in old(container.signals.Values) ==> fresh(s)
        invariant Reader.Pump(Sink(codec), View()) == all
        decreases phase != Reader.Closed, |buffer|, phase == Reader.AwaitPayload
      {
        ghost var before := View();
        Reader.StepProgress(Sink(codec), before);
        match phase {
          case AwaitHeader => OnHeader();
          case AwaitLength => OnAdditionalLength();
          case AwaitPayload => OnPayload();
          case Closed =>
        }
      }
    }
  }
}
