/** A producer session announces which data signals are available; replaying the announcements
    should give the data signals the session holds. */
module Announcements {
  import opened Words
  import opened Messages

  /** What every session writes first: its version, 1.5.0, and its initialisation. */
  const HELLO: seq<Message> := [ApiVersion(Some([1, 5, 0])), OtherMethod]

  /** Signal ids with their kind: true for a data signal, false for a domain signal. */
  type Held = map<string, bool>

  datatype Op =
    | AddSignal(id: string, isData: bool)
    | AddSignals(signals: Held)
    | RemoveSignals(ids: seq<string>)

  function Ids(ids: seq<string>): set<string> {
    set id | id in ids
  }

  function DataSignals(held: Held): set<string> {
    set id | id in held && held[id]
  }

  lemma IdsAppend(ids: seq<string>, id: string)
    ensures Ids(ids + [id]) == Ids(ids) + {id}
  {
  }

  lemma IdsTake(ids: seq<string>, i: nat)
    requires i < |ids|
    ensures Ids(ids[..i + 1]) == Ids(ids[..i]) + {ids[i]}
  {
    IdsAppend(ids[..i], ids[i]);
    assert ids[..i + 1] == ids[..i] + [ids[i]];
  }

  /** AddSignal replaces, AddSignals keeps what is there. */
  function After(held: Held, op: Op): Held {
    match op
    case AddSignal(id, isData) => held[id := isData]
    case AddSignals(signals) => signals + held
    case RemoveSignals(ids) => held - Ids(ids)
  }

  /** The ids an operation announces as available, and as unavailable. */
  function MadeAvailable(op: Op): set<string> {
    match op
    case AddSignal(id, isData) => if isData then {id} else {}
    case AddSignals(signals) => DataSignals(signals)
    case RemoveSignals(_) => {}
  }

  function MadeUnavailable(held: Held, op: Op): set<string> {
    if op.RemoveSignals? then DataSignals(held) * Ids(op.ids) else {}
  }

  /** What an operation writes: one message with the ids in some order, or none when there is
      nothing to announce. */
  predicate Announces(held: Held, op: Op, written: seq<Message>) {
    var available, unavailable := MadeAvailable(op), MadeUnavailable(held, op);
    if available == {} && unavailable == {} then written == [] else
      && |written| == 1
      && (if op.RemoveSignals? then written[0].Unavailable? && Ids(written[0].ids) == unavailable
          else written[0].Available? && Ids(written[0].ids) == available)
  }

  /** A client keeps the ids announced as available; other messages do not matter. */
  function Replay(known: set<string>, m: Message): set<string> {
    match m
    case Available(ids) => known + Ids(ids)
    case Unavailable(ids) => known - Ids(ids)
    case _ => known
  }

  function ReplayAll(known: set<string>, log: seq<Message>): set<string> {
    if log == [] then known else Replay(ReplayAll(known, log[..|log| - 1]), log[|log| - 1])
  }

  lemma {:induction false} ReplayConcat(known: set<string>, a: seq<Message>, b: seq<Message>)
    ensures ReplayAll(known, a + b) == ReplayAll(ReplayAll(known, a), b)
    decreases |b|
  {
    if b == [] {
      assert a + b == a;
    } else {
      assert (a + b)[..|a + b| - 1] == a + b[..|b| - 1];
      ReplayConcat(known, a, b[..|b| - 1]);
    }
  }

  /** What an operation writes brings the client's knowledge up to date. */
  lemma ReplayAnnounced(known: set<string>, held: Held, op: Op, written: seq<Message>)
    requires Announces(held, op, written)
    ensures ReplayAll(known, written) == KnownAfter(known, held, op)
  {
    if written != [] {
      assert written[..0] == [];
      assert ReplayAll(known, written) == Replay(known, written[0]);
    }
  }

  /** What a client knows after an operation. */
  function KnownAfter(known: set<string>, held: Held, op: Op): set<string> {
    (known + MadeAvailable(op)) - MadeUnavailable(held, op)
  }

  /** An id keeps its kind where it matters: a data signal is not replaced by a domain signal, and
      a domain signal is not announced as data while it is kept. */
  predicate KindKept(held: Held, op: Op) {
    match op
    case AddSignal(id, isData) => id in held && held[id] ==> isData
    case AddSignals(signals) => forall id :: id in signals && signals[id] && id in held ==> held[id]
    case RemoveSignals(_) => true
  }

  /** A client that knows exactly the data signals still does after an operation if and only if
      the operation keeps kinds. */
  lemma TruthIff(held: Held, op: Op)
    ensures KnownAfter(DataSignals(held), held, op) == DataSignals(After(held, op)) <==> KindKept(held, op)
  {
    var known, truth := KnownAfter(DataSignals(held), held, op), DataSignals(After(held, op));
    match op {
      case AddSignal(id, isData) =>
        assert id in truth <==> isData;
        assert forall k :: k != id ==> (k in known <==> k in truth);
      case AddSignals(signals) =>
        forall id | id in signals && signals[id] && id in held && !held[id] ensures id in known && id !in truth {}
      case RemoveSignals(ids) =>
    }
  }

  /** The same behind what was written before. */
  lemma ReplayMore(log: seq<Message>, held: Held, op: Op, written: seq<Message>)
    requires Announces(held, op, written)
    ensures (log + written)[|log|..] == written
    ensures ReplayAll({}, log + written) == KnownAfter(ReplayAll({}, log), held, op)
  {
    ReplayConcat({}, log, written);
    ReplayAnnounced(ReplayAll({}, log), held, op, written);
  }

  lemma NoIds(ids: seq<string>)
    ensures ids == [] <==> Ids(ids) == {}
  {
    if ids != [] {
      assert ids[0] in Ids(ids);
    }
  }

  /** A data signal is replaced by a domain signal: the client goes on believing in it. */
  lemma ReplacedByDomain()
    ensures var held := After(map[], AddSignal("a", true));
            var known := KnownAfter({}, map[], AddSignal("a", true));
            && known == DataSignals(held) == {"a"}
            && KnownAfter(known, held, AddSignal("a", false)) == {"a"}
            && DataSignals(After(held, AddSignal("a", false))) == {}
  {
    var held := After(map[], AddSignal("a", true));
    assert "a" in DataSignals(held);
    assert DataSignals(held) == {"a"};
    assert DataSignals(After(held, AddSignal("a", false))) == {};
  }

  function HeldAfter(held: Held, ops: seq<Op>): Held
    decreases |ops|
  {
    if ops == [] then held else HeldAfter(After(held, ops[0]), ops[1..])
  }

  function KnownAfterAll(known: set<string>, held: Held, ops: seq<Op>): set<string>
    decreases |ops|
  {
    if ops == [] then known else KnownAfterAll(KnownAfter(known, held, ops[0]), After(held, ops[0]), ops[1..])
  }

  lemma {:induction false} TrueAtEnd(held: Held, known: set<string>, ops: seq<Op>)
    requires TrueThroughout(held, known, ops)
    ensures KnownAfterAll(known, held, ops) == DataSignals(HeldAfter(held, ops))
    decreases |ops|
  {
    if ops != [] {
      TrueAtEnd(After(held, ops[0]), KnownAfter(known, held, ops[0]), ops[1..]);
    }
  }

  ghost predicate TrueThroughout(held: Held, known: set<string>, ops: seq<Op>)
    decreases |ops|
  {
    known == DataSignals(held) &&
    (ops != [] ==> TrueThroughout(After(held, ops[0]), KnownAfter(known, held, ops[0]), ops[1..]))
  }

  ghost predicate KindsKeptThroughout(held: Held, ops: seq<Op>)
    decreases |ops|
  {
    ops != [] ==> KindKept(held, ops[0]) && KindsKeptThroughout(After(held, ops[0]), ops[1..])
  }

  /** Over every run the announcements replay to the truth after every operation if and only if
      every operation keeps kinds; in particular when an id is always data or always domain. */
  lemma {:induction false} TruthRunIff(held: Held, ops: seq<Op>)
    ensures TrueThroughout(held, DataSignals(held), ops) <==> KindsKeptThroughout(held, ops)
    decreases |ops|
  {
    if ops != [] {
      TruthIff(held, ops[0]);
      if KindKept(held, ops[0]) {
        TruthRunIff(After(held, ops[0]), ops[1..]);
      }
    }
  }

  predicate Consistent(kind: Held, held: Held) {
    forall id :: id in held ==> id in kind && held[id] == kind[id]
  }

  predicate OpConsistent(kind: Held, op: Op) {
    match op
    case AddSignal(id, isData) => id in kind && kind[id] == isData
    case AddSignals(signals) => Consistent(kind, signals)
    case RemoveSignals(_) => true
  }

  lemma ConsistentStep(kind: Held, held: Held, op: Op)
    requires Consistent(kind, held) && OpConsistent(kind, op)
    ensures KindKept(held, op) && Consistent(kind, After(held, op))
  {
  }

  /** Fixed kinds suffice. */
  lemma {:induction false} FixedKindsSuffice(kind: Held, held: Held, ops: seq<Op>)
    requires Consistent(kind, held) && forall op :: op in ops ==> OpConsistent(kind, op)
    ensures KindsKeptThroughout(held, ops)
    decreases |ops|
  {
    if ops != [] {
      ConsistentStep(kind, held, ops[0]);
      FixedKindsSuffice(kind, After(held, ops[0]), ops[1..]);
    }
  }

  /** Listing one more id selects one more element of a set, or none. */
  lemma SelectOneMore(all: set<string>, listed: set<string>, id: string)
    ensures all * (listed + {id}) == all * listed + if id in all && id !in listed then {id} else {}
    ensures |all * (listed + {id})| == |all * listed| + if id in all && id !in listed then 1 else 0
  {
    if id in all && id !in listed {
      assert all * (listed + {id}) == all * listed + {id};
    } else {
      assert all * (listed + {id}) == all * listed;
    }
  }

  lemma NothingAnnounced()
    ensures ReplayAll({}, HELLO) == {}
  {
    assert HELLO[..1] == [HELLO[0]] && [HELLO[0]][..0] == [];
    assert ReplayAll({}, [HELLO[0]]) == {};
  }

  class ProducerSession {
    var allSignals: Held
    var log: seq<Message>

    constructor ()
      ensures allSignals == map[] && log == HELLO && ReplayAll({}, log) == DataSignals(allSignals)
    {
      allSignals, log := map[], HELLO;
      NothingAnnounced();
    }

    method AddSignal(id: string, isData: bool)
      modifies this
      ensures allSignals == After(old(allSignals), Op.AddSignal(id, isData))
      ensures old(log) <= log && Announces(old(allSignals), Op.AddSignal(id, isData), log[|old(log)|..])
      ensures ReplayAll({}, log) == KnownAfter(old(ReplayAll({}, log)), old(allSignals), Op.AddSignal(id, isData))
    {
      ReplayMore(log, allSignals, Op.AddSignal(id, isData), if isData then [Available([id])] else []);
      allSignals := allSignals[id := isData];
      if isData {
        log := log + [Available([id])];
      }
    }

    method AddSignals(signals: Held)
      modifies this
      ensures allSignals == After(old(allSignals), Op.AddSignals(signals))
      ensures old(log) <= log && Announces(old(allSignals), Op.AddSignals(signals), log[|old(log)|..])
      ensures ReplayAll({}, log) == KnownAfter(old(ReplayAll({}, log)), old(allSignals), Op.AddSignals(signals))
    {
      allSignals := signals + allSignals;
      var signalIds: seq<string> := [];
      var keys := signals.Keys;
      while keys != {}
        invariant keys <= signals.Keys && log == old(log) && allSignals == signals + old(allSignals)
        invariant Ids(signalIds) == DataSignals(signals) - keys
        decreases keys
      {
        var id :| id in keys;
        IdsAppend(signalIds, id);
        if signals[id] {
          signalIds := signalIds + [id];
        }
        keys := keys - {id};
      }
      NoIds(signalIds);
      ReplayMore(log, old(allSignals), Op.AddSignals(signals), if signalIds != [] then [Available(signalIds)] else []);
      if signalIds != [] {
        log := log + [Available(signalIds)];
      }
    }

    /** Erases the listed signals one after the other. */
    method Erase(ids: seq<string>) returns (count: nat, dataIds: seq<string>)
      modifies this`allSignals
      ensures allSignals == old(allSignals) - Ids(ids)
      ensures Ids(dataIds) == DataSignals(old(allSignals)) * Ids(ids)
      ensures count == |old(allSignals).Keys * Ids(ids)|
    {
      hide Ids, Erased;
      count, dataIds := 0, [];
      ghost var held := allSignals;
      NoneErased(held);
      for i := 0 to |ids|
        invariant Erased(held, Ids(ids[..i]), allSignals, dataIds, count)
      {
        var id := ids[i];
        IdsTake(ids, i);
        ErasedNext(held, Ids(ids[..i]), allSignals, dataIds, count, id);
        if id in allSignals {
          if allSignals[id] {
            dataIds := dataIds + [id];
          }
          allSignals := allSignals - {id};
          count := count + 1;
        }
      }
      assert ids[..|ids|] == ids;
      ErasedAll(held, Ids(ids), allSignals, dataIds, count);
    }

    /** Returns the number of distinct listed ids that were held. */
    method RemoveSignals(ids: seq<string>) returns (count: nat)
      modifies this
      ensures allSignals == After(old(allSignals), Op.RemoveSignals(ids))
      ensures old(log) <= log && Announces(old(allSignals), Op.RemoveSignals(ids), log[|old(log)|..])
      ensures ReplayAll({}, log) == KnownAfter(old(ReplayAll({}, log)), old(allSignals), Op.RemoveSignals(ids))
      ensures count == |old(allSignals).Keys * Ids(ids)|
    {
      var dataIds;
      count, dataIds := Erase(ids);
      NoIds(dataIds);
      ReplayMore(log, old(allSignals), Op.RemoveSignals(ids), if dataIds != [] then [Unavailable(dataIds)] else []);
      if dataIds != [] {
        log := log + [Unavailable(dataIds)];
      }
    }
  }

  /** Progress of erasing: what is left, the data signals among the erased, and their number. */
  ghost predicate Erased(held: Held, listed: set<string>, rest: Held, dataIds: seq<string>, count: nat) {
    rest == held - listed && Ids(dataIds) == DataSignals(held) * listed && count == |held.Keys * listed|
  }

  lemma NoneErased(held: Held)
    ensures Erased(held, Ids([]), held, [], 0)
  {
    assert held.Keys * {} == {};
  }

  lemma ErasedAll(held: Held, listed: set<string>, rest: Held, dataIds: seq<string>, count: nat)
    requires Erased(held, listed, rest, dataIds, count)
    ensures rest == held - listed && Ids(dataIds) == DataSignals(held) * listed && count == |held.Keys * listed|
  {
  }

  lemma ErasedNext(held: Held, listed: set<string>, rest: Held, dataIds: seq<string>, count: nat, id: string)
    requires Erased(held, listed, rest, dataIds, count)
    ensures Erased(held, listed + {id}, if id in rest then rest - {id} else rest,
                   if id in rest && rest[id] then dataIds + [id] else dataIds, if id in rest then count + 1 else count)
  {
    hide Ids, DataSignals;
    IsData(held, id);
    SelectOneMore(held.Keys, listed, id);
    SelectOneMore(DataSignals(held), listed, id);
    IdsAppend(dataIds, id);
    EraseOneMore(held, listed, id);
  }

  lemma EraseOneMore(held: Held, listed: set<string>, id: string)
    ensures held - (listed + {id}) == (held - listed) - {id}
    ensures id !in held - listed ==> held - (listed + {id}) == held - listed
    ensures id in held - listed <==> id in held && id !in listed
  {
  }

  lemma IsData(held: Held, id: string)
    ensures id in DataSignals(held) <==> id in held && held[id]
  {
  }
}
