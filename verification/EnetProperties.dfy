/** The peer table agrees with the signal history: step by step, over runs, and exactly when. */
module EnetProperties {
  import opened EnetWorld

  // ----- the signal history -----

  function AfterSignal(announced: set<nat>, signal: Signal): set<nat> {
    match signal
    case Connected(id) => announced + {id}
    case Disconnected(id) => announced - {id}
    case DataReceived(_, _) => announced
    case Closed => {}
  }

  /** The ids announced as connected, and not since as disconnected or by closing. */
  function Announced(signals: seq<Signal>): set<nat> {
    if signals == [] then {}
    else AfterSignal(Announced(signals[..|signals| - 1]), signals[|signals| - 1])
  }

  /** A signal in its place: ids connect once, receive while connected, and disconnect thereafter. */
  predicate IsProperNext(earlier: seq<Signal>, signal: Signal) {
    match signal
    case Connected(id) => id != 0 && id !in Announced(earlier)
    case Disconnected(id) => id == 0 || id in Announced(earlier)
    case DataReceived(id, _) => id in Announced(earlier)
    case Closed => true
  }

  predicate IsProperHistory(signals: seq<Signal>) {
    signals == []
    || (IsProperNext(signals[..|signals| - 1], signals[|signals| - 1])
        && IsProperHistory(signals[..|signals| - 1]))
  }

  lemma HistoryGrows(signals: seq<Signal>, signal: Signal)
    ensures IsProperHistory(signals + [signal]) <==> IsProperHistory(signals) && IsProperNext(signals, signal)
    ensures Announced(signals + [signal]) == AfterSignal(Announced(signals), signal)
  {
  }

  // ----- the invariant -----

  predicate IsAnnounced(w: World, slot: nat) {
    slot in w.peers && w.peers[slot].phase != Opening
  }

  /** Every entry leads to a slot whose connection has been announced under that id. */
  predicate EntriesLead(w: World) {
    forall id | id in w.table ::
      id != 0 && IsAnnounced(w, w.table[id]) && w.peers[w.table[id]].id == id
  }

  /** Every announced connection is found under its id. */
  predicate AnnouncedAreFound(w: World) {
    forall slot | slot in w.peers ::
      IsAnnounced(w, slot) ==> w.peers[slot].id in w.table && w.table[w.peers[slot].id] == slot
  }

  predicate Agrees(w: World) {
    && EntriesLead(w)
    && AnnouncedAreFound(w)
    && w.table.Keys == Announced(w.signals)
    && IsProperHistory(w.signals)
    && (!w.hosting ==> w.peers == map[])
  }

  /** The table maps no two ids to the same slot. */
  lemma TableIsInjective(w: World, id1: nat, id2: nat)
    requires Agrees(w) && id1 in w.table && id2 in w.table && w.table[id1] == w.table[id2]
    ensures id1 == id2
  {
  }

  /**
   The two steps that can go wrong: a connection comes up whose id is 0 or already taken, and a
   dial times out after its connection has been announced.
   */
  predicate Safe(w: World, step: Step) {
    && (step.Deliver? && step.event.Connect? && step.event.slot in w.peers ==>
          w.peers[step.event.slot].id != 0 && w.peers[step.event.slot].id !in w.table)
    && (step.DialTimesOut? ==> !IsAnnounced(w, step.slot))
  }

  // ----- one step -----

  lemma FreshConnectAgrees(w: World, slot: nat, found: nat)
    requires Agrees(w) && Enabled(w, Deliver(Connect(slot), found))
    requires w.peers[slot].id != 0 && w.peers[slot].id !in w.table
    ensures Agrees(OnConnect(w, slot))
  {
    var id, v := w.peers[slot].id, OnConnect(w, slot);
    HistoryGrows(w.signals, Connected(id));
    assert EntriesLead(v) by {
      forall other | other in v.table
        ensures other != 0 && IsAnnounced(v, v.table[other]) && v.peers[v.table[other]].id == other
      {
        assert other != id ==> IsAnnounced(w, w.table[other]) && w.table[other] != slot;
      }
    }
    assert AnnouncedAreFound(v) by {
      forall other | other in v.peers && IsAnnounced(v, other)
        ensures v.peers[other].id in v.table && v.table[v.peers[other].id] == other
      {
        assert other != slot ==> IsAnnounced(w, other) && w.peers[other].id != id;
      }
    }
  }

  /** The id 0 reads as "no connection"; a taken id hides the connection that had it. */
  lemma ClashingConnectDisagrees(w: World, slot: nat, found: nat)
    requires Agrees(w) && Enabled(w, Deliver(Connect(slot), found))
    requires w.peers[slot].id == 0 || w.peers[slot].id in w.table
    ensures !Agrees(OnConnect(w, slot))
  {
    var id, v := w.peers[slot].id, OnConnect(w, slot);
    assert v.table[id] == slot;
    if id != 0 {
      var other := w.table[id];
      assert IsAnnounced(w, other) && other != slot;
      assert IsAnnounced(v, other) && v.peers[other].id == id;
    }
  }

  lemma ConnectAgreesIff(w: World, slot: nat, found: nat)
    requires Agrees(w) && Enabled(w, Deliver(Connect(slot), found))
    ensures Agrees(OnConnect(w, slot)) <==> w.peers[slot].id != 0 && w.peers[slot].id !in w.table
  {
    if w.peers[slot].id != 0 && w.peers[slot].id !in w.table {
      FreshConnectAgrees(w, slot, found);
    } else {
      ClashingConnectDisagrees(w, slot, found);
    }
  }

  /**
   A reverse lookup is exact: for an announced connection it yields the announced id and removes
   that one entry; for any other slot it yields 0 and removes nothing.
   */
  lemma ReverseLookupIsExact(w: World, slot: nat, found: nat)
    requires Agrees(w) && Enabled(w, Deliver(Disconnect(slot), found))
    ensures IsAnnounced(w, slot) ==>
      found == w.peers[slot].id && found in w.table && w.table[found] == slot
    ensures !IsAnnounced(w, slot) ==> found == 0 && OnDisconnect(w, slot, found).table == w.table
    ensures OnDisconnect(w, slot, found).table.Keys == w.table.Keys - {found}
  {
    if IsAnnounced(w, slot) {
      assert w.table[w.peers[slot].id] == slot;
      assert slot in w.table.Values;
      TableIsInjective(w, found, w.peers[slot].id);
    } else {
      assert slot !in w.table.Values;
      assert 0 !in w.table;
      assert w.table - {found} == w.table;
    }
  }

  lemma DisconnectAgrees(w: World, slot: nat, found: nat)
    requires Agrees(w) && Enabled(w, Deliver(Disconnect(slot), found))
    ensures Agrees(OnDisconnect(w, slot, found))
  {
    ReverseLookupIsExact(w, slot, found);
    HistoryGrows(w.signals, Disconnected(found));
  }

  lemma DropNowAgrees(w: World, id: nat)
    requires Agrees(w) && id in w.table
    ensures Agrees(DroppedNow(w, w.table[id]))
    ensures DroppedNow(w, w.table[id]).signals == w.signals + [Disconnected(id)]
    ensures DroppedNow(w, w.table[id]).table == w.table - {id}
  {
    HistoryGrows(w.signals, Disconnected(id));
    forall other | other in w.table && other != id
      ensures w.table[other] != w.table[id]
    {
      if w.table[other] == w.table[id] {
        TableIsInjective(w, other, id);
      }
    }
  }

  lemma DialTimeoutAgreesIff(w: World, slot: nat)
    requires Agrees(w) && Enabled(w, DialTimesOut(slot))
    ensures Agrees(Apply(w, DialTimesOut(slot))) <==> !IsAnnounced(w, slot)
  {
    if IsAnnounced(w, slot) {
      assert w.table[w.peers[slot].id] == slot;
    }
  }

  lemma LibraryStepAgrees(w: World, step: Step)
    requires Agrees(w) && Enabled(w, step) && LibraryCan(w.peers, step)
    ensures Agrees(w.(peers := AfterLibrary(w.peers, step)))
  {
  }

  lemma ReceiveAgrees(w: World, slot: nat, data: seq<nat>, found: nat)
    requires Agrees(w) && Enabled(w, Deliver(Receive(slot, data), found))
    ensures Agrees(w.(signals := w.signals + [DataReceived(w.peers[slot].id, data)]))
  {
    HistoryGrows(w.signals, DataReceived(w.peers[slot].id, data));
    assert w.table[w.peers[slot].id] == slot;
  }

  lemma ListenAgrees(w: World)
    requires Agrees(w) && !w.hosting
    ensures Agrees(w.(hosting := true, listening := true, peers := map[]))
  {
  }

  lemma CloseAgrees(w: World)
    requires Agrees(w)
    ensures Agrees(World(false, false, map[], map[], w.signals + [Closed]))
  {
    HistoryGrows(w.signals, Closed);
  }

  lemma DroppingAgrees(w: World, id: nat)
    requires Agrees(w) && id in w.table
    ensures Agrees(Dropping(w, w.table[id]))
  {
  }

  /** Whether a step keeps the agreement can be told before it is taken. */
  lemma StepAgreesIffSafe(w: World, step: Step)
    requires Agrees(w) && Enabled(w, step)
    ensures Agrees(Apply(w, step)) <==> Safe(w, step)
  {
    match step
    case PeerOpens(_, _) => LibraryStepAgrees(w, step);
    case PeerFades(_) => LibraryStepAgrees(w, step);
    case PeerCloses(_) => LibraryStepAgrees(w, step);
    case Deliver(event, found) =>
      match event {
        case Connect(slot) => ConnectAgreesIff(w, slot, found);
        case Receive(slot, data) => ReceiveAgrees(w, slot, data, found);
        case Disconnect(slot) => DisconnectAgrees(w, slot, found);
      }
    case Listen(created) =>
      if created && !w.hosting {
        ListenAgrees(w);
      }
    case DialTimesOut(slot) => DialTimeoutAgreesIff(w, slot);
    case DropNow(id) =>
      if id in w.table {
        DropNowAgrees(w, id);
      }
    case Drop(id) =>
      if id in w.table {
        DroppingAgrees(w, id);
      }
    case DropLater(id) =>
      if id in w.table {
        DroppingAgrees(w, id);
      }
    case Close => CloseAgrees(w);
  }

  // ----- runs -----

  predicate SafeThroughout(w: World, steps: seq<Step>)
    requires Possible(w, steps)
    decreases |steps|
  {
    steps == [] || (Safe(w, steps[0]) && SafeThroughout(Apply(w, steps[0]), steps[1..]))
  }

  predicate AgreesThroughout(w: World, steps: seq<Step>)
    requires Possible(w, steps)
    decreases |steps|
  {
    Agrees(w) && (steps == [] || AgreesThroughout(Apply(w, steps[0]), steps[1..]))
  }

  lemma {:induction false} AgreesThroughoutIffSafe(w: World, steps: seq<Step>)
    requires Agrees(w) && Possible(w, steps)
    ensures AgreesThroughout(w, steps) <==> SafeThroughout(w, steps)
    ensures SafeThroughout(w, steps) ==> Agrees(Run(w, steps))
    decreases |steps|
  {
    if steps != [] {
      StepAgreesIffSafe(w, steps[0]);
      if Safe(w, steps[0]) {
        AgreesThroughoutIffSafe(Apply(w, steps[0]), steps[1..]);
      } else {
        assert !AgreesThroughout(Apply(w, steps[0]), steps[1..]);
      }
    }
  }

  /**
   In every run of a new endpoint without a clashing id and without a late dial timeout, the table's
   keys are the ids announced and not since taken back, and every signal comes in its place.
   */
  lemma TableIsSignalHistory(steps: seq<Step>)
    requires Possible(INITIAL, steps) && SafeThroughout(INITIAL, steps)
    ensures var w := Run(INITIAL, steps);
      w.table.Keys == Announced(w.signals) && IsProperHistory(w.signals)
  {
    AgreesThroughoutIffSafe(INITIAL, steps);
  }

  // ----- composing runs -----

  lemma {:induction false} RunConcat(w: World, steps: seq<Step>, more: seq<Step>)
    requires Possible(w, steps) && Possible(Run(w, steps), more)
    ensures Possible(w, steps + more) && Run(w, steps + more) == Run(Run(w, steps), more)
    decreases |steps|
  {
    if steps == [] {
      assert [] + more == more;
    } else {
      assert (steps + more)[1..] == steps[1..] + more;
      RunConcat(Apply(w, steps[0]), steps[1..], more);
    }
  }

  lemma RunStep(w: World, steps: seq<Step>, step: Step)
    requires Possible(w, steps) && Enabled(Run(w, steps), step)
    ensures Possible(w, steps + [step]) && Run(w, steps + [step]) == Apply(Run(w, steps), step)
  {
    assert [step][1..] == [];
    RunConcat(w, steps, [step]);
  }

  // ----- the ids of slots -----

  predicate OpensSlot(step: Step, slot: nat) {
    step.PeerOpens? && step.slot == slot
  }

  /** The id under which a slot was last opened in the course of `steps`; `before` if it was not. */
  function LastId(steps: seq<Step>, slot: nat, before: nat): nat {
    if steps == [] then before
    else LastId(steps[1..], slot, if OpensSlot(steps[0], slot) then steps[0].id else before)
  }

  lemma {:induction false} FreeSlotIsOpened(w: World, steps: seq<Step>, slot: nat, id1: nat, id2: nat)
    requires Possible(w, steps) && slot !in w.peers && slot in Run(w, steps).peers
    ensures LastId(steps, slot, id1) == LastId(steps, slot, id2)
    decreases |steps|
  {
    if !OpensSlot(steps[0], slot) {
      FreeSlotIsOpened(Apply(w, steps[0]), steps[1..], slot, id1, id2);
    }
  }

  /** In every run, a slot in use has the id under which it was last opened. */
  lemma {:induction false} SlotHasLastId(w: World, steps: seq<Step>, slot: nat)
    requires Possible(w, steps) && slot in Run(w, steps).peers
    ensures Run(w, steps).peers[slot].id == LastId(steps, slot, ConnectId(w.peers, slot))
    decreases |steps|
  {
    if steps != [] {
      var v := Apply(w, steps[0]);
      SlotHasLastId(v, steps[1..], slot);
      if slot !in v.peers {
        FreeSlotIsOpened(v, steps[1..], slot, 0, ConnectId(w.peers, slot));
      }
    }
  }

  // ----- the data announced -----

  function DataSignals(signals: seq<Signal>): seq<Signal> {
    if signals == [] then []
    else
      var last := signals[|signals| - 1];
      DataSignals(signals[..|signals| - 1]) + if last.DataReceived? then [last] else []
  }

  /** The data of the signals that announce any, in order. */
  function Payloads(signals: seq<Signal>): seq<seq<nat>> {
    if signals == [] then []
    else
      var last := signals[|signals| - 1];
      Payloads(signals[..|signals| - 1]) + if last.DataReceived? then [last.data] else []
  }

  lemma OneMoreSignal(signals: seq<Signal>, signal: Signal)
    ensures DataSignals(signals + [signal]) == DataSignals(signals) + if signal.DataReceived? then [signal] else []
    ensures Payloads(signals + [signal]) == Payloads(signals) + if signal.DataReceived? then [signal.data] else []
  {
    assert (signals + [signal])[..|signals|] == signals;
  }

  /** What the reported data should be announced as: as it is, under the last id of its slot. */
  function DataOf(steps: seq<Step>, peers: map<nat, Connection>): seq<Signal> {
    if steps == [] then []
    else
      var earlier, last := steps[..|steps| - 1], steps[|steps| - 1];
      DataOf(earlier, peers)
      + if last.Deliver? && last.event.Receive? then
          [DataReceived(LastId(earlier, last.event.slot, ConnectId(peers, last.event.slot)), last.event.data)]
        else []
  }

  lemma {:induction false} RunToLast(w: World, steps: seq<Step>)
    requires steps != [] && Possible(w, steps)
    ensures var earlier, last := steps[..|steps| - 1], steps[|steps| - 1];
      && Possible(w, earlier) && Enabled(Run(w, earlier), last)
      && Run(w, steps) == Apply(Run(w, earlier), last)
    decreases |steps|
  {
    if |steps| > 1 {
      RunToLast(Apply(w, steps[0]), steps[1..]);
      assert steps[1..][..|steps| - 2] == steps[..|steps| - 1][1..];
    } else {
      assert steps[..0] == [] && steps[1..] == [];
    }
  }

  lemma StepAnnounces(w: World, step: Step)
    requires Enabled(w, step)
    ensures DataSignals(Apply(w, step).signals) == DataSignals(w.signals)
      + if step.Deliver? && step.event.Receive?
        then [DataReceived(w.peers[step.event.slot].id, step.event.data)] else []
  {
    var v := Apply(w, step);
    if v.signals != w.signals {
      OneMoreSignal(w.signals, v.signals[|w.signals|]);
      assert v.signals == w.signals + [v.signals[|w.signals|]];
    }
  }

  /**
   In every run: the data announced are exactly the data reported, in order, each under the id
   with which its slot was last opened.
   */
  lemma {:induction false} DataIsAnnouncedInOrder(w: World, steps: seq<Step>)
    requires Possible(w, steps)
    ensures DataSignals(Run(w, steps).signals) == DataSignals(w.signals) + DataOf(steps, w.peers)
    decreases |steps|
  {
    if steps == [] {
      assert DataSignals(w.signals) + [] == DataSignals(w.signals);
    } else {
      var earlier, last := steps[..|steps| - 1], steps[|steps| - 1];
      RunToLast(w, steps);
      DataIsAnnouncedInOrder(w, earlier);
      StepAnnounces(Run(w, earlier), last);
      if last.Deliver? && last.event.Receive? {
        SlotHasLastId(w, earlier, last.event.slot);
      }
    }
  }

  // ----- after asking for a disconnect -----

  /** The signals emitted in the course of a run. */
  function Emitted(w: World, steps: seq<Step>): seq<Signal>
    requires Possible(w, steps)
    decreases |steps|
  {
    if steps == [] then []
    else Apply(w, steps[0]).signals[|w.signals|..] + Emitted(Apply(w, steps[0]), steps[1..])
  }

  /** A step only adds to the history, and at most one signal. */
  lemma StepEmitsAtMostOne(w: World, step: Step)
    requires Enabled(w, step)
    ensures var v := Apply(w, step);
      |w.signals| <= |v.signals| <= |w.signals| + 1 && v.signals[..|w.signals|] == w.signals
  {
  }

  lemma {:induction false} EmittedIsWhatRunAdds(w: World, steps: seq<Step>)
    requires Possible(w, steps)
    ensures Run(w, steps).signals == w.signals + Emitted(w, steps)
    decreases |steps|
  {
    if steps == [] {
      assert w.signals + [] == w.signals;
    } else {
      var v := Apply(w, steps[0]);
      StepEmitsAtMostOne(w, steps[0]);
      EmittedIsWhatRunAdds(v, steps[1..]);
      AddedThenMore(w.signals, v.signals, Emitted(v, steps[1..]));
    }
  }

  lemma AddedThenMore(signals: seq<Signal>, longer: seq<Signal>, more: seq<Signal>)
    requires |signals| <= |longer| && longer[..|signals|] == signals
    ensures longer + more == signals + (longer[|signals|..] + more)
  {
  }

  predicate IsClosing(w: World, id: nat) {
    id in w.table && w.table[id] in w.peers && w.peers[w.table[id]].phase == Closing
  }

  predicate Takes(signal: Signal, id: nat) {
    signal == Disconnected(id) || signal == Closed
  }

  predicate TakenBefore(signals: seq<Signal>, k: int, id: nat) {
    exists j :: 0 <= j < k && j < |signals| && Takes(signals[j], id)
  }

  /** Data for `id` comes only after `id` has been taken back. */
  predicate DataOnlyAfterTaken(signals: seq<Signal>, id: nat) {
    forall k | 0 <= k < |signals| && signals[k].DataReceived? && signals[k].id == id ::
      TakenBefore(signals, k, id)
  }

  /** A step keeps a closing connection closing, and silent, or announces that it is gone. */
  lemma StepOfClosing(w: World, id: nat, step: Step)
    requires Agrees(w) && Enabled(w, step) && Safe(w, step) && IsClosing(w, id)
    ensures var v := Apply(w, step);
      var emitted := v.signals[|w.signals|..];
      || (emitted != [] && Takes(emitted[0], id))
      || (IsClosing(v, id) && (emitted != [] ==> !(emitted[0].DataReceived? && emitted[0].id == id)))
  {
    if step.Deliver? && step.event.Disconnect? {
      ReverseLookupIsExact(w, step.event.slot, step.found);
    } else if step.DropNow? && step.id in w.table {
      DropNowAgrees(w, step.id);
    }
  }

  lemma DataAfterTaking(first: Signal, later: seq<Signal>, id: nat)
    requires Takes(first, id)
    ensures DataOnlyAfterTaken([first] + later, id)
  {
    var all := [first] + later;
    forall k | 0 <= k < |all| && all[k].DataReceived? && all[k].id == id
      ensures TakenBefore(all, k, id)
    {
      assert 0 < k && Takes(all[0], id);
    }
  }

  lemma DataAfterOther(first: Signal, later: seq<Signal>, id: nat)
    requires !(first.DataReceived? && first.id == id) && DataOnlyAfterTaken(later, id)
    ensures DataOnlyAfterTaken([first] + later, id)
  {
    var all := [first] + later;
    forall k | 0 <= k < |all| && all[k].DataReceived? && all[k].id == id
      ensures TakenBefore(all, k, id)
    {
      assert k > 0 && later[k - 1] == all[k];
      assert TakenBefore(later, k - 1, id);
      var j :| 0 <= j < k - 1 && j < |later| && Takes(later[j], id);
      assert Takes(all[j + 1], id);
    }
  }

  lemma {:induction false} ClosingStaysSilent(w: World, id: nat, steps: seq<Step>)
    requires Agrees(w) && Possible(w, steps) && SafeThroughout(w, steps) && IsClosing(w, id)
    ensures DataOnlyAfterTaken(Emitted(w, steps), id)
    decreases |steps|
  {
    if steps != [] {
      var v := Apply(w, steps[0]);
      StepOfClosing(w, id, steps[0]);
      StepEmitsAtMostOne(w, steps[0]);
      StepAgreesIffSafe(w, steps[0]);
      var emitted, later := v.signals[|w.signals|..], Emitted(v, steps[1..]);
      if emitted != [] && Takes(emitted[0], id) {
        assert emitted == [emitted[0]];
        DataAfterTaking(emitted[0], later, id);
      } else {
        ClosingStaysSilent(v, id, steps[1..]);
        if emitted == [] {
          assert emitted + later == later;
        } else {
          assert emitted == [emitted[0]];
          DataAfterOther(emitted[0], later, id);
        }
      }
    }
  }

  /**
   After `disconnect` or `disconnectLater`, in every safe run: no data is announced under the id
   before it has been announced as disconnected, or the endpoint been closed.
   */
  lemma DroppedPeerStaysSilent(w: World, id: nat, later: bool, steps: seq<Step>)
    requires Agrees(w) && id in w.table
    requires var v := Apply(w, if later then DropLater(id) else Drop(id));
      Possible(v, steps) && SafeThroughout(v, steps)
    ensures var v := Apply(w, if later then DropLater(id) else Drop(id));
      Run(v, steps).signals == w.signals + Emitted(v, steps) && DataOnlyAfterTaken(Emitted(v, steps), id)
  {
    var step := if later then DropLater(id) else Drop(id);
    StepAgreesIffSafe(w, step);
    ClosingStaysSilent(Apply(w, step), id, steps);
    EmittedIsWhatRunAdds(Apply(w, step), steps);
  }

  // ----- what goes wrong otherwise -----

  /** Two connections come up under one id: the table leads to the second, the first is out of reach. */
  lemma TakenIdHidesPeer(id: nat)
    requires id != 0
    ensures var a := Apply(Apply(INITIAL, Listen(true)), PeerOpens(0, id));
      var b := Apply(Apply(a, Deliver(Connect(0), 0)), PeerOpens(1, id));
      var c := Apply(b, Deliver(Connect(1), 0));
      && Agrees(b) && !Agrees(c)
      && c.table == map[id := 1]
      && c.peers == map[0 := Connection(id, Open), 1 := Connection(id, Open)]
  {
    TwoOpenUnderOneId(id);
    var b := TwoUnderOneId(id);
    ClashingConnectDisagrees(b, 1, 0);
    assert map[id := 0][id := 1] == map[id := 1];
  }

  function TwoUnderOneId(id: nat): World {
    World(
      true, true, map[0 := Connection(id, Open), 1 := Connection(id, Opening)], map[id := 0], [Connected(id)])
  }

  lemma TwoOpenUnderOneId(id: nat)
    requires id != 0
    ensures var a := Apply(Apply(INITIAL, Listen(true)), PeerOpens(0, id));
      var b := Apply(Apply(a, Deliver(Connect(0), 0)), PeerOpens(1, id));
      b == TwoUnderOneId(id) && Agrees(b)
  {
    var a := Apply(Apply(INITIAL, Listen(true)), PeerOpens(0, id));
    FirstPeerAgrees(id);
    StepAgreesIffSafe(Apply(a, Deliver(Connect(0), 0)), PeerOpens(1, id));
  }

  lemma FirstPeerAgrees(id: nat)
    requires id != 0
    ensures var a := Apply(Apply(INITIAL, Listen(true)), PeerOpens(0, id));
      Agrees(Apply(a, Deliver(Connect(0), 0)))
  {
    var listening := Apply(INITIAL, Listen(true));
    StepAgreesIffSafe(INITIAL, Listen(true));
    StepAgreesIffSafe(listening, PeerOpens(0, id));
    StepAgreesIffSafe(Apply(listening, PeerOpens(0, id)), Deliver(Connect(0), 0));
  }

  /** A dial that times out late leaves an entry behind, and the slot's next user is taken for it. */
  lemma LateTimeoutConfusesPeers(slot: nat, first: nat, second: nat)
    requires first != 0 && second != 0 && first != second
    ensures var a := Apply(Apply(INITIAL, Listen(true)), PeerOpens(slot, first));
      var b := Apply(Apply(a, Deliver(Connect(slot), 0)), Drop(first));
      var c := Apply(Apply(b, DialTimesOut(slot)), PeerOpens(slot, second));
      var d := Apply(c, Deliver(Connect(slot), 0));
      && d.table == map[first := slot, second := slot]
      && Enabled(d, Deliver(Disconnect(slot), first))
      && Apply(d, Deliver(Disconnect(slot), first)).table == map[second := slot]
      && Apply(d, Deliver(Disconnect(slot), first)).peers == map[]
  {
    var a := Apply(Apply(INITIAL, Listen(true)), PeerOpens(slot, first));
    var b := Apply(Apply(a, Deliver(Connect(slot), 0)), Drop(first));
    var c := Apply(Apply(b, DialTimesOut(slot)), PeerOpens(slot, second));
    var d := Apply(c, Deliver(Connect(slot), 0));
    assert d.table == map[first := slot, second := slot];
    assert d.table[first] == slot;
    assert slot in d.table.Values;
    assert d.peers == map[slot := Connection(second, Open)];
  }
}
