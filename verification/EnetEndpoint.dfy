/** The protocol endpoint with the fields it updates, on top of the library's host object. */
module EnetEndpoint {
  import opened EnetWorld
  import opened EnetProperties

  /** The library's side: the peer slots in use, and what its calls do to them. */
  class ENetHost {
    var peers: map<nat, Connection>

    constructor ()
      ensures peers == map[]
    {
      peers := map[];
    }

    /** The id field of a slot; a slot that has been reset reads as 0. */
    method ConnectID(slot: nat) returns (id: nat)
      ensures id == ConnectId(peers, slot)
    {
      if slot in peers {
        id := peers[slot].id;
      } else {
        id := 0;
      }
    }

    /** What the library does by itself: a peer opens a slot, vanishes, or begins to close. */
    method Advance(step: Step)
      requires LibraryCan(peers, step)
      modifies this
      ensures peers == AfterLibrary(old(peers), step)
    {
      match step {
        case PeerOpens(slot, id) => peers := peers[slot := Connection(id, Opening)];
        case PeerFades(slot) => Reset(slot);
        case PeerCloses(slot) => Disconnect(slot);
      }
    }

    /** What the library has done by the time it reports an event. */
    method Report(event: Event)
      requires CanReport(peers, event)
      modifies this
      ensures peers == AfterReport(old(peers), event)
    {
      match event {
        case Connect(slot) => peers := peers[slot := Connection(peers[slot].id, Open)];
        case Receive(_, _) =>
        case Disconnect(slot) => Reset(slot);
      }
    }

    method IsConnected(slot: nat) returns (connected: bool)
      ensures connected <==> slot in peers && peers[slot].phase == Open
    {
      connected := slot in peers && peers[slot].phase == Open;
    }

    method Reset(slot: nat)
      modifies this
      ensures peers == old(peers) - {slot}
    {
      peers := peers - {slot};
    }

    /** Asks for a disconnect; the event for a connection that was up follows once it is complete. */
    method Disconnect(slot: nat)
      modifies this
      ensures peers == BeginDisconnect(old(peers), slot)
    {
      if slot in peers {
        if peers[slot].phase == Opening {
          Reset(slot);
        } else {
          peers := peers[slot := Connection(peers[slot].id, Closing)];
        }
      }
    }
  }

  /** A service call fails, has nothing to report, or reports an event. */
  datatype ServiceResult = Failed | Nothing | Reported(event: Event)

  /** One round of an event loop: what the library does before its service call returns, and the result. */
  datatype Round = Round(library: seq<Step>, result: ServiceResult)

  predicate LibraryCanAll(peers: map<nat, Connection>, steps: seq<Step>)
    decreases |steps|
  {
    steps == []
    || (LibraryCan(peers, steps[0]) && LibraryCanAll(AfterLibrary(peers, steps[0]), steps[1..]))
  }

  function AfterLibraryAll(peers: map<nat, Connection>, steps: seq<Step>): map<nat, Connection>
    requires LibraryCanAll(peers, steps)
    decreases |steps|
  {
    if steps == [] then peers else AfterLibraryAll(AfterLibrary(peers, steps[0]), steps[1..])
  }

  predicate CanServe(peers: map<nat, Connection>, round: Round) {
    && LibraryCanAll(peers, round.library)
    && (round.result.Reported? ==> CanReport(AfterLibraryAll(peers, round.library), round.result.event))
  }

  function AfterRound(peers: map<nat, Connection>, round: Round): map<nat, Connection>
    requires CanServe(peers, round)
  {
    var ready := AfterLibraryAll(peers, round.library);
    if round.result.Reported? then AfterReport(ready, round.result.event) else ready
  }

  /** Rounds that the library can go through in turn. */
  predicate Serviceable(peers: map<nat, Connection>, rounds: seq<Round>)
    decreases |rounds|
  {
    rounds == [] || (CanServe(peers, rounds[0]) && Serviceable(AfterRound(peers, rounds[0]), rounds[1..]))
  }

  /** The atomic steps of a round: the library's own, and then that of the event. */
  predicate AreStepsOf(steps: seq<Step>, round: Round) {
    if round.result.Reported? then
      && |steps| == |round.library| + 1 && steps[..|round.library|] == round.library
      && steps[|round.library|].Deliver? && steps[|round.library|].event == round.result.event
    else steps == round.library
  }

  function StepCount(round: Round): nat {
    |round.library| + if round.result.Reported? then 1 else 0
  }

  predicate AreStepsOfAll(steps: seq<Step>, rounds: seq<Round>)
    decreases |rounds|
  {
    if rounds == [] then steps == []
    else
      var last := rounds[|rounds| - 1];
      var n := |steps| - StepCount(last);
      && n >= 0 && AreStepsOf(steps[n..], last)
      && AreStepsOfAll(steps[..n], rounds[..|rounds| - 1])
  }

  function EventCount(rounds: seq<Round>): nat {
    if rounds == [] then 0
    else EventCount(rounds[..|rounds| - 1]) + (if rounds[|rounds| - 1].result.Reported? then 1 else 0)
  }

  /** The rounds whose service call reports an event. */
  function Reporting(rounds: seq<Round>): set<nat> {
    set i: nat | i < |rounds| && rounds[i].result.Reported?
  }

  lemma {:induction false} EventCountIsReporting(rounds: seq<Round>)
    ensures EventCount(rounds) == |Reporting(rounds)|
  {
    if rounds == [] {
      assert Reporting(rounds) == {};
    } else {
      var k := |rounds| - 1;
      EventCountIsReporting(rounds[..k]);
      assert Reporting(rounds) == Reporting(rounds[..k]) + if rounds[k].result.Reported? then {k} else {};
    }
  }

  lemma RoundAdded(steps: seq<Step>, more: seq<Step>, rounds: seq<Round>, i: nat)
    requires i < |rounds| && AreStepsOfAll(steps, rounds[..i]) && AreStepsOf(more, rounds[i])
    ensures AreStepsOfAll(steps + more, rounds[..i + 1])
    ensures EventCount(rounds[..i + 1]) == EventCount(rounds[..i]) + (if rounds[i].result.Reported? then 1 else 0)
  {
    assert rounds[..i + 1][..i] == rounds[..i];
    assert (steps + more)[|steps|..] == more && (steps + more)[..|steps|] == steps;
  }

  /** The slots after the first `k` rounds. */
  function AfterRounds(peers: map<nat, Connection>, rounds: seq<Round>, k: nat): map<nat, Connection>
    requires Serviceable(peers, rounds) && k <= |rounds|
    decreases k
  {
    if k == 0 then peers else AfterRounds(AfterRound(peers, rounds[0]), rounds[1..], k - 1)
  }

  /** The slot is up after the first `k` rounds. */
  predicate IsUpAfter(peers: map<nat, Connection>, rounds: seq<Round>, k: nat, slot: nat)
    requires Serviceable(peers, rounds) && k <= |rounds|
  {
    var after := AfterRounds(peers, rounds, k);
    slot in after && after[slot].phase == Open
  }

  lemma {:induction false} OneMoreRound(peers: map<nat, Connection>, rounds: seq<Round>, k: nat)
    requires Serviceable(peers, rounds) && k < |rounds|
    ensures var before := AfterRounds(peers, rounds, k);
      CanServe(before, rounds[k]) && AfterRounds(peers, rounds, k + 1) == AfterRound(before, rounds[k])
    decreases k
  {
    if k > 0 {
      OneMoreRound(AfterRound(peers, rounds[0]), rounds[1..], k - 1);
    }
  }

  /** The data that the rounds report, in order. */
  function ReceivedData(rounds: seq<Round>): seq<seq<nat>> {
    if rounds == [] then []
    else ReceivedData(rounds[..|rounds| - 1]) + RoundData(rounds[|rounds| - 1])
  }

  function RoundData(round: Round): seq<seq<nat>> {
    if round.result.Reported? && round.result.event.Receive? then [round.result.event.data] else []
  }

  /** `now` is the world that has come of `start` when the first `i` rounds have been served in `steps`. */
  predicate Served(start: World, steps: seq<Step>, rounds: seq<Round>, i: nat, now: World) {
    && Serviceable(start.peers, rounds) && i <= |rounds|
    && now.peers == AfterRounds(start.peers, rounds, i)
    && Possible(start, steps) && now == Run(start, steps)
    && AreStepsOfAll(steps, rounds[..i])
    && Payloads(now.signals) == Payloads(start.signals) + ReceivedData(rounds[..i])
  }

  lemma NoneServed(start: World, rounds: seq<Round>)
    requires Serviceable(start.peers, rounds)
    ensures Served(start, [], rounds, 0, start)
  {
    assert rounds[..0] == [] && Payloads(start.signals) + [] == Payloads(start.signals);
  }

  lemma OneMoreServed(
    start: World, steps: seq<Step>, rounds: seq<Round>, i: nat, before: World, taken: seq<Step>, now: World)
    requires i < |rounds| && Served(start, steps, rounds, i, before)
    requires Possible(before, taken) && now == Run(before, taken) && AreStepsOf(taken, rounds[i])
    requires CanServe(before.peers, rounds[i]) && now.peers == AfterRound(before.peers, rounds[i])
    requires Payloads(now.signals) == Payloads(before.signals) + RoundData(rounds[i])
    ensures Served(start, steps + taken, rounds, i + 1, now)
    ensures EventCount(rounds[..i + 1]) == EventCount(rounds[..i]) + (if rounds[i].result.Reported? then 1 else 0)
  {
    assert now.peers == AfterRounds(start.peers, rounds, i + 1) by {
      OneMoreRound(start.peers, rounds, i);
    }
    assert Possible(start, steps + taken) && now == Run(start, steps + taken) by {
      RunConcat(start, steps, taken);
    }
    RoundAdded(steps, taken, rounds, i);
    DataAdded(Payloads(start.signals), Payloads(before.signals), rounds, i);
  }

  lemma DataAdded(data: seq<seq<nat>>, soFar: seq<seq<nat>>, rounds: seq<Round>, i: nat)
    requires i < |rounds| && soFar == data + ReceivedData(rounds[..i])
    ensures soFar + RoundData(rounds[i]) == data + ReceivedData(rounds[..i + 1])
  {
    assert rounds[..i + 1][..i] == rounds[..i];
  }

  /** The slot is not up after any of the first `i` rounds. */
  ghost predicate NotUpThrough(peers: map<nat, Connection>, rounds: seq<Round>, i: nat, slot: nat)
    requires Serviceable(peers, rounds) && i <= |rounds|
  {
    forall k: nat | 1 <= k <= i :: !IsUpAfter(peers, rounds, k, slot)
  }

  lemma NotUpEither(peers: map<nat, Connection>, rounds: seq<Round>, i: nat, slot: nat)
    requires Serviceable(peers, rounds) && i <= |rounds|
    requires i > 0 ==> NotUpThrough(peers, rounds, i - 1, slot) && !IsUpAfter(peers, rounds, i, slot)
    ensures NotUpThrough(peers, rounds, i, slot)
  {
  }

  /** A peer may open within the round that reports it, also to a host that has none yet. */
  lemma NewPeerIsServed(slot: nat, id: nat)
    ensures var rounds := [Round([PeerOpens(slot, id)], Reported(Connect(slot)))];
      Serviceable(map[], rounds) && EventCount(rounds) == 1
  {
    var none: map<nat, Connection>, step := map[], PeerOpens(slot, id);
    var rounds := [Round([step], Reported(Connect(slot)))];
    assert [step][1..] == [] && rounds[1..] == [] && rounds[..0] == [];
    assert LibraryCanAll(none, [step]) && AfterLibraryAll(none, [step]) == AfterLibrary(none, step);
    assert CanServe(none, rounds[0]);
  }

  /** The slot is on its way down, or free if it was not up yet; all others are as they were. */
  predicate IsDropped(before: map<nat, Connection>, after: map<nat, Connection>, slot: nat) {
    && (slot in after <==> slot in before && before[slot].phase != Opening)
    && (slot in after ==> after[slot] == Connection(before[slot].id, Closing))
    && after - {slot} == before - {slot}
  }

  /** What the library makes of a dial: no slot is free, or a slot and an id are given to it. */
  datatype Dialled = NoSlot | Slot(slot: nat, id: nat)

  class Endpoint {
    var listening: bool
    var threadCount: int
    var localServer: ENetHost?
    var peersHash: map<nat, nat>
    /** The signals emitted so far. */
    var signals: seq<Signal>

    ghost function View(): World
      reads this, localServer
    {
      World(listening, localServer != null, if localServer == null then map[] else localServer.peers,
            peersHash, signals)
    }

    constructor ()
      ensures View() == INITIAL && threadCount == 0
    {
      listening, threadCount := false, 0;
      localServer := null;
      peersHash, signals := map[], [];
    }

    /** `created` is the new host, or null when the library cannot create one. */
    method Listen(created: ENetHost?) returns (ok: bool)
      requires created != null ==> created.peers == map[]
      modifies this`listening, this`localServer
      ensures View() == Apply(old(View()), Step.Listen(created != null))
      ensures ok <==> old(localServer) == null && created != null
      ensures if ok then listening && localServer == created
              else listening == old(listening) && localServer == old(localServer)
      ensures Agrees(old(View())) ==> Agrees(View())
    {
      if localServer != null {
        return false;
      }
      localServer := created;
      if localServer == null {
        return false;
      }
      listening := true;
      return listening;
    }

    /** Closing, from the point at which it no longer waits for event loops. */
    method Close()
      modifies this`listening, this`localServer, this`peersHash, this`signals
      ensures View() == Apply(old(View()), Step.Close)
      ensures !listening && localServer == null && peersHash == map[]
      ensures signals == old(signals) + [Closed]
      ensures Agrees(old(View())) ==> Agrees(View()) && Announced(signals) == {}
    {
      ghost var before := View();
      if Agrees(before) {
        StepAgreesIffSafe(before, Step.Close);
      }
      listening := false;
      localServer := null;
      peersHash := map[];
      signals := signals + [Closed];
    }

    /** The reverse lookup: some key with the given value, or 0. */
    method KeyOf(slot: nat) returns (id: nat)
      ensures IsKeyOf(peersHash, slot, id)
    {
      if slot in peersHash.Values {
        id :| id in peersHash && peersHash[id] == slot;
      } else {
        id := 0;
      }
    }

    /** Acts on one reported event; `step` is the atomic step that was taken. */
    method HandleEvent(event: Event) returns (ghost step: Step)
      requires localServer != null && CanReport(localServer.peers, event)
      modifies this`peersHash, this`signals, localServer
      ensures step.Deliver? && step.event == event && Enabled(old(View()), step)
      ensures View() == Apply(old(View()), step)
      ensures var id := old(localServer.peers)[event.slot].id;
        match event
        case Connect(slot) =>
          peersHash == old(peersHash)[id := slot] && signals == old(signals) + [Connected(id)]
        case Receive(_, data) =>
          peersHash == old(peersHash) && signals == old(signals) + [DataReceived(id, data)]
        case Disconnect(slot) =>
          && (if slot in old(peersHash).Values
              then step.found in old(peersHash) && old(peersHash)[step.found] == slot else step.found == 0)
          && peersHash == old(peersHash) - {step.found}
          && signals == old(signals) + [Disconnected(step.found)]
      ensures Agrees(old(View())) ==> (Agrees(View()) <==> Safe(old(View()), step))
    {
      ghost var before := View();
      step := Deliver(event, 0);
      localServer.Report(event);
      match event {
        case Connect(slot) =>
          var id := localServer.ConnectID(slot);
          peersHash := peersHash[id := slot];
          signals := signals + [Connected(id)];
        case Receive(slot, data) =>
          var id := localServer.ConnectID(slot);
          signals := signals + [DataReceived(id, data)];
        case Disconnect(slot) =>
          var peerID := KeyOf(slot);
          peersHash := peersHash - {peerID};
          signals := signals + [Disconnected(peerID)];
          step := Deliver(event, peerID);
      }
      if Agrees(before) {
        StepAgreesIffSafe(before, step);
      }
    }

    /** One round: the library goes its way, and what it then reports is acted on. */
    method ServeRound(round: Round) returns (ghost steps: seq<Step>)
      requires localServer != null && CanServe(localServer.peers, round)
      modifies this`peersHash, this`signals, localServer
      ensures localServer.peers == AfterRound(old(localServer.peers), round)
      ensures Possible(old(View()), steps) && View() == Run(old(View()), steps)
      ensures AreStepsOf(steps, round)
      ensures Payloads(signals) == Payloads(old(signals)) + RoundData(round)
    {
      steps := [];
      var i := 0;
      while i < |round.library|
        invariant i <= |round.library| && steps == round.library[..i]
        invariant LibraryCanAll(localServer.peers, round.library[i..])
        invariant AfterLibraryAll(localServer.peers, round.library[i..])
               == AfterLibraryAll(old(localServer.peers), round.library)
        invariant Possible(old(View()), steps) && View() == Run(old(View()), steps)
        invariant signals == old(signals)
      {
        var step := round.library[i];
        assert round.library[i..][1..] == round.library[i + 1..];
        localServer.Advance(step);
        RunStep(old(View()), steps, step);
        steps := steps + [step];
        i := i + 1;
      }
      assert round.library[..i] == round.library;
      if round.result.Reported? {
        ghost var step := HandleEvent(round.result.event);
        RunStep(old(View()), steps, step);
        steps := steps + [step];
        OneMoreSignal(old(signals), signals[|signals| - 1]);
      }
    }

    /**
     The rounds of one event loop, up to the point where another thread stops it; an endpoint that is
     not listening serves none. `steps` are the atomic steps taken meanwhile by the library and the
     loop. Every round with an event gives back one count of the thread counter, which the loop has
     taken only once. The data reported are announced as they are, each under its slot's last id.
     */
    method WaitForIO(rounds: seq<Round>) returns (ghost steps: seq<Step>)
      requires listening ==> localServer != null && Serviceable(localServer.peers, rounds)
      modifies this`threadCount, this`peersHash, this`signals, localServer
      ensures Possible(old(View()), steps) && View() == Run(old(View()), steps)
      ensures var served := if listening then rounds else [];
        && AreStepsOfAll(steps, served) && threadCount == old(threadCount) + 1 - EventCount(served)
        && Payloads(signals) == Payloads(old(signals)) + ReceivedData(served)
      ensures DataSignals(signals) == DataSignals(old(signals)) + DataOf(steps, old(View()).peers)
      ensures Agrees(old(View())) && SafeThroughout(old(View()), steps) ==> Agrees(View())
    {
      threadCount := threadCount + 1;
      steps := [];
      ghost var start := View();
      if listening {
        NoneServed(start, rounds);
      }
      var i := 0;
      while listening && i < |rounds|
        invariant i <= |rounds| && (!listening ==> i == 0 && steps == [] && View() == start)
        invariant listening ==> localServer != null && Served(start, steps, rounds, i, View())
        invariant threadCount == old(threadCount) + 1 - EventCount(rounds[..i])
        decreases |rounds| - i
      {
        OneMoreRound(start.peers, rounds, i);
        ghost var before := View();
        ghost var taken := ServeRound(rounds[i]);
        OneMoreServed(start, steps, rounds, i, before, taken, View());
        steps := steps + taken;
        if rounds[i].result.Reported? {
          threadCount := threadCount - 1;
        }
        i := i + 1;
      }
      assert listening ==> rounds[..i] == rounds;
      DataIsAnnouncedInOrder(start, steps);
      if Agrees(start) {
        AgreesThroughoutIffSafe(start, steps);
      }
    }

    /**
     Waits until the slot is connected or the time is up, which it is after the last round, whatever
     that brought. `served` is the number of rounds that passed, `steps` what was done in them.
     */
    method AwaitConnection(slot: nat, rounds: seq<Round>)
      returns (connected: bool, ghost served: nat, ghost steps: seq<Step>)
      requires localServer != null && Serviceable(localServer.peers, rounds)
      requires slot in localServer.peers && localServer.peers[slot].phase == Opening
      modifies this`peersHash, this`signals, localServer
      ensures served <= |rounds| && Served(old(View()), steps, rounds, served, View())
      ensures if connected then 1 <= served < |rounds| && IsUpAfter(old(localServer.peers), rounds, served, slot)
              else served == |rounds|
      ensures served > 0 ==> NotUpThrough(old(localServer.peers), rounds, served - 1, slot)
    {
      steps := [];
      ghost var start := View();
      NoneServed(start, rounds);
      var i := 0;
      connected := localServer.IsConnected(slot);
      while !connected
        invariant i <= |rounds| && Served(start, steps, rounds, i, View())
        invariant connected ==> 1 <= i < |rounds|
        invariant i > 0 ==> (connected <==> IsUpAfter(start.peers, rounds, i, slot))
        invariant i > 0 ==> NotUpThrough(start.peers, rounds, i - 1, slot)
        decreases |rounds| - i, !connected
      {
        if i < |rounds| {
          NotUpEither(start.peers, rounds, i, slot);
          OneMoreRound(start.peers, rounds, i);
          ghost var before := View();
          ghost var taken := ServeRound(rounds[i]);
          OneMoreServed(start, steps, rounds, i, before, taken, View());
          steps := steps + taken;
          i := i + 1;
        }
        if i == |rounds| {
          return false, i, steps;
        }
        connected := localServer.IsConnected(slot);
      }
      served := i;
    }

    /**
     Dials, and waits until the slot is connected or the time is up. `rounds` is what the library and
     the event loop do meanwhile, up to that time; `steps` are the atomic steps taken, `during` those
     of the rounds, of which `served` passed. The slot may have faded and been opened again by then:
     the id returned is the one it was last opened with.
     */
    method ConnectToHost(dialled: Dialled, rounds: seq<Round>)
      returns (ok: bool, peerID: nat, ghost steps: seq<Step>, ghost during: seq<Step>, ghost served: nat)
      requires localServer != null && dialled.Slot? ==>
        && dialled.slot !in localServer.peers
        && Serviceable(localServer.peers[dialled.slot := Connection(dialled.id, Opening)], rounds)
      modifies this`peersHash, this`signals, localServer
      ensures Possible(old(View()), steps) && View() == Run(old(View()), steps)
      ensures localServer == null || dialled.NoSlot? ==> !ok && steps == []
      ensures localServer != null && dialled.Slot? ==>
        var dialling := old(localServer.peers)[dialled.slot := Connection(dialled.id, Opening)];
        && served <= |rounds| && AreStepsOfAll(during, rounds[..served])
        && (ok <==> exists k: nat :: 1 <= k < |rounds| && IsUpAfter(dialling, rounds, k, dialled.slot))
        && (if ok then 1 <= served < |rounds| && IsUpAfter(dialling, rounds, served, dialled.slot)
            else served == |rounds|)
        && (forall k: nat | 1 <= k < served :: k == |rounds| || !IsUpAfter(dialling, rounds, k, dialled.slot))
        && steps == [PeerOpens(dialled.slot, dialled.id)] + during
             + (if ok || dialled.slot !in AfterRounds(dialling, rounds, served) then []
                else [DialTimesOut(dialled.slot)])
        && localServer.peers == AfterRounds(dialling, rounds, served) - (if ok then {} else {dialled.slot})
      ensures ok ==> localServer != null && dialled.Slot?
      ensures ok ==> dialled.slot in View().peers && View().peers[dialled.slot] == Connection(peerID, Open)
      ensures ok ==> peerID == LastId(steps[1..], dialled.slot, dialled.id)
      ensures ok && Agrees(View()) ==>
        peerID in peersHash && peersHash[peerID] == dialled.slot && peerID in Announced(signals)
    {
      ok, peerID, steps, during, served := false, 0, [], [], 0;
      if localServer == null || dialled.NoSlot? {
        return;
      }
      var slot := dialled.slot;
      ghost var dial := PeerOpens(slot, dialled.id);
      localServer.Advance(PeerOpens(slot, dialled.id));
      RunStep(old(View()), [], dial);
      ok, served, during := AwaitConnection(slot, rounds);
      RunConcat(old(View()), [dial], during);
      steps := [dial] + during;
      if !ok {
        if slot in localServer.peers {
          RunStep(old(View()), steps, DialTimesOut(slot));
          steps := steps + [DialTimesOut(slot)];
        }
        localServer.Reset(slot);
        return;
      }
      peerID := localServer.ConnectID(slot);
      SlotHasLastId(old(View()), steps, slot);
    }

    method DisconnectNow(peerID: nat)
      requires peersHash != map[] ==> localServer != null
      modifies this`peersHash, this`signals, localServer
      ensures View() == Apply(old(View()), DropNow(peerID))
      ensures if peerID !in old(peersHash) then peersHash == old(peersHash) && signals == old(signals)
              else
                var slot := old(peersHash)[peerID];
                var id := if slot in old(localServer.peers) then old(localServer.peers)[slot].id else 0;
                && peersHash == old(peersHash) - {id} && signals == old(signals) + [Disconnected(id)]
                && slot !in localServer.peers
      ensures Agrees(old(View())) ==> Agrees(View()) && peerID !in peersHash
    {
      ghost var before := View();
      if Agrees(before) {
        StepAgreesIffSafe(before, DropNow(peerID));
      }
      if peerID !in peersHash {
        return;
      }
      var slot := peersHash[peerID];
      var id := localServer.ConnectID(slot);
      peersHash := peersHash - {id};
      localServer.Reset(slot);
      signals := signals + [Disconnected(id)];
    }

    method Disconnect(peerID: nat)
      requires peersHash != map[] ==> localServer != null
      modifies localServer
      ensures View() == Apply(old(View()), Drop(peerID))
      ensures peerID in peersHash ==> IsDropped(old(localServer.peers), localServer.peers, peersHash[peerID])
      ensures Agrees(old(View())) ==> Agrees(View())
    {
      ghost var before := View();
      if Agrees(before) {
        StepAgreesIffSafe(before, Drop(peerID));
      }
      if peerID !in peersHash {
        return;
      }
      localServer.Disconnect(peersHash[peerID]);
    }

    method DisconnectLater(peerID: nat)
      requires peersHash != map[] ==> localServer != null
      modifies localServer
      ensures View() == Apply(old(View()), DropLater(peerID))
      ensures peerID in peersHash ==> IsDropped(old(localServer.peers), localServer.peers, peersHash[peerID])
      ensures Agrees(old(View())) ==> Agrees(View())
    {
      ghost var before := View();
      if Agrees(before) {
        StepAgreesIffSafe(before, DropLater(peerID));
      }
      if peerID !in peersHash {
        return;
      }
      localServer.Disconnect(peersHash[peerID]);
    }
  }
}
