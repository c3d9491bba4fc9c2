/**
 The peer table of the protocol endpoint against the ENet library: the library's peer slots, the
 endpoint's table from connection ids to slots, the signals emitted so far, and the atomic steps
 that either side can take.
 */
module EnetWorld {

  /** A slot's connection: being set up, announced and usable, or on its way down. */
  datatype Phase = Opening | Open | Closing

  datatype Connection = Connection(id: nat, phase: Phase)

  /** The last one is no signal of the program: it records that the endpoint was closed. */
  datatype Signal =
    | Connected(id: nat)
    | Disconnected(id: nat)
    | DataReceived(id: nat, data: seq<nat>)
    | Closed

  /** `peers` holds the slots in use; the id of a slot that is not in use reads as 0. */
  datatype World = World(
    listening: bool, hosting: bool, peers: map<nat, Connection>, table: map<nat, nat>,
    signals: seq<Signal>)

  const INITIAL := World(false, false, map[], map[], [])

  /** What one call of the library's service routine can report. */
  datatype Event =
    | Connect(slot: nat)
    | Receive(slot: nat, data: seq<nat>)
    | Disconnect(slot: nat)

  datatype Step =
    // the library and the network
    | PeerOpens(slot: nat, id: nat)
    | PeerFades(slot: nat)
    | PeerCloses(slot: nat)
    // the event loop; `found` is the key that the reverse lookup of a disconnect yields
    | Deliver(event: Event, found: nat)
    // calls on the endpoint
    | Listen(created: bool)
    | DialTimesOut(slot: nat)
    | DropNow(id: nat)
    | Drop(id: nat)
    | DropLater(id: nat)
    | Close

  function ConnectId(peers: map<nat, Connection>, slot: nat): nat {
    if slot in peers then peers[slot].id else 0
  }

  /** The keys a reverse lookup may yield: any key of the value, or 0 when there is none. */
  predicate IsKeyOf(table: map<nat, nat>, slot: nat, found: nat) {
    if slot in table.Values then found in table && table[found] == slot else found == 0
  }

  /** The steps that the library takes by itself: peers open, vanish or begin to close. */
  predicate LibraryCan(peers: map<nat, Connection>, step: Step) {
    match step
    case PeerOpens(slot, _) => slot !in peers
    case PeerFades(slot) => slot in peers && peers[slot].phase == Opening
    case PeerCloses(slot) => slot in peers && peers[slot].phase == Open
    case _ => false
  }

  function AfterLibrary(peers: map<nat, Connection>, step: Step): map<nat, Connection>
    requires LibraryCan(peers, step)
  {
    match step
    case PeerOpens(slot, id) => peers[slot := Connection(id, Opening)]
    case PeerFades(slot) => peers - {slot}
    case PeerCloses(slot) => peers[slot := Connection(peers[slot].id, Closing)]
  }

  /** What the library may report of its slots, and what it has done to them by then. */
  predicate CanReport(peers: map<nat, Connection>, event: Event) {
    && event.slot in peers
    && (event.Connect? ==> peers[event.slot].phase == Opening)
    && (event.Receive? ==> peers[event.slot].phase == Open)
  }

  function AfterReport(peers: map<nat, Connection>, event: Event): map<nat, Connection>
    requires CanReport(peers, event)
  {
    match event
    case Connect(slot) => peers[slot := Connection(peers[slot].id, Open)]
    case Receive(_, _) => peers
    case Disconnect(slot) => peers - {slot}
  }

  /** When a step can be taken at all; nothing is assumed here about the ids of connections. */
  predicate Enabled(w: World, step: Step) {
    match step
    case PeerOpens(_, _) => w.hosting && LibraryCan(w.peers, step)
    case PeerFades(_) => LibraryCan(w.peers, step)
    case PeerCloses(_) => LibraryCan(w.peers, step)
    case Deliver(event, found) =>
      CanReport(w.peers, event) && (event.Disconnect? ==> IsKeyOf(w.table, event.slot, found))
    case DialTimesOut(slot) => slot in w.peers
    case _ => true
  }

  function OnConnect(w: World, slot: nat): World
    requires slot in w.peers
  {
    var id := w.peers[slot].id;
    w.(peers := w.peers[slot := Connection(id, Open)],
       table := w.table[id := slot],
       signals := w.signals + [Connected(id)])
  }

  function OnDisconnect(w: World, slot: nat, found: nat): World {
    w.(peers := w.peers - {slot}, table := w.table - {found}, signals := w.signals + [Disconnected(found)])
  }

  function DroppedNow(w: World, slot: nat): World {
    var id := ConnectId(w.peers, slot);
    w.(peers := w.peers - {slot}, table := w.table - {id}, signals := w.signals + [Disconnected(id)])
  }

  /** A connection that is not yet up is given up at once; any other is on its way down. */
  function BeginDisconnect(peers: map<nat, Connection>, slot: nat): map<nat, Connection> {
    if slot !in peers then peers
    else if peers[slot].phase == Opening then peers - {slot}
    else peers[slot := Connection(peers[slot].id, Closing)]
  }

  function Dropping(w: World, slot: nat): World {
    w.(peers := BeginDisconnect(w.peers, slot))
  }

  function Apply(w: World, step: Step): World
    requires Enabled(w, step)
  {
    match step
    case PeerOpens(_, _) => w.(peers := AfterLibrary(w.peers, step))
    case PeerFades(_) => w.(peers := AfterLibrary(w.peers, step))
    case PeerCloses(_) => w.(peers := AfterLibrary(w.peers, step))
    case Deliver(event, found) => (
      match event
      case Connect(slot) => OnConnect(w, slot)
      case Receive(slot, data) =>
        w.(signals := w.signals + [DataReceived(w.peers[slot].id, data)])
      case Disconnect(slot) => OnDisconnect(w, slot, found)
    )
    case Listen(created) =>
      if w.hosting || !created then w else w.(hosting := true, listening := true, peers := map[])
    case DialTimesOut(slot) => w.(peers := w.peers - {slot})
    case DropNow(id) => if id in w.table then DroppedNow(w, w.table[id]) else w
    case Drop(id) => if id in w.table then Dropping(w, w.table[id]) else w
    case DropLater(id) => if id in w.table then Dropping(w, w.table[id]) else w
    case Close => World(false, false, map[], map[], w.signals + [Closed])
  }

  predicate Possible(w: World, steps: seq<Step>)
    decreases |steps|
  {
    steps == [] || (Enabled(w, steps[0]) && Possible(Apply(w, steps[0]), steps[1..]))
  }

  function Run(w: World, steps: seq<Step>): World
    requires Possible(w, steps)
    decreases |steps|
  {
    if steps == [] then w else Run(Apply(w, steps[0]), steps[1..])
  }
}
