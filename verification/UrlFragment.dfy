/**
 * The bundle carrier: messages gather in an outbox, leave it as one bundle, and
 * are handed to the subscribers on the other side. Encoding and decoding a bundle
 * are an inverse pair and left implicit.
 */
module UrlFragment {
  import opened Common
  import opened Dispatch
  import opened NegotiationSteps

  type RoomId = string
  datatype Bundle = Bundle(room: RoomId, messages: seq<Signal>)

  /** Both maps have no empty entries; the handlers of a room are a set in insertion order. */
  datatype Adapter = Adapter(outbox: map<RoomId, seq<Signal>>, handlers: map<RoomId, seq<HandlerId>>,
                             closed: bool, log: seq<Delivery<Signal>>) {
    function Pending(room: RoomId): seq<Signal> {
      if room in outbox then outbox[room] else []
    }

    function Subscribers(room: RoomId): seq<HandlerId> {
      if room in handlers then handlers[room] else []
    }

    predicate Valid() {
      && (forall room :: room in outbox ==> outbox[room] != [])
      && (forall room :: room in handlers ==> handlers[room] != [] && NoDuplicates(handlers[room]))
    }
  }

  function Published(a: Adapter, room: RoomId, m: Signal): Adapter {
    a.(outbox := a.outbox[room := a.Pending(room) + [m]])
  }

  function Exported(a: Adapter, room: RoomId): Adapter {
    a.(outbox := a.outbox - {room})
  }

  function Imported(a: Adapter, b: Bundle): Adapter {
    a.(log := a.log + DeliverAll(a.Subscribers(b.room), b.messages))
  }

  function Subscribed(a: Adapter, room: RoomId, h: HandlerId): Adapter {
    a.(handlers := a.handlers[room := WithHandler(a.Subscribers(room), h)])
  }

  /** A room without handlers has no entry. */
  function Unsubscribed(a: Adapter, room: RoomId, h: HandlerId): Adapter {
    var live := WithoutHandler(a.Subscribers(room), h);
    a.(handlers := if live == [] then a.handlers - {room} else a.handlers[room := live])
  }

  lemma SubscribedHandlers(a: Adapter, room: RoomId, h: HandlerId)
    requires a.Valid()
    ensures Subscribed(a, room, h).Valid()
    ensures forall x, r :: x in Subscribed(a, room, h).Subscribers(r) <==> x in a.Subscribers(r) || (x == h && r == room)
  {
  }

  lemma UnsubscribedHandlers(a: Adapter, room: RoomId, h: HandlerId)
    requires a.Valid()
    ensures Unsubscribed(a, room, h).Valid()
    ensures forall x, r :: x in Unsubscribed(a, room, h).Subscribers(r) <==> x in a.Subscribers(r) && !(x == h && r == room)
  {
    WithoutMembers(a.Subscribers(room), h);
  }

  // ----- the class

  datatype Outcome<T> = Ok(value: T) | AdapterClosed

  class UrlFragmentSignaling {
    var outbox: map<RoomId, seq<Signal>>
    var handlers: map<RoomId, seq<HandlerId>>
    var closed: bool
    /** The handler calls that have been made. */
    var log: seq<Delivery<Signal>>

    ghost function View(): Adapter
      reads this
    {
      Adapter(outbox, handlers, closed, log)
    }

    constructor ()
      ensures View() == Adapter(map[], map[], false, [])
    {
      outbox, handlers, closed, log := map[], map[], false, [];
    }

    method Publish(room: RoomId, m: Signal) returns (r: Outcome<()>)
      modifies this
      ensures old(closed) ==> r == AdapterClosed && View() == old(View())
      ensures !old(closed) ==> r == Ok(()) && View() == Published(old(View()), room, m)
    {
      if closed {
        return AdapterClosed;
      }
      if room in outbox {
        outbox := outbox[room := outbox[room] + [m]];
      } else {
        assert [] + [m] == [m];
        outbox := outbox[room := [m]];
      }
      r := Ok(());
    }

    method Subscribe(room: RoomId, h: HandlerId) returns (r: Outcome<()>)
      requires View().Valid()
      modifies this
      ensures View().Valid()
      ensures old(closed) ==> r == AdapterClosed && View() == old(View())
      ensures !old(closed) ==>
        && r == Ok(())
        && View() == Subscribed(old(View()), room, h)
    {
      if closed {
        return AdapterClosed;
      }
      var live := if room in handlers then handlers[room] else [];
      handlers := handlers[room := WithHandler(live, h)];
      r := Ok(());
    }

    method Unsubscribe(room: RoomId, h: HandlerId)
      requires View().Valid()
      modifies this
      ensures View().Valid()
      ensures View() == Unsubscribed(old(View()), room, h)
    {
      if room in handlers {
        WithoutMembers(handlers[room], h);
        var live := RemoveHandler(handlers[room], h);
        if live == [] {
          handlers := handlers - {room};
        } else {
          handlers := handlers[room := live];
        }
      } else {
        assert handlers - {room} == handlers;
      }
    }

    method Close()
      modifies this
      ensures View() == Adapter(map[], map[], true, old(log))
    {
      closed, outbox, handlers := true, map[], map[];
    }

    /** Takes the outbox of a room as one bundle; none when there is nothing in it. */
    method ExportBundle(room: RoomId) returns (r: Outcome<Option<Bundle>>)
      requires View().Valid()
      modifies this
      ensures View().Valid()
      ensures old(closed) ==> r == AdapterClosed && View() == old(View())
      ensures !old(closed) ==>
        && View() == Exported(old(View()), room)
        && r == Ok(if old(View()).Pending(room) == [] then None else Some(Bundle(room, old(View()).Pending(room))))
    {
      if closed {
        return AdapterClosed;
      }
      if room !in outbox || |outbox[room]| == 0 {
        assert outbox - {room} == outbox;
        return Ok(None);
      }
      var b := Bundle(room, outbox[room]);
      outbox := outbox - {room};
      r := Ok(Some(b));
    }

    /** Calls every subscriber with every message; with no subscriber the bundle is gone. */
    method ImportBundle(b: Bundle) returns (r: Outcome<nat>)
      modifies this
      ensures old(closed) ==> r == AdapterClosed && View() == old(View())
      ensures !old(closed) ==>
        && View() == Imported(old(View()), b)
        && r == Ok(if old(View()).Subscribers(b.room) == [] then 0 else |b.messages|)
    {
      if closed {
        return AdapterClosed;
      }
      var live := if b.room in handlers then handlers[b.room] else [];
      if |live| == 0 {
        NoSubscribers(b.messages);
        return Ok(0);
      }
      var calls := CallHandlers(live, b.messages);
      log := log + calls;
      r := Ok(|b.messages|);
    }
  }

  // ----- the carrier is first in, first out

  /** Two adapters, the bundles of one room on their way between them, and what was published in it. */
  datatype Carrier = Carrier(sender: Adapter, receiver: Adapter, onTheWay: seq<seq<Signal>>, published: seq<Signal>)

  datatype CarrierAction =
    | Publishes(room: RoomId, message: Signal)
    | Exports(room: RoomId)
    | Imports
    | Elsewhere(bundle: Bundle)
    | Joins(room: RoomId, other: HandlerId)
    | Leaves(room: RoomId, other: HandlerId)

  /**
   * `Imports` takes the bundle that was exported first, `Elsewhere` is any bundle of
   * another room, and handlers join and leave the rooms of the receiver.
   */
  function Carry(c: Carrier, room: RoomId, x: CarrierAction): Carrier {
    match x
    case Publishes(r, m) =>
      c.(sender := Published(c.sender, r, m), published := if r == room then c.published + [m] else c.published)
    case Exports(r) =>
      c.(sender := Exported(c.sender, r),
         onTheWay := if r == room && c.sender.Pending(r) != [] then c.onTheWay + [c.sender.Pending(r)] else c.onTheWay)
    case Imports =>
      if c.onTheWay == [] then c
      else c.(receiver := Imported(c.receiver, Bundle(room, c.onTheWay[0])), onTheWay := c.onTheWay[1..])
    case Elsewhere(b) =>
      if b.room == room then c else c.(receiver := Imported(c.receiver, b))
    case Joins(r, other) => c.(receiver := Subscribed(c.receiver, r, other))
    case Leaves(r, other) => c.(receiver := Unsubscribed(c.receiver, r, other))
  }

  function CarryAll(c: Carrier, room: RoomId, xs: seq<CarrierAction>): Carrier {
    if xs == [] then c else Carry(CarryAll(c, room, xs[..|xs| - 1]), room, xs[|xs| - 1])
  }

  /** A handler that listens in this room and in no other. */
  ghost predicate Listens(a: Adapter, room: RoomId, h: HandlerId) {
    && a.Valid()
    && room in a.handlers && h in a.handlers[room]
    && forall r :: r in a.handlers && r != room ==> h !in a.handlers[r]
  }

  ghost predicate InOrder(c: Carrier, room: RoomId, h: HandlerId) {
    && Listens(c.receiver, room, h)
    && c.published == SeenBy(c.receiver.log, h) + Flatten(c.onTheWay) + c.sender.Pending(room)
  }

  lemma FlattenHead(parts: seq<seq<Signal>>)
    requires parts != []
    ensures Flatten(parts) == parts[0] + Flatten(parts[1..])
  {
    assert parts == [parts[0]] + parts[1..];
    FlattenConcat([parts[0]], parts[1..]);
    assert [parts[0]][..0] == [];
  }

  lemma FlattenSnoc(parts: seq<seq<Signal>>, last: seq<Signal>)
    ensures Flatten(parts + [last]) == Flatten(parts) + last
  {
    assert (parts + [last])[..|parts|] == parts;
  }

  lemma PublishKeepsOrder(c: Carrier, room: RoomId, h: HandlerId, r: RoomId, m: Signal)
    requires InOrder(c, room, h)
    ensures InOrder(Carry(c, room, Publishes(r, m)), room, h)
  {
  }

  lemma ExportedPending(a: Adapter, r: RoomId, room: RoomId)
    ensures Exported(a, r).Pending(room) == if r == room then [] else a.Pending(room)
  {
  }

  /** What leaves the outbox is on its way. */
  lemma OwnExport(c: Carrier, room: RoomId, h: HandlerId)
    requires InOrder(c, room, h) && c.sender.Pending(room) != []
    ensures InOrder(Carry(c, room, Exports(room)), room, h)
  {
    var seen, pending := SeenBy(c.receiver.log, h), c.sender.Pending(room);
    ExportedPending(c.sender, room, room);
    FlattenSnoc(c.onTheWay, pending);
    Reassociate(seen, Flatten(c.onTheWay), pending);
    assert seen + (Flatten(c.onTheWay) + pending) + [] == seen + (Flatten(c.onTheWay) + pending);
  }

  lemma ExportKeepsOrder(c: Carrier, room: RoomId, h: HandlerId, r: RoomId)
    requires InOrder(c, room, h)
    ensures InOrder(Carry(c, room, Exports(r)), room, h)
  {
    if r == room && c.sender.Pending(room) != [] {
      OwnExport(c, room, h);
    } else {
      ExportedPending(c.sender, r, room);
    }
  }

  lemma ImportSeen(a: Adapter, room: RoomId, h: HandlerId, messages: seq<Signal>)
    requires Listens(a, room, h)
    ensures SeenBy(Imported(a, Bundle(room, messages)).log, h) == SeenBy(a.log, h) + messages
    ensures Listens(Imported(a, Bundle(room, messages)), room, h)
  {
    SeenAfter(a.log, a.handlers[room], messages, h);
  }

  lemma ImportKeepsOrder(c: Carrier, room: RoomId, h: HandlerId)
    requires InOrder(c, room, h) && c.onTheWay != []
    ensures InOrder(Carry(c, room, Imports), room, h)
  {
    FlattenHead(c.onTheWay);
    ImportSeen(c.receiver, room, h, c.onTheWay[0]);
  }

  lemma ElsewhereUnseen(a: Adapter, room: RoomId, h: HandlerId, b: Bundle)
    requires Listens(a, room, h) && b.room != room
    ensures SeenBy(Imported(a, b).log, h) == SeenBy(a.log, h) && Listens(Imported(a, b), room, h)
  {
    var others := a.Subscribers(b.room);
    SeenAfter(a.log, others, b.messages, h);
    assert h !in others;
    assert SeenBy(a.log, h) + [] == SeenBy(a.log, h);
  }

  lemma ElsewhereKeepsOrder(c: Carrier, room: RoomId, h: HandlerId, b: Bundle)
    requires InOrder(c, room, h) && b.room != room
    ensures InOrder(Carry(c, room, Elsewhere(b)), room, h)
  {
    ElsewhereUnseen(c.receiver, room, h, b);
  }

  /** The action subscribes or unsubscribes this handler. */
  predicate Moves(x: CarrierAction, h: HandlerId) {
    (x.Joins? || x.Leaves?) && x.other == h
  }

  lemma OthersKeepOrder(c: Carrier, room: RoomId, h: HandlerId, r: RoomId, other: HandlerId)
    requires InOrder(c, room, h) && other != h
    ensures InOrder(Carry(c, room, Joins(r, other)), room, h) && InOrder(Carry(c, room, Leaves(r, other)), room, h)
  {
    SubscribedHandlers(c.receiver, r, other);
    UnsubscribedHandlers(c.receiver, r, other);
    ListensByMembers(c.receiver, Subscribed(c.receiver, r, other), room, h);
    ListensByMembers(c.receiver, Unsubscribed(c.receiver, r, other), room, h);
  }

  lemma ListensByMembers(a: Adapter, b: Adapter, room: RoomId, h: HandlerId)
    requires Listens(a, room, h) && b.Valid()
    requires forall r :: h in b.Subscribers(r) <==> h in a.Subscribers(r)
    ensures Listens(b, room, h)
  {
    assert h in a.Subscribers(room);
    forall r | r in b.handlers && r != room ensures h !in b.handlers[r] {
      assert h !in a.Subscribers(r);
    }
  }

  /** Two new adapters, one of them with a subscriber, are such a carrier. */
  lemma NewCarrier(room: RoomId, h: HandlerId)
    ensures
      var empty := Adapter(map[], map[], false, []);
      InOrder(Carrier(empty, Subscribed(empty, room, h), [], []), room, h)
  {
    assert [] + [h] == [h];
  }

  lemma CarryKeepsOrder(c: Carrier, room: RoomId, h: HandlerId, x: CarrierAction)
    requires InOrder(c, room, h) && !Moves(x, h)
    ensures InOrder(Carry(c, room, x), room, h)
  {
    match x
    case Publishes(r, m) => PublishKeepsOrder(c, room, h, r, m);
    case Exports(r) => ExportKeepsOrder(c, room, h, r);
    case Imports =>
      if c.onTheWay != [] {
        ImportKeepsOrder(c, room, h);
      }
    case Elsewhere(b) =>
      if b.room != room {
        ElsewhereKeepsOrder(c, room, h, b);
      }
    case Joins(r, other) => OthersKeepOrder(c, room, h, r, other);
    case Leaves(r, other) => OthersKeepOrder(c, room, h, r, other);
  }

  /**
   * When bundles are imported in the order of their export, the carrier is a
   * first-in-first-out channel: what was published is what the subscriber has seen,
   * then what is on its way, then what is still in the outbox. Other rooms, other
   * subscribers and the moments of export make no difference.
   */
  lemma {:induction false} FirstInFirstOut(c: Carrier, room: RoomId, h: HandlerId, xs: seq<CarrierAction>)
    requires InOrder(c, room, h) && forall n :: 0 <= n < |xs| ==> !Moves(xs[n], h)
    ensures
      var after := CarryAll(c, room, xs);
      after.published == SeenBy(after.receiver.log, h) + Flatten(after.onTheWay) + after.sender.Pending(room)
    ensures InOrder(CarryAll(c, room, xs), room, h)
  {
    if xs != [] {
      FirstInFirstOut(c, room, h, xs[..|xs| - 1]);
      CarryKeepsOrder(CarryAll(c, room, xs[..|xs| - 1]), room, h, xs[|xs| - 1]);
    }
  }
}
