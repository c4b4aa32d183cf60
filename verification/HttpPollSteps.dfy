/**
 * The polling transport: what one request does to the endpoint's queue of a room,
 * what one reply does to a polling client, and the two objects as they are written.
 */
module HttpPollSteps {
  import opened Common
  import opened Dispatch

  const TTL_SECONDS: int := 60

  datatype Message = Message(kind: string, text: string)

  datatype Item = Item(id: string, ts: int, message: Message)

  // ----- the endpoint

  predicate Live(item: Item, now: int) {
    item.ts >= now - TTL_SECONDS
  }

  /** `load_queue`: what is stored, less what is older than the time to live. */
  function Alive(items: seq<Item>, now: int): seq<Item> {
    if items == [] then []
    else
      var last := items[|items| - 1];
      Alive(items[..|items| - 1], now) + if Live(last, now) then [last] else []
  }

  predicate KnownKind(kind: string) {
    kind in ["offer", "answer", "ice", "bye"]
  }

  /** The position of an id, or the length when it is not there. */
  function IndexOf(items: seq<Item>, id: string): (i: nat)
    ensures i <= |items|
    ensures i < |items| ==> items[i].id == id
    ensures forall j :: 0 <= j < i ==> items[j].id != id
  {
    if items == [] then 0
    else if items[0].id == id then 0
    else
      var rest := IndexOf(items[1..], id);
      assert forall j :: 1 <= j < rest + 1 ==> items[j] == items[1..][j - 1];
      rest + 1
  }

  /** The items after the cursor; all of them when the cursor is empty or not there. */
  function Since(items: seq<Item>, since: string): seq<Item> {
    var i := IndexOf(items, since);
    if since != "" && i < |items| then items[i + 1..] else items
  }

  datatype PostReply = Posted(id: string) | MissingMessage | UnknownKind

  datatype PollReply = PollReply(messages: seq<Item>, cursor: string)

  function Append(items: seq<Item>, id: string, m: Message, now: int): seq<Item> {
    Alive(items, now) + [Item(id, now, m)]
  }

  /** What a GET leaves stored: the list it returns, already cut at the caller's cursor. */
  function Kept(items: seq<Item>, since: string, now: int): seq<Item> {
    Since(Alive(items, now), since)
  }

  function Reply(items: seq<Item>, since: string, now: int): PollReply {
    var out := Kept(items, since, now);
    PollReply(out, if out == [] then since else out[|out| - 1].id)
  }

  class SignalEndpoint {
    /** The stored list of one room. */
    var file: seq<Item>

    constructor ()
      ensures file == []
    {
      file := [];
    }

    method LoadQueue(now: int) returns (alive: seq<Item>)
      ensures alive == Alive(file, now)
    {
      alive := [];
      for i := 0 to |file|
        invariant alive == Alive(file[..i], now)
      {
        assert file[..i + 1][..i] == file[..i];
        if file[i].ts >= now - TTL_SECONDS {
          alive := alive + [file[i]];
        }
      }
      assert file[..|file|] == file;
    }

    method Post(body: Option<Message>, id: string, now: int) returns (r: PostReply)
      modifies this
      ensures body.None? ==> r == MissingMessage && file == old(file)
      ensures body.Some? && !KnownKind(body.value.kind) ==> r == UnknownKind && file == old(file)
      ensures body.Some? && KnownKind(body.value.kind) ==> r == Posted(id) && file == Append(old(file), id, body.value, now)
    {
      if body.None? {
        return MissingMessage;
      }
      if body.value.kind !in ["offer", "answer", "ice", "bye"] {
        return UnknownKind;
      }
      var items := LoadQueue(now);
      file := items + [Item(id, now, body.value)];
      r := Posted(id);
    }

    method Get(since: string, now: int) returns (r: PollReply)
      modifies this
      ensures file == Kept(old(file), since, now)
      ensures r == Reply(old(file), since, now)
    {
      var items := LoadQueue(now);
      if since != "" {
        var idx := 0;
        while idx < |items| && items[idx].id != since
          invariant idx <= |items| && forall j :: 0 <= j < idx ==> items[j].id != since
        {
          idx := idx + 1;
        }
        IndexFound(items, since, idx);
        if idx < |items| {
          items := items[idx + 1..];
        }
      }
      file := items;
      r := PollReply(items, if |items| == 0 then since else items[|items| - 1].id);
    }
  }

  lemma IndexFound(items: seq<Item>, id: string, i: nat)
    requires i <= |items| && (forall j :: 0 <= j < i ==> items[j].id != id) && (i < |items| ==> items[i].id == id)
    ensures IndexOf(items, id) == i
  {
  }

  // ----- the polling client

  function IdsOf(items: seq<Item>): set<string> {
    if items == [] then {} else IdsOf(items[..|items| - 1]) + {items[|items| - 1].id}
  }

  /** The items whose ids have not been delivered, the first of each id. */
  function News(delivered: set<string>, items: seq<Item>): seq<Item> {
    if items == [] then []
    else
      var front, last := items[..|items| - 1], items[|items| - 1];
      News(delivered, front) + if last.id in delivered || last.id in IdsOf(front) then [] else [last]
  }

  datatype Poller = Poller(cursor: string, delivered: set<string>, handlers: seq<HandlerId>, log: seq<Delivery<Item>>)

  function Taken(p: Poller, items: seq<Item>): Poller {
    p.(delivered := p.delivered + IdsOf(items), log := p.log + DeliverAll(p.handlers, News(p.delivered, items)))
  }

  function TakenOne(p: Poller, item: Item): Poller {
    if item.id in p.delivered then p
    else p.(delivered := p.delivered + {item.id}, log := p.log + DeliverAll(p.handlers, [item]))
  }

  function Received(p: Poller, r: PollReply): Poller {
    Taken(p, r.messages).(cursor := if r.cursor != "" then r.cursor else p.cursor)
  }

  class RoomPoller {
    var cursor: string
    var delivered: set<string>
    var handlers: seq<HandlerId>
    var log: seq<Delivery<Item>>
    var aborted: bool

    ghost function View(): Poller
      reads this
    {
      Poller(cursor, delivered, handlers, log)
    }

    constructor (first: HandlerId)
      ensures View() == Poller("", {}, [first], []) && !aborted
    {
      cursor, delivered, handlers, log, aborted := "", {}, [first], [], false;
    }

    method Subscribe(h: HandlerId)
      modifies this
      ensures View() == old(View()).(handlers := WithHandler(old(handlers), h)) && aborted == old(aborted)
    {
      handlers := WithHandler(handlers, h);
    }

    /** The poll loop is aborted when the last handler leaves. */
    method Unsubscribe(h: HandlerId)
      modifies this
      ensures View() == old(View()).(handlers := WithoutHandler(old(handlers), h))
      ensures aborted == (old(aborted) || handlers == [])
    {
      handlers := RemoveHandler(handlers, h);
      if |handlers| == 0 {
        aborted := true;
      }
    }

    method TakeItem(item: Item)
      modifies this
      ensures View() == TakenOne(old(View()), item) && aborted == old(aborted)
    {
      if item.id !in delivered {
        delivered := delivered + {item.id};
        var calls := CallHandlers(handlers, [item]);
        log := log + calls;
      }
    }

    /** The second half of `pollOnce`; a poll that failed or was aborted has no reply and changes nothing. */
    method TakeReply(reply: Option<PollReply>)
      modifies this
      ensures View() == if aborted || reply.None? then old(View()) else Received(old(View()), reply.value)
      ensures aborted == old(aborted)
    {
      if aborted || reply.None? {
        return;
      }
      var items := reply.value.messages;
      ghost var p := View();
      NothingTaken(p);
      for n := 0 to |items|
        invariant View() == Taken(p, items[..n]) && aborted == old(aborted)
      {
        TakenAt(p, items, n, n + 1);
        TakeItem(items[n]);
      }
      assert items[..|items|] == items;
      if reply.value.cursor != "" {
        cursor := reply.value.cursor;
      }
    }
  }

  lemma Snoc(delivered: set<string>, items: seq<Item>, item: Item)
    ensures IdsOf(items + [item]) == IdsOf(items) + {item.id}
    ensures News(delivered, items + [item])
         == News(delivered, items) + if item.id in delivered || item.id in IdsOf(items) then [] else [item]
  {
    assert (items + [item])[..|items|] == items;
  }

  /** One round of the loop over a reply. */
  lemma TakenNext(p: Poller, items: seq<Item>, item: Item)
    ensures Taken(p, items + [item]) == TakenOne(Taken(p, items), item)
  {
    var before, news := Taken(p, items), News(p.delivered, items);
    Snoc(p.delivered, items, item);
    assert p.delivered + (IdsOf(items) + {item.id}) == before.delivered + {item.id};
    if item.id in before.delivered {
      assert before.delivered + {item.id} == before.delivered;
      assert news + [] == news;
    } else {
      DeliverAllSnoc(p.handlers, news, item);
      Reassociate(p.log, DeliverAll(p.handlers, news), DeliverAll(p.handlers, [item]));
    }
  }

  lemma TakenAt(p: Poller, items: seq<Item>, n: nat, n': nat)
    requires n < |items| && n' == n + 1
    ensures Taken(p, items[..n']) == TakenOne(Taken(p, items[..n]), items[n])
  {
    TakenNext(p, items[..n], items[n]);
    assert items[..n'] == items[..n] + [items[n]];
  }

  lemma NothingTaken(p: Poller)
    ensures Taken(p, []) == p
  {
    assert IdsOf([]) == {} && News(p.delivered, []) == [];
    assert p.delivered + {} == p.delivered && p.log + [] == p.log;
  }

  // ----- what a request and a reply say

  /** Posts of the four kinds are taken, others refused. */
  lemma KindsExactly(kind: string)
    ensures KnownKind(kind) <==> kind == "offer" || kind == "answer" || kind == "ice" || kind == "bye"
  {
  }

  /** An item is there for sixty seconds: what is left of a list is what is at most that old. */
  lemma {:induction false} AliveExactly(items: seq<Item>, now: int)
    ensures forall x :: x in Alive(items, now) <==> x in items && now - x.ts <= 60
    ensures (forall x :: x in items ==> now - x.ts <= 60) ==> Alive(items, now) == items
  {
    if items != [] {
      var front, last := items[..|items| - 1], items[|items| - 1];
      AliveExactly(front, now);
      assert items == front + [last];
    }
  }

  /** And it is left in order: the live items of a list are those of its front and then those of its end. */
  lemma {:induction false} AliveInOrder(front: seq<Item>, back: seq<Item>, now: int)
    ensures Alive(front + back, now) == Alive(front, now) + Alive(back, now)
  {
    if back == [] {
      assert front + back == front;
    } else {
      var n := |back| - 1;
      assert (front + back)[..|front + back| - 1] == front + back[..n];
      AliveInOrder(front, back[..n], now);
    }
  }

  lemma SinceNowhere(alive: seq<Item>, since: string)
    requires since == "" || forall i :: 0 <= i < |alive| ==> alive[i].id != since
    ensures Since(alive, since) == alive
  {
  }

  lemma SinceThere(alive: seq<Item>, since: string, i: nat)
    requires since != "" && i < |alive| && alive[i].id == since && forall j :: 0 <= j < i ==> alive[j].id != since
    ensures Since(alive, since) == alive[i + 1..]
  {
    IndexFound(alive, since, i);
  }

  /**
   * What a GET answers and leaves stored: the live items behind the first one with
   * the caller's cursor, or all of them when the cursor is empty or not among them;
   * and as new cursor the id of the last, or the old one when there is none.
   */
  lemma GetExactly(items: seq<Item>, since: string, now: int, alive: seq<Item>, r: PollReply)
    requires alive == Alive(items, now) && r == Reply(items, since, now)
    ensures r.messages == Kept(items, since, now)
    ensures since == "" || (forall i :: 0 <= i < |alive| ==> alive[i].id != since) ==> r.messages == alive
    ensures since != "" ==>
              forall i :: 0 <= i < |alive| && alive[i].id == since && (forall j :: 0 <= j < i ==> alive[j].id != since) ==>
                r.messages == alive[i + 1..]
    ensures if r.messages == [] then r.cursor == since else r.cursor == r.messages[|r.messages| - 1].id
  {
    if since == "" || forall i :: 0 <= i < |alive| ==> alive[i].id != since {
      SinceNowhere(alive, since);
    }
    if since != "" {
      forall i | 0 <= i < |alive| && alive[i].id == since && (forall j :: 0 <= j < i ==> alive[j].id != since)
        ensures Since(alive, since) == alive[i + 1..]
      {
        SinceThere(alive, since, i);
      }
    }
  }

  /** A cursor that is not empty is taken over, and no items leave everything else as it was. */
  lemma CursorTaken(p: Poller, cursor: string)
    ensures Received(p, PollReply([], cursor)) == p.(cursor := if cursor == "" then p.cursor else cursor)
  {
    NothingTaken(p);
  }

  /** One call of every handler, in order, with the item. */
  predicate OneCallEach(calls: seq<Delivery<Item>>, handlers: seq<HandlerId>, item: Item) {
    |calls| == |handlers| && forall i :: 0 <= i < |calls| ==> calls[i] == Delivery(handlers[i], item)
  }

  lemma OneToAll(calls: seq<Delivery<Item>>, handlers: seq<HandlerId>, item: Item)
    requires OneCallEach(calls, handlers, item)
    ensures DeliverAll(handlers, [item]) == calls
  {
    assert [item][..0] == [];
    assert DeliverAll(handlers, [item]) == DeliverOne(handlers, item);
  }

  /**
   * What a client makes of a reply, item by item: an id that it has not delivered
   * before goes to every handler, in order, and then counts as delivered.
   */
  lemma ReplyItemByItem(p: Poller, items: seq<Item>, item: Item, cursor: string, before: Poller, after: Poller, calls: seq<Delivery<Item>>)
    requires before == Received(p, PollReply(items, cursor)) && after == Received(p, PollReply(items + [item], cursor))
    requires OneCallEach(calls, p.handlers, item)
    ensures item.id in before.delivered ==> after == before
    ensures item.id !in before.delivered ==>
              after == before.(delivered := before.delivered + {item.id}, log := before.log + calls)
  {
    TakenNext(p, items, item);
    OneToAll(calls, p.handlers, item);
    OneTaken(Taken(p, items), item, if cursor != "" then cursor else p.cursor, calls);
  }

  lemma OneTaken(p: Poller, item: Item, cursor: string, calls: seq<Delivery<Item>>)
    requires DeliverAll(p.handlers, [item]) == calls
    ensures TakenOne(p, item).(cursor := cursor) ==
              if item.id in p.delivered then p.(cursor := cursor)
              else p.(cursor := cursor, delivered := p.delivered + {item.id}, log := p.log + calls)
  {
  }
}
