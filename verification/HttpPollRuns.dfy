/**
 * A room of the polling transport over whole runs: posts with unique ids, a clock
 * that does not run backwards, any number of polling clients, replies that arrive
 * late or not at all, handlers that come and go.
 */
module HttpPollRuns {
  import opened Common
  import opened Dispatch
  import opened HttpPollSteps

  /** A reply on its way, and how much had been posted when it was made. */
  datatype InFlight = InFlight(reply: PollReply, upTo: nat)

  /** `mark` records how much had been posted when the last reply to arrive was made. */
  datatype Client = Client(poller: Poller, inFlight: Option<InFlight>, stopped: bool, mark: nat)

  /** `posted` records everything ever posted, in order. */
  datatype Room = Room(file: seq<Item>, clients: seq<Client>, clock: int, posted: seq<Item>) {
    /** How much of what was posted is not stored any more. */
    function Cut(): int {
      |posted| - |file|
    }
  }

  datatype Action =
    | Post(id: string, message: Message)
    | Request(c: nat)
    | Arrive(c: nat)
    | Lose(c: nat)
    | Subscribe(c: nat, h: HandlerId)
    | Unsubscribe(c: nat, h: HandlerId)
    | Wait(seconds: nat)

  ghost predicate Enabled(s: Room, a: Action) {
    match a
    case Post(id, m) => KnownKind(m.kind) && id != "" && forall k :: 0 <= k < |s.posted| ==> s.posted[k].id != id
    case Request(c) => c < |s.clients| && !s.clients[c].stopped && s.clients[c].inFlight.None?
    case Arrive(c) => c < |s.clients| && s.clients[c].inFlight.Some?
    case Lose(c) => c < |s.clients| && s.clients[c].inFlight.Some?
    case Subscribe(c, _) => c < |s.clients| && !s.clients[c].stopped
    case Unsubscribe(c, _) => c < |s.clients| && !s.clients[c].stopped
    case Wait(_) => true
  }

  function Asked(s: Room, c: Client): Client {
    c.(inFlight := Some(InFlight(Reply(s.file, c.poller.cursor, s.clock), |s.posted|)))
  }

  /** An aborted poll's reply is thrown away. */
  function Answered(c: Client): Client
    requires c.inFlight.Some?
  {
    if c.stopped then c.(inFlight := None)
    else Client(Received(c.poller, c.inFlight.value.reply), None, false, c.inFlight.value.upTo)
  }

  /** The poll loop ends with its last handler. */
  function Left(c: Client, h: HandlerId): Client {
    var handlers := WithoutHandler(c.poller.handlers, h);
    c.(poller := c.poller.(handlers := handlers), stopped := handlers == [])
  }

  function Next(s: Room, a: Action): Room
    requires Enabled(s, a)
  {
    match a
    case Post(id, m) => s.(file := Append(s.file, id, m, s.clock), posted := s.posted + [Item(id, s.clock, m)])
    case Request(c) =>
      s.(file := Kept(s.file, s.clients[c].poller.cursor, s.clock), clients := s.clients[c := Asked(s, s.clients[c])])
    case Arrive(c) => s.(clients := s.clients[c := Answered(s.clients[c])])
    case Lose(c) => s.(clients := s.clients[c := s.clients[c].(inFlight := None)])
    case Subscribe(c, h) =>
      var p := s.clients[c].poller;
      s.(clients := s.clients[c := s.clients[c].(poller := p.(handlers := WithHandler(p.handlers, h)))])
    case Unsubscribe(c, h) => s.(clients := s.clients[c := Left(s.clients[c], h)])
    case Wait(seconds) => s.(clock := s.clock + seconds)
  }

  ghost predicate Initial(s: Room) {
    && s.file == [] && s.posted == []
    && forall c :: 0 <= c < |s.clients| ==> exists h :: s.clients[c] == Client(Poller("", {}, [h], []), None, false, 0)
  }

  // ----- subsequences

  /** `a` is `b` with some elements left out. */
  predicate Subsequence<T(==)>(a: seq<T>, b: seq<T>) {
    a == [] ||
    (b != [] && (Subsequence(a, b[..|b| - 1]) ||
                 (a[|a| - 1] == b[|b| - 1] && Subsequence(a[..|a| - 1], b[..|b| - 1]))))
  }

  lemma {:induction false} SubsequenceLonger<T>(a: seq<T>, b: seq<T>, more: seq<T>)
    requires Subsequence(a, b)
    ensures Subsequence(a, b + more)
    decreases |more|
  {
    if more == [] {
      assert b + more == b;
    } else {
      SubsequenceLonger(a, b, more[..|more| - 1]);
      assert (b + more)[..|b + more| - 1] == b + more[..|more| - 1];
    }
  }

  lemma {:induction false} SubsequenceBoth<T>(a: seq<T>, b: seq<T>, more: seq<T>)
    requires Subsequence(a, b)
    ensures Subsequence(a + more, b + more)
    decreases |more|
  {
    if more == [] {
      assert a + more == a && b + more == b;
    } else {
      SubsequenceBoth(a, b, more[..|more| - 1]);
      assert (a + more)[..|a + more| - 1] == a + more[..|more| - 1];
      assert (b + more)[..|b + more| - 1] == b + more[..|more| - 1];
    }
  }

  lemma {:induction false} SubsequenceMembers<T>(a: seq<T>, b: seq<T>)
    requires Subsequence(a, b)
    ensures forall x :: x in a ==> x in b
    ensures NoDuplicates(b) ==> NoDuplicates(a)
    decreases |b|
  {
    if a != [] {
      var front := b[..|b| - 1];
      assert b == front + [b[|b| - 1]];
      if Subsequence(a, front) {
        SubsequenceMembers(a, front);
      } else {
        var head := a[..|a| - 1];
        assert a == head + [a[|a| - 1]];
        SubsequenceMembers(head, front);
        assert NoDuplicates(b) ==> b[|b| - 1] !in front;
      }
    }
  }

  // ----- the invariant

  /** An earlier and a later item have different ids, and their time stamps do not decrease. */
  predicate Apart(items: seq<Item>, j: nat, k: nat)
    requires j < k < |items|
  {
    items[j].id != items[k].id && items[j].ts <= items[k].ts
  }

  ghost predicate AllApart(items: seq<Item>) {
    forall j: nat, k: nat :: j < k < |items| ==> Apart(items, j, k)
  }

  ghost predicate History(posted: seq<Item>, clock: int) {
    AllApart(posted) && forall k :: 0 <= k < |posted| ==> posted[k].id != "" && posted[k].ts <= clock
  }

  lemma ApartFront(items: seq<Item>, n: nat)
    requires AllApart(items) && n <= |items|
    ensures AllApart(items[..n])
  {
    forall j: nat, k: nat | j < k < n ensures Apart(items[..n], j, k) {
      assert Apart(items, j, k);
    }
  }

  lemma ApartNoDuplicates(items: seq<Item>)
    requires AllApart(items)
    ensures NoDuplicates(items)
  {
    forall j, k | 0 <= j < k < |items| ensures items[j] != items[k] {
      assert Apart(items, j, k);
    }
  }

  lemma ApartTail(posted: seq<Item>, n: nat)
    requires AllApart(posted) && n <= |posted|
    ensures AllApart(posted[n..])
  {
    forall j: nat, k: nat | j < k < |posted| - n ensures Apart(posted[n..], j, k) {
      assert Apart(posted, n + j, n + k);
    }
  }

  /** The first `mark` posted items are behind the client: the rest has not been delivered. */
  ghost predicate UpToMark(posted: seq<Item>, p: Poller, mark: nat) {
    && mark <= |posted|
    && (forall k :: mark <= k < |posted| ==> posted[k].id !in p.delivered)
    && (p.cursor != "" ==> exists k :: 0 <= k < mark && posted[k].id == p.cursor)
  }

  /** Of what is behind the client, everything from position `from` on has been delivered. */
  ghost predicate DeliveredFrom(posted: seq<Item>, p: Poller, from: int, mark: nat) {
    forall k :: 0 <= k < |posted| && from <= k < mark ==> posted[k].id in p.delivered
  }

  ghost predicate SeenInOrder(posted: seq<Item>, p: Poller, mark: nat)
    requires mark <= |posted|
  {
    NoDuplicates(p.handlers) && forall h :: Subsequence(SeenBy(p.log, h), posted[..mark])
  }

  /** A reply on its way holds what was posted in a stretch that ends where the record says. */
  ghost predicate ReplyOk(posted: seq<Item>, p: Poller, f: InFlight, cut: int, mark: nat) {
    var from := f.upTo - |f.reply.messages|;
    && mark <= f.upTo <= |posted| && 0 <= from <= cut
    && f.reply.messages == posted[from..f.upTo]
    && DeliveredFrom(posted, p, from, mark)
    && f.reply.cursor == if from == f.upTo then p.cursor else posted[f.upTo - 1].id
  }

  ghost predicate ClientOk(posted: seq<Item>, cut: int, c: Client) {
    && c.poller.delivered <= IdsOf(posted)
    && UpToMark(posted, c.poller, c.mark)
    && DeliveredFrom(posted, c.poller, cut, c.mark)
    && SeenInOrder(posted, c.poller, c.mark)
    && (c.inFlight.Some? ==> ReplyOk(posted, c.poller, c.inFlight.value, cut, c.mark))
  }

  ghost predicate Inv(s: Room) {
    && History(s.posted, s.clock)
    && 0 <= s.Cut() && s.file == s.posted[s.Cut()..]
    && forall c :: 0 <= c < |s.clients| ==> ClientOk(s.posted, s.Cut(), s.clients[c])
  }

  // ----- the endpoint keeps a suffix of what was posted

  lemma ExpiredBefore(items: seq<Item>, now: int)
    requires AllApart(items) && items != [] && !Live(items[|items| - 1], now)
    ensures forall k :: 0 <= k < |items| ==> !Live(items[k], now)
  {
    forall k | 0 <= k < |items| - 1 ensures !Live(items[k], now) {
      assert Apart(items, k, |items| - 1);
    }
  }

  lemma {:induction false} AliveNone(items: seq<Item>, now: int)
    requires forall k :: 0 <= k < |items| ==> !Live(items[k], now)
    ensures Alive(items, now) == []
  {
    if items != [] {
      AliveNone(items[..|items| - 1], now);
    }
  }

  /** Pruning an ordered list takes off its expired front and nothing else. */
  lemma {:induction false} AliveIsSuffix(items: seq<Item>, now: int) returns (n: nat)
    requires AllApart(items)
    ensures n <= |items| && Alive(items, now) == items[n..]
    ensures forall k :: 0 <= k < n ==> !Live(items[k], now)
    ensures forall k :: n <= k < |items| ==> Live(items[k], now)
  {
    if items == [] {
      n := 0;
    } else {
      var last := |items| - 1;
      if Live(items[last], now) {
        ApartFront(items, last);
        n := AliveIsSuffix(items[..last], now);
        SliceSnoc(items, n, last);
        assert items[..last][n..] == items[n..last] && items[n..last + 1] == items[n..];
      } else {
        ExpiredBefore(items, now);
        AliveNone(items, now);
        n := |items|;
      }
    }
  }

  lemma StoredAlive(s: Room) returns (n: nat)
    requires Inv(s)
    ensures s.Cut() <= n <= |s.posted| && Alive(s.file, s.clock) == s.posted[n..]
    ensures forall k :: s.Cut() <= k < n ==> !Live(s.posted[k], s.clock)
    ensures forall k :: n <= k < |s.posted| ==> Live(s.posted[k], s.clock)
  {
    ApartTail(s.posted, s.Cut());
    var m := AliveIsSuffix(s.file, s.clock);
    n := s.Cut() + m;
    assert s.file[m..] == s.posted[n..];
    forall k | s.Cut() <= k < |s.posted| ensures Live(s.posted[k], s.clock) <==> k >= n {
      assert s.posted[k] == s.file[k - s.Cut()];
    }
  }

  lemma IndexInPosted(posted: seq<Item>, clock: int, n: nat, p: nat)
    requires History(posted, clock) && n <= |posted| && p < |posted|
    ensures IndexOf(posted[n..], posted[p].id) == if p < n then |posted| - n else p - n
  {
    var tail := posted[n..];
    forall j | 0 <= j < |tail| && n + j != p ensures tail[j].id != posted[p].id {
      if n + j < p {
        assert Apart(posted, n + j, p);
      } else {
        assert Apart(posted, p, n + j);
      }
    }
    IndexFound(tail, posted[p].id, if p < n then |tail| else p - n);
  }

  /** Where a cursor that has been posted cuts the list. */
  lemma SinceIsSuffix(posted: seq<Item>, clock: int, n: nat, p: nat)
    requires History(posted, clock) && n <= |posted| && p < |posted|
    ensures
      var i := IndexOf(posted[n..], posted[p].id);
      && i == (if p < n then |posted| - n else p - n)
      && Since(posted[n..], posted[p].id) == posted[if p < n then n else p + 1..]
  {
    IndexInPosted(posted, clock, n, p);
    if n <= p {
      assert posted[n..][p - n + 1..] == posted[p + 1..];
    }
  }

  /** A request leaves a suffix of what was posted, cut behind the client's mark or at the last expired item. */
  lemma KeptIsSuffix(s: Room, c: nat) returns (n: nat, m: nat)
    requires Inv(s) && c < |s.clients|
    ensures s.Cut() <= n <= m <= |s.posted|
    ensures Alive(s.file, s.clock) == s.posted[n..]
    ensures Kept(s.file, s.clients[c].poller.cursor, s.clock) == s.posted[m..]
    ensures m == n || m <= s.clients[c].mark
    ensures forall k :: s.Cut() <= k < n ==> !Live(s.posted[k], s.clock)
    ensures forall k :: n <= k < |s.posted| ==> Live(s.posted[k], s.clock)
    ensures
      var i := IndexOf(Alive(s.file, s.clock), s.clients[c].poller.cursor);
      m == if s.clients[c].poller.cursor != "" && i < |s.posted| - n then n + i + 1 else n
  {
    n := StoredAlive(s);
    var cursor := s.clients[c].poller.cursor;
    m := n;
    if cursor != "" {
      var p := CursorPosted(s, c);
      SinceIsSuffix(s.posted, s.clock, n, p);
      m := if p < n then n else p + 1;
    }
  }

  lemma CursorPosted(s: Room, c: nat) returns (p: nat)
    requires Inv(s) && c < |s.clients| && s.clients[c].poller.cursor != ""
    ensures p < s.clients[c].mark && p < |s.posted| && s.posted[p].id == s.clients[c].poller.cursor
  {
    assert ClientOk(s.posted, s.Cut(), s.clients[c]);
    p :| 0 <= p < s.clients[c].mark && s.posted[p].id == s.clients[c].poller.cursor;
  }

  // ----- a reply

  lemma {:induction false} IdsMembers(items: seq<Item>, id: string)
    ensures id in IdsOf(items) <==> exists k :: 0 <= k < |items| && items[k].id == id
  {
    if items != [] {
      IdsMembers(items[..|items| - 1], id);
      assert forall k :: 0 <= k < |items| - 1 ==> items[..|items| - 1][k] == items[k];
    }
  }

  /** An id is in a stretch of what was posted when its position is. */
  lemma IdInStretch(posted: seq<Item>, from: nat, upTo: nat, k: nat)
    requires AllApart(posted) && from <= upTo <= |posted| && k < |posted|
    ensures posted[k].id in IdsOf(posted[from..upTo]) <==> from <= k < upTo
  {
    var items := posted[from..upTo];
    IdsMembers(items, posted[k].id);
    if from <= k < upTo {
      assert items[k - from] == posted[k];
    } else {
      forall i | 0 <= i < |items| ensures items[i].id != posted[k].id {
        if k < from {
          assert Apart(posted, k, from + i);
        } else {
          assert Apart(posted, from + i, k);
        }
      }
    }
  }

  lemma IdsOfStretch(posted: seq<Item>, from: nat, upTo: nat)
    requires from <= upTo <= |posted|
    ensures IdsOf(posted[from..upTo]) <= IdsOf(posted)
  {
    forall id | id in IdsOf(posted[from..upTo]) ensures id in IdsOf(posted) {
      IdsMembers(posted[from..upTo], id);
      IdsMembers(posted, id);
      var k :| 0 <= k < upTo - from && posted[from..upTo][k].id == id;
      assert posted[from + k].id == id;
    }
  }

  /** From position `from` on, what has been delivered is what is behind the mark. */
  ghost predicate SplitAtMark(posted: seq<Item>, delivered: set<string>, from: nat, mark: nat) {
    forall k :: from <= k < |posted| ==> (posted[k].id in delivered <==> k < mark)
  }

  lemma NewsNext(posted: seq<Item>, delivered: set<string>, from: nat, n: nat, mark: nat)
    requires AllApart(posted) && SplitAtMark(posted, delivered, from, mark) && from <= n < |posted|
    ensures News(delivered, posted[from..n + 1])
         == News(delivered, posted[from..n]) + if n < mark then [] else [posted[n]]
  {
    IdInStretch(posted, from, n, n);
    SliceSnoc(posted, from, n);
    Snoc(delivered, posted[from..n], posted[n]);
  }

  /** The news in a stretch of what was posted is the part of it that is not behind the client. */
  lemma {:induction false} NewsOfStretch(posted: seq<Item>, delivered: set<string>, from: nat, upTo: nat, mark: nat)
    requires AllApart(posted) && SplitAtMark(posted, delivered, from, mark) && from <= upTo <= |posted|
    ensures News(delivered, posted[from..upTo]) == posted[Later(from, mark, upTo)..upTo]
    decreases upTo
  {
    if from < upTo {
      NewsOfStretch(posted, delivered, from, upTo - 1, mark);
      NewsNext(posted, delivered, from, upTo - 1, mark);
      LaterStep(posted, from, mark, upTo - 1);
    }
  }

  lemma LaterStep(posted: seq<Item>, from: nat, mark: nat, n: nat)
    requires from <= n < |posted|
    ensures posted[Later(from, mark, n + 1)..n + 1]
         == posted[Later(from, mark, n)..n] + if n < mark then [] else [posted[n]]
  {
    if n < mark {
      assert posted[n..n] == [] && posted[n + 1..n + 1] == [];
    } else {
      var k := Later(from, mark, n);
      SliceSnoc(posted, k, n);
    }
  }

  /** Where the part of a stretch that is not behind the mark begins. */
  function Later(from: nat, mark: nat, upTo: nat): (k: nat)
    requires from <= upTo
    ensures from <= k <= upTo
    ensures k == upTo || k >= mark
  {
    if mark <= from then from else if mark <= upTo then mark else upTo
  }

  lemma SeenGrows(posted: seq<Item>, seen: seq<Item>, mark: nat, k: nat, upTo: nat)
    requires mark <= k <= upTo <= |posted| && Subsequence(seen, posted[..mark])
    ensures Subsequence(seen, posted[..upTo]) && Subsequence(seen + posted[k..upTo], posted[..upTo])
  {
    SubsequenceLonger(seen, posted[..mark], posted[mark..k]);
    assert posted[..mark] + posted[mark..k] == posted[..k];
    SubsequenceBoth(seen, posted[..k], posted[k..upTo]);
    SubsequenceLonger(seen, posted[..k], posted[k..upTo]);
    assert posted[..k] + posted[k..upTo] == posted[..upTo];
  }

  /** The news in a reply is what it holds beyond the client's mark. */
  lemma RepliedNews(posted: seq<Item>, p: Poller, f: InFlight, cut: int, mark: nat)
    requires AllApart(posted) && UpToMark(posted, p, mark) && ReplyOk(posted, p, f, cut, mark)
    ensures
      var k := Later(f.upTo - |f.reply.messages|, mark, f.upTo);
      mark <= k && News(p.delivered, f.reply.messages) == posted[k..f.upTo]
  {
    var from := f.upTo - |f.reply.messages|;
    assert SplitAtMark(posted, p.delivered, from, mark);
    NewsOfStretch(posted, p.delivered, from, f.upTo, mark);
  }

  lemma ReceivedSeen(posted: seq<Item>, clock: int, c: Client, cut: int, h: HandlerId)
    requires History(posted, clock) && 0 <= cut && ClientOk(posted, cut, c) && c.inFlight.Some? && !c.stopped
    ensures Subsequence(SeenBy(Answered(c).poller.log, h), posted[..Answered(c).mark])
  {
    var f := c.inFlight.value;
    var k := Later(f.upTo - |f.reply.messages|, c.mark, f.upTo);
    RepliedNews(posted, c.poller, f, cut, c.mark);
    SeenAfter(c.poller.log, c.poller.handlers, posted[k..f.upTo], h);
    var seen := SeenBy(c.poller.log, h);
    SeenGrows(posted, seen, c.mark, k, f.upTo);
    assert seen + [] == seen;
  }

  lemma ReceivedIds(posted: seq<Item>, p: Poller, f: InFlight, cut: int, mark: nat)
    requires AllApart(posted) && p.delivered <= IdsOf(posted) && UpToMark(posted, p, mark) && ReplyOk(posted, p, f, cut, mark)
    ensures
      var delivered := p.delivered + IdsOf(f.reply.messages);
      && delivered <= IdsOf(posted)
      && forall k :: 0 <= k < |posted| ==>
           && (k >= f.upTo ==> posted[k].id !in delivered)
           && (f.upTo - |f.reply.messages| <= k < f.upTo ==> posted[k].id in delivered)
  {
    var from := f.upTo - |f.reply.messages|;
    IdsOfStretch(posted, from, f.upTo);
    forall k | 0 <= k < |posted|
      ensures posted[k].id in IdsOf(f.reply.messages) <==> from <= k < f.upTo
    {
      IdInStretch(posted, from, f.upTo, k);
    }
  }

  lemma ReceivedCursor(posted: seq<Item>, clock: int, c: Client, cut: int)
    requires History(posted, clock) && 0 <= cut && ClientOk(posted, cut, c) && c.inFlight.Some? && !c.stopped
    ensures Answered(c).poller.cursor != "" ==>
              exists k :: 0 <= k < c.inFlight.value.upTo && posted[k].id == Answered(c).poller.cursor
  {
    var f := c.inFlight.value;
    if |f.reply.messages| > 0 {
      assert posted[f.upTo - 1].id == Answered(c).poller.cursor;
    } else if c.poller.cursor != "" {
      var k :| 0 <= k < c.mark && posted[k].id == c.poller.cursor;
    }
  }

  lemma ReceivedMarks(posted: seq<Item>, clock: int, c: Client, cut: int)
    requires History(posted, clock) && 0 <= cut && ClientOk(posted, cut, c) && c.inFlight.Some? && !c.stopped
    ensures UpToMark(posted, Answered(c).poller, Answered(c).mark)
    ensures DeliveredFrom(posted, Answered(c).poller, cut, Answered(c).mark)
    ensures Answered(c).poller.delivered <= IdsOf(posted)
  {
    ReceivedIds(posted, c.poller, c.inFlight.value, cut, c.mark);
    ReceivedCursor(posted, clock, c, cut);
  }

  // ----- every action keeps the invariant

  lemma CutGrows(posted: seq<Item>, cut: int, cut': int, c: Client)
    requires ClientOk(posted, cut, c) && cut <= cut'
    ensures ClientOk(posted, cut', c)
  {
  }

  lemma PostedGrows(posted: seq<Item>, cut: int, c: Client, item: Item)
    requires ClientOk(posted, cut, c) && forall k :: 0 <= k < |posted| ==> posted[k].id != item.id
    ensures ClientOk(posted + [item], cut, c)
  {
    var longer := posted + [item];
    assert forall k :: 0 <= k < |posted| ==> longer[k] == posted[k];
    assert longer[..c.mark] == posted[..c.mark];
    IdsMembers(posted, item.id);
    Snoc(c.poller.delivered, posted, item);
    if c.inFlight.Some? {
      var f := c.inFlight.value;
      var from := f.upTo - |f.reply.messages|;
      assert longer[from..f.upTo] == posted[from..f.upTo];
    }
  }

  lemma HistoryGrows(posted: seq<Item>, clock: int, item: Item)
    requires History(posted, clock) && item.id != "" && item.ts == clock
    requires forall k :: 0 <= k < |posted| ==> posted[k].id != item.id
    ensures History(posted + [item], clock)
  {
    var longer := posted + [item];
    forall j: nat, k: nat | j < k < |longer| ensures Apart(longer, j, k) {
      assert k < |posted| ==> Apart(posted, j, k);
    }
  }

  lemma PostStores(s: Room, id: string, m: Message)
    requires Inv(s) && Enabled(s, Post(id, m))
    ensures
      var s' := Next(s, Post(id, m));
      s.Cut() <= s'.Cut() <= |s'.posted| && s'.file == s'.posted[s'.Cut()..]
  {
    var n := StoredAlive(s);
    var item := Item(id, s.clock, m);
    assert (s.posted + [item])[n..] == s.posted[n..] + [item];
  }

  lemma PostKeeps(s: Room, id: string, m: Message)
    requires Inv(s) && Enabled(s, Post(id, m))
    ensures Inv(Next(s, Post(id, m)))
  {
    var item := Item(id, s.clock, m);
    var s' := Next(s, Post(id, m));
    PostStores(s, id, m);
    HistoryGrows(s.posted, s.clock, item);
    forall c | 0 <= c < |s.clients| ensures ClientOk(s'.posted, s'.Cut(), s.clients[c]) {
      CutGrows(s.posted, s.Cut(), s'.Cut(), s.clients[c]);
      PostedGrows(s.posted, s'.Cut(), s.clients[c], item);
    }
  }

  lemma RequestOk(s: Room, c: nat, m: nat)
    requires Inv(s) && Enabled(s, Request(c)) && s.Cut() <= m <= |s.posted|
    requires Kept(s.file, s.clients[c].poller.cursor, s.clock) == s.posted[m..]
    ensures ClientOk(s.posted, m, Asked(s, s.clients[c]))
  {
    assert ClientOk(s.posted, s.Cut(), s.clients[c]);
    CutGrows(s.posted, s.Cut(), m, s.clients[c]);
    assert s.posted[m..|s.posted|] == s.posted[m..];
  }

  lemma RequestKeeps(s: Room, c: nat)
    requires Inv(s) && Enabled(s, Request(c))
    ensures Inv(Next(s, Request(c)))
  {
    var s' := Next(s, Request(c));
    var n, m := KeptIsSuffix(s, c);
    RequestOk(s, c, m);
    assert s'.Cut() == m;
    forall d | 0 <= d < |s'.clients| ensures ClientOk(s'.posted, s'.Cut(), s'.clients[d]) {
      if d != c {
        CutGrows(s.posted, s.Cut(), m, s.clients[d]);
      }
    }
  }

  lemma ArriveOk(posted: seq<Item>, clock: int, cut: int, c: Client)
    requires History(posted, clock) && 0 <= cut && ClientOk(posted, cut, c) && c.inFlight.Some?
    ensures ClientOk(posted, cut, Answered(c))
  {
    if !c.stopped {
      ReceivedMarks(posted, clock, c, cut);
      forall h ensures Subsequence(SeenBy(Answered(c).poller.log, h), posted[..Answered(c).mark]) {
        ReceivedSeen(posted, clock, c, cut, h);
      }
    }
  }

  /** An action that changes one client, and nothing else. */
  lemma OneClientKeeps(s: Room, c: nat, client: Client)
    requires Inv(s) && c < |s.clients| && ClientOk(s.posted, s.Cut(), client)
    ensures Inv(s.(clients := s.clients[c := client]))
  {
  }

  lemma HandlersOk(posted: seq<Item>, cut: int, c: Client, handlers: seq<HandlerId>, stopped: bool)
    requires ClientOk(posted, cut, c) && NoDuplicates(handlers)
    ensures ClientOk(posted, cut, c.(poller := c.poller.(handlers := handlers), stopped := stopped))
  {
  }

  lemma StepKeeps(s: Room, a: Action)
    requires Inv(s) && Enabled(s, a)
    ensures Inv(Next(s, a))
  {
    match a
    case Post(id, m) => PostKeeps(s, id, m);
    case Request(c) => RequestKeeps(s, c);
    case Arrive(c) =>
      ArriveOk(s.posted, s.clock, s.Cut(), s.clients[c]);
      OneClientKeeps(s, c, Answered(s.clients[c]));
    case Lose(c) => OneClientKeeps(s, c, s.clients[c].(inFlight := None));
    case Subscribe(c, h) =>
      var handlers := WithHandler(s.clients[c].poller.handlers, h);
      HandlersOk(s.posted, s.Cut(), s.clients[c], handlers, s.clients[c].stopped);
      OneClientKeeps(s, c, Next(s, a).clients[c]);
    case Unsubscribe(c, h) =>
      WithoutMembers(s.clients[c].poller.handlers, h);
      HandlersOk(s.posted, s.Cut(), s.clients[c], WithoutHandler(s.clients[c].poller.handlers, h), Left(s.clients[c], h).stopped);
      OneClientKeeps(s, c, Next(s, a).clients[c]);
    case Wait(_) =>
  }

  // ----- runs

  ghost predicate Possible(s: Room, acts: seq<Action>)
    decreases acts
  {
    acts == [] || (Enabled(s, acts[0]) && Possible(Next(s, acts[0]), acts[1..]))
  }

  ghost function Final(s: Room, acts: seq<Action>): Room
    requires Possible(s, acts)
    decreases acts
  {
    if acts == [] then s else Final(Next(s, acts[0]), acts[1..])
  }

  lemma InitialInv(s: Room)
    requires Initial(s)
    ensures Inv(s)
  {
    forall c | 0 <= c < |s.clients| ensures ClientOk([], 0, s.clients[c]) {
      var h :| s.clients[c] == Client(Poller("", {}, [h], []), None, false, 0);
    }
  }

  lemma {:induction false} InvAfter(s: Room, acts: seq<Action>)
    requires Inv(s) && Possible(s, acts)
    ensures Inv(Final(s, acts))
    decreases acts
  {
    if acts != [] {
      StepKeeps(s, acts[0]);
      InvAfter(Next(s, acts[0]), acts[1..]);
    }
  }

  /**
   * Whatever happens, every handler of every client has seen a subsequence of what
   * was posted, in the order of posting, and no message twice; and what the endpoint
   * stores is the newest part of what was posted.
   */
  lemma SeenInPostOrder(s: Room, acts: seq<Action>, c: nat, h: HandlerId)
    requires Initial(s) && Possible(s, acts) && c < |Final(s, acts).clients|
    ensures
      var end := Final(s, acts);
      var seen := SeenBy(end.clients[c].poller.log, h);
      && Subsequence(seen, end.posted) && NoDuplicates(seen)
      && |end.file| <= |end.posted| && end.file == end.posted[|end.posted| - |end.file|..]
  {
    InitialInv(s);
    InvAfter(s, acts);
    var end := Final(s, acts);
    var client := end.clients[c];
    assert ClientOk(end.posted, end.Cut(), client);
    var seen := SeenBy(client.poller.log, h);
    SubsequenceLonger(seen, end.posted[..client.mark], end.posted[client.mark..]);
    assert end.posted[..client.mark] + end.posted[client.mark..] == end.posted;
    ApartNoDuplicates(end.posted);
    SubsequenceMembers(seen, end.posted);
  }

  lemma StoredFrom(s: Room)
    requires Inv(s)
    ensures forall k :: 0 <= k < |s.posted| ==> (s.posted[k] in s.file <==> k >= s.Cut())
  {
    forall k | 0 <= k < |s.posted| ensures s.posted[k] in s.file <==> k >= s.Cut() {
      if k >= s.Cut() {
        assert s.file[k - s.Cut()] == s.posted[k];
      } else {
        forall i | 0 <= i < |s.file| ensures s.file[i] != s.posted[k] {
          assert s.file[i] == s.posted[s.Cut() + i] && Apart(s.posted, k, s.Cut() + i);
        }
      }
    }
  }

  lemma ArriveDelivers(s: Room, c: nat)
    requires Inv(s) && Enabled(s, Arrive(c)) && !s.clients[c].stopped
    ensures
      forall k :: 0 <= k < |s.posted| && k < s.clients[c].inFlight.value.upTo && s.posted[k] in s.file
        ==> s.posted[k].id in Answered(s.clients[c]).poller.delivered
  {
    ArriveOk(s.posted, s.clock, s.Cut(), s.clients[c]);
    StoredFrom(s);
  }

  /**
   * A poll that succeeds leaves every message delivered that had been posted when
   * the endpoint handled it and is still stored.
   */
  lemma PollDelivers(s: Room, acts: seq<Action>, c: nat)
    requires Initial(s) && Possible(s, acts)
    requires Enabled(Final(s, acts), Arrive(c)) && !Final(s, acts).clients[c].stopped
    ensures
      var before := Final(s, acts);
      var after := Next(before, Arrive(c));
      forall k :: 0 <= k < |before.posted| && k < before.clients[c].inFlight.value.upTo && before.posted[k] in after.file
        ==> before.posted[k].id in after.clients[c].poller.delivered
  {
    InitialInv(s);
    InvAfter(s, acts);
    ArriveDelivers(Final(s, acts), c);
  }

  /** What has been delivered at a client has been seen by each handler that was there from the start. */
  ghost predicate Loyal(posted: seq<Item>, p: Poller, h: HandlerId) {
    h in p.handlers && forall k :: 0 <= k < |posted| && posted[k].id in p.delivered ==> posted[k] in SeenBy(p.log, h)
  }

  lemma LoyalStep(s: Room, a: Action, c: nat, h: HandlerId)
    requires Inv(s) && Enabled(s, a) && c < |s.clients| && a != Unsubscribe(c, h)
    requires Loyal(s.posted, s.clients[c].poller, h)
    ensures Loyal(Next(s, a).posted, Next(s, a).clients[c].poller, h)
  {
    match a
    case Post(id, m) => LoyalPost(s, c, h, Item(id, s.clock, m));
    case Arrive(d) =>
      if d == c && !s.clients[c].stopped {
        LoyalArrive(s, c, h);
      }
    case Unsubscribe(d, g) =>
      if d == c {
        assert ClientOk(s.posted, s.Cut(), s.clients[c]);
        WithoutMembers(s.clients[c].poller.handlers, g);
      }
    case _ =>
  }

  lemma LoyalPost(s: Room, c: nat, h: HandlerId, item: Item)
    requires Inv(s) && c < |s.clients| && Loyal(s.posted, s.clients[c].poller, h)
    requires forall k :: 0 <= k < |s.posted| ==> s.posted[k].id != item.id
    ensures Loyal(s.posted + [item], s.clients[c].poller, h)
  {
    assert ClientOk(s.posted, s.Cut(), s.clients[c]);
    IdsMembers(s.posted, item.id);
  }

  /** What a reply delivers, and what it shows to a subscribed handler. */
  lemma ArriveShows(s: Room, c: nat, h: HandlerId)
    requires Inv(s) && c < |s.clients| && s.clients[c].inFlight.Some? && !s.clients[c].stopped
    requires h in s.clients[c].poller.handlers
    ensures
      var client := s.clients[c];
      SeenBy(Answered(client).poller.log, h)
        == SeenBy(client.poller.log, h) + News(client.poller.delivered, client.inFlight.value.reply.messages)
  {
    var client := s.clients[c];
    assert ClientOk(s.posted, s.Cut(), client);
    SeenAfter(client.poller.log, client.poller.handlers, News(client.poller.delivered, client.inFlight.value.reply.messages), h);
  }

  lemma NewsShown(s: Room, c: nat, k: nat)
    requires Inv(s) && c < |s.clients| && s.clients[c].inFlight.Some? && k < |s.posted|
    requires s.posted[k].id !in s.clients[c].poller.delivered
    requires s.posted[k].id in IdsOf(s.clients[c].inFlight.value.reply.messages)
    ensures s.posted[k] in News(s.clients[c].poller.delivered, s.clients[c].inFlight.value.reply.messages)
  {
    var client := s.clients[c];
    assert ClientOk(s.posted, s.Cut(), client);
    NewsInReply(s.posted, client.poller, client.inFlight.value, s.Cut(), client.mark, k);
  }

  lemma InStretch(posted: seq<Item>, from: nat, upTo: nat, k: nat)
    requires from <= k < upTo <= |posted|
    ensures posted[k] in posted[from..upTo]
  {
    assert posted[from..upTo][k - from] == posted[k];
  }

  lemma NewsInReply(posted: seq<Item>, p: Poller, f: InFlight, cut: int, mark: nat, k: nat)
    requires AllApart(posted) && UpToMark(posted, p, mark) && ReplyOk(posted, p, f, cut, mark)
    requires k < |posted| && posted[k].id !in p.delivered && posted[k].id in IdsOf(f.reply.messages)
    ensures posted[k] in News(p.delivered, f.reply.messages)
  {
    var from := f.upTo - |f.reply.messages|;
    var n := Later(from, mark, f.upTo);
    RepliedNews(posted, p, f, cut, mark);
    IdInStretch(posted, from, f.upTo, k);
    InStretch(posted, n, f.upTo, k);
  }

  lemma LoyalArrive(s: Room, c: nat, h: HandlerId)
    requires Inv(s) && c < |s.clients| && s.clients[c].inFlight.Some? && !s.clients[c].stopped
    requires Loyal(s.posted, s.clients[c].poller, h)
    ensures Loyal(s.posted, Answered(s.clients[c]).poller, h)
  {
    var client := s.clients[c];
    ArriveShows(s, c, h);
    forall k | 0 <= k < |s.posted| && s.posted[k].id in Answered(client).poller.delivered
      ensures s.posted[k] in SeenBy(Answered(client).poller.log, h)
    {
      if s.posted[k].id !in client.poller.delivered {
        NewsShown(s, c, k);
      }
    }
  }

  lemma {:induction false} LoyalAfter(s: Room, acts: seq<Action>, c: nat, h: HandlerId)
    requires Inv(s) && Possible(s, acts) && c < |s.clients| && Unsubscribe(c, h) !in acts
    requires Loyal(s.posted, s.clients[c].poller, h)
    ensures c < |Final(s, acts).clients| && Loyal(Final(s, acts).posted, Final(s, acts).clients[c].poller, h)
    decreases acts
  {
    if acts != [] {
      StepKeeps(s, acts[0]);
      LoyalStep(s, acts[0], c, h);
      LoyalAfter(Next(s, acts[0]), acts[1..], c, h);
    }
  }

  /** A handler that is there from the start and does not leave has seen everything its client has had delivered. */
  lemma LoyalHandlerSeesAll(s: Room, acts: seq<Action>, c: nat, h: HandlerId)
    requires Initial(s) && Possible(s, acts) && c < |s.clients| && h in s.clients[c].poller.handlers && Unsubscribe(c, h) !in acts
    ensures c < |Final(s, acts).clients| && Loyal(Final(s, acts).posted, Final(s, acts).clients[c].poller, h)
  {
    InitialInv(s);
    LoyalAfter(s, acts, c, h);
  }

  // ----- no message is lost

  /** Every message that is not expired is stored or has been delivered at the client. */
  ghost predicate NothingLost(s: Room, c: nat)
    requires c < |s.clients|
  {
    forall k :: 0 <= k < |s.posted| ==> Safe(s, c, s.posted[k])
  }

  ghost predicate Safe(s: Room, c: nat, item: Item)
    requires c < |s.clients|
  {
    item in s.file || item.id in s.clients[c].poller.delivered || !Live(item, s.clock)
  }

  /** A request that finds its cursor in the stored list has one that client `c` has had delivered. */
  predicate CutsBehind(s: Room, a: Action, c: nat)
    requires c < |s.clients| && (a.Request? ==> a.c < |s.clients|)
  {
    a.Request? ==>
      var alive, cursor := Alive(s.file, s.clock), s.clients[a.c].poller.cursor;
      cursor != "" && IndexOf(alive, cursor) < |alive| ==> cursor in s.clients[c].poller.delivered
  }

  ghost predicate AlwaysNothingLost(s: Room, acts: seq<Action>, c: nat)
    requires Possible(s, acts) && c < |s.clients|
    decreases acts
  {
    NothingLost(s, c) && (acts == [] || AlwaysNothingLost(Next(s, acts[0]), acts[1..], c))
  }

  ghost predicate AlwaysCutsBehind(s: Room, acts: seq<Action>, c: nat)
    requires Possible(s, acts) && c < |s.clients|
    decreases acts
  {
    acts == [] || (CutsBehind(s, acts[0], c) && AlwaysCutsBehind(Next(s, acts[0]), acts[1..], c))
  }

  lemma PostLosesNothing(s: Room, c: nat, id: string, m: Message)
    requires Inv(s) && Enabled(s, Post(id, m)) && c < |s.clients| && NothingLost(s, c)
    ensures NothingLost(Next(s, Post(id, m)), c)
  {
    var s' := Next(s, Post(id, m));
    var n := StoredAlive(s);
    PostKeeps(s, id, m);
    StoredFrom(s);
    StoredFrom(s');
    assert s'.Cut() == n;
    forall k | 0 <= k < |s'.posted| ensures Safe(s', c, s'.posted[k]) {
      if k < |s.posted| {
        assert s'.posted[k] == s.posted[k] && Safe(s, c, s.posted[k]);
      }
    }
  }

  /** What is stored before something delivered has been delivered as well. */
  lemma DeliveredBefore(s: Room, c: nat, k: nat)
    requires Inv(s) && c < |s.clients| && k < |s.posted| && s.posted[k].id in s.clients[c].poller.delivered
    ensures forall j :: 0 <= j <= k && s.Cut() <= j ==> s.posted[j].id in s.clients[c].poller.delivered
  {
    assert ClientOk(s.posted, s.Cut(), s.clients[c]);
  }

  /** Where a request cuts the list, and that it does so behind client `c` when the item before the cut was delivered there. */
  lemma CutPoint(s: Room, d: nat, c: nat) returns (n: nat, m: nat)
    requires Inv(s) && Enabled(s, Request(d)) && c < |s.clients|
    ensures s.Cut() <= n <= m <= |s.posted| && m == Next(s, Request(d)).Cut()
    ensures forall k :: s.Cut() <= k < n ==> !Live(s.posted[k], s.clock)
    ensures forall k :: n <= k < |s.posted| ==> Live(s.posted[k], s.clock)
    ensures CutsBehind(s, Request(d), c) <==> (n < m ==> s.posted[m - 1].id in s.clients[c].poller.delivered)
  {
    n, m := KeptIsSuffix(s, d);
    var alive, cursor := Alive(s.file, s.clock), s.clients[d].poller.cursor;
    var i := IndexOf(alive, cursor);
    assert i < |alive| ==> s.posted[n + i].id == cursor;
  }

  /** What a request cuts away is safe exactly when it has been delivered; what else is safe stays so. */
  lemma SafeAfterRequest(s: Room, s': Room, c: nat, n: nat, m: nat, k: nat)
    requires c < |s.clients| && c < |s'.clients| && k < |s.posted| && s'.posted == s.posted && s'.clock == s.clock
    requires s'.clients[c].poller == s.clients[c].poller && Safe(s, c, s.posted[k])
    requires s.posted[k] in s.file <==> k >= s.Cut()
    requires s.posted[k] in s'.file <==> k >= m
    requires s.Cut() <= n <= m && (s.Cut() <= k ==> (Live(s.posted[k], s.clock) <==> k >= n))
    ensures Safe(s', c, s.posted[k]) <==> !(n <= k < m) || s.posted[k].id in s.clients[c].poller.delivered
  {
  }

  lemma CutLosesNothingExactly(s: Room, s': Room, c: nat, n: nat, m: nat)
    requires Inv(s) && c < |s.clients| && c < |s'.clients| && s'.posted == s.posted && s.Cut() <= n <= m <= |s.posted|
    requires forall k :: 0 <= k < |s.posted| ==>
               (Safe(s', c, s.posted[k]) <==> !(n <= k < m) || s.posted[k].id in s.clients[c].poller.delivered)
    ensures NothingLost(s', c) <==> (n < m ==> s.posted[m - 1].id in s.clients[c].poller.delivered)
  {
    if n < m {
      assert NothingLost(s', c) ==> Safe(s', c, s.posted[m - 1]);
      if s.posted[m - 1].id in s.clients[c].poller.delivered {
        DeliveredBefore(s, c, m - 1);
      }
    }
  }

  lemma RequestLosesNothingExactly(s: Room, c: nat, d: nat)
    requires Inv(s) && Enabled(s, Request(d)) && c < |s.clients| && NothingLost(s, c)
    ensures NothingLost(Next(s, Request(d)), c) <==> CutsBehind(s, Request(d), c)
  {
    var s' := Next(s, Request(d));
    var n, m := CutPoint(s, d, c);
    RequestKeeps(s, d);
    StoredFrom(s);
    StoredFrom(s');
    forall k | 0 <= k < |s.posted|
      ensures Safe(s', c, s.posted[k]) <==> !(n <= k < m) || s.posted[k].id in s.clients[c].poller.delivered
    {
      assert Safe(s, c, s.posted[k]);
      SafeAfterRequest(s, s', c, n, m, k);
    }
    CutLosesNothingExactly(s, s', c, n, m);
  }

  lemma QuietStep(s: Room, a: Action, c: nat)
    requires Enabled(s, a) && c < |s.clients| && !a.Post? && !a.Request?
    ensures Next(s, a).posted == s.posted && Next(s, a).file == s.file && Next(s, a).clock >= s.clock
    ensures c < |Next(s, a).clients| && s.clients[c].poller.delivered <= Next(s, a).clients[c].poller.delivered
  {
  }

  lemma QuietLosesNothing(s: Room, a: Action, c: nat)
    requires Enabled(s, a) && c < |s.clients| && NothingLost(s, c) && !a.Post? && !a.Request?
    ensures c < |Next(s, a).clients| && NothingLost(Next(s, a), c)
  {
    QuietStep(s, a, c);
    forall k | 0 <= k < |s.posted| ensures Safe(Next(s, a), c, s.posted[k]) {
      assert Safe(s, c, s.posted[k]);
    }
  }

  lemma StepLosesNothingExactly(s: Room, a: Action, c: nat)
    requires Inv(s) && Enabled(s, a) && c < |s.clients| && NothingLost(s, c)
    ensures NothingLost(Next(s, a), c) <==> CutsBehind(s, a, c)
  {
    match a
    case Post(id, m) => PostLosesNothing(s, c, id, m);
    case Request(d) => RequestLosesNothingExactly(s, c, d);
    case _ => QuietLosesNothing(s, a, c);
  }

  lemma {:induction false} NothingLostFrom(s: Room, acts: seq<Action>, c: nat)
    requires Inv(s) && Possible(s, acts) && c < |s.clients| && NothingLost(s, c)
    ensures AlwaysNothingLost(s, acts, c) <==> AlwaysCutsBehind(s, acts, c)
    decreases acts
  {
    if acts != [] {
      var s' := Next(s, acts[0]);
      StepLosesNothingExactly(s, acts[0], c);
      if CutsBehind(s, acts[0], c) {
        StepKeeps(s, acts[0]);
        NothingLostFrom(s', acts[1..], c);
      }
    }
  }

  /**
   * Exactly when no message is lost for a client: at every moment each message
   * posted in the last minute is stored or has been delivered at that client, if and
   * only if every request that finds its cursor in the stored list has a cursor that was
   * delivered at that client too.
   */
  lemma NothingLostExactly(s: Room, acts: seq<Action>, c: nat)
    requires Initial(s) && Possible(s, acts) && c < |s.clients|
    ensures AlwaysNothingLost(s, acts, c) <==> AlwaysCutsBehind(s, acts, c)
  {
    InitialInv(s);
    NothingLostFrom(s, acts, c);
  }

  lemma OwnRequestCutsBehind(s: Room, a: Action, c: nat)
    requires Inv(s) && Enabled(s, a) && c < |s.clients| && (a.Request? ==> a.c == c)
    ensures CutsBehind(s, a, c)
  {
    if a.Request? {
      var n, m := KeptIsSuffix(s, c);
      assert ClientOk(s.posted, s.Cut(), s.clients[c]);
    }
  }

  lemma {:induction false} OnePollerCutsBehind(s: Room, acts: seq<Action>)
    requires Inv(s) && Possible(s, acts) && |s.clients| == 1
    ensures AlwaysCutsBehind(s, acts, 0)
    decreases acts
  {
    if acts != [] {
      OwnRequestCutsBehind(s, acts[0], 0);
      StepKeeps(s, acts[0]);
      OnePollerCutsBehind(Next(s, acts[0]), acts[1..]);
    }
  }

  /** With one polling client in the room nothing is lost, though replies may be. */
  lemma OnePollerLosesNothing(s: Room, acts: seq<Action>)
    requires Initial(s) && Possible(s, acts) && |s.clients| == 1
    ensures AlwaysNothingLost(s, acts, 0)
  {
    InitialInv(s);
    OnePollerCutsBehind(s, acts);
    NothingLostFrom(s, acts, 0);
  }

  // ----- two polling clients

  lemma {:induction false} AppendAction(s: Room, acts: seq<Action>, a: Action)
    requires Possible(s, acts) && Enabled(Final(s, acts), a)
    ensures Possible(s, acts + [a]) && Final(s, acts + [a]) == Next(Final(s, acts), a)
    decreases acts
  {
    if acts == [] {
      assert acts + [a] == [a] && [a][1..] == [];
    } else {
      assert (acts + [a])[0] == acts[0] && (acts + [a])[1..] == acts[1..] + [a];
      AppendAction(Next(s, acts[0]), acts[1..], a);
    }
  }

  lemma OneItem(item: Item, now: int)
    ensures Alive([item], now) == if Live(item, now) then [item] else []
    ensures IndexOf([item], item.id) == 0
    ensures IdsOf([item]) == {item.id}
  {
    assert [item][..0] == [];
  }

  /** One message has been posted just now; the second of two clients has not polled. */
  ghost predicate Fresh(s: Room, item: Item) {
    && s.file == [item] && s.posted == [item] && item.ts == s.clock && item.id != ""
    && |s.clients| == 2 && Untouched(s.clients[1]) && !s.clients[0].stopped
  }

  ghost predicate Untouched(c: Client) {
    c.poller.delivered == {} && c.inFlight.None?
  }

  lemma FreshPost(s: Room, id: string, m: Message)
    requires Initial(s) && |s.clients| == 2 && id != "" && KnownKind(m.kind)
    ensures Enabled(s, Post(id, m)) && Fresh(Next(s, Post(id, m)), Item(id, s.clock, m))
    ensures
      var c := Next(s, Post(id, m)).clients[0];
      c.inFlight.None? && c.poller.cursor == ""
  {
    assert Alive([], s.clock) == [];
    var h :| s.clients[0] == Client(Poller("", {}, [h], []), None, false, 0);
    var h' :| s.clients[1] == Client(Poller("", {}, [h'], []), None, false, 0);
  }

  lemma FreshRequest(s: Room, item: Item)
    requires Fresh(s, item) && s.clients[0].inFlight.None? && s.clients[0].poller.cursor == ""
    ensures Enabled(s, Request(0)) && Fresh(Next(s, Request(0)), item)
    ensures
      var c := Next(s, Request(0)).clients[0];
      c.inFlight.Some? && c.inFlight.value.reply == PollReply([item], item.id)
  {
    OneItem(item, s.clock);
  }

  lemma FreshArrive(s: Room, item: Item)
    requires Fresh(s, item) && s.clients[0].inFlight.Some? && s.clients[0].inFlight.value.reply == PollReply([item], item.id)
    ensures Enabled(s, Arrive(0)) && Fresh(Next(s, Arrive(0)), item)
    ensures
      var c := Next(s, Arrive(0)).clients[0];
      c.inFlight.None? && c.poller.cursor == item.id
  {
  }

  lemma FreshCutAway(s: Room, item: Item)
    requires Fresh(s, item) && s.clients[0].inFlight.None? && s.clients[0].poller.cursor == item.id
    ensures Enabled(s, Request(0))
    ensures
      var end := Next(s, Request(0));
      end.posted == [item] && end.clock == item.ts && end.file == [] && |end.clients| == 2 && Untouched(end.clients[1])
  {
    OneItem(item, s.clock);
    assert [item][1..] == [];
  }

  /** The first client polls once and gets the message. */
  lemma FirstPolls(s: Room, id: string, m: Message) returns (acts: seq<Action>)
    requires Initial(s) && |s.clients| == 2 && id != "" && KnownKind(m.kind)
    ensures acts == [Post(id, m)] + [Request(0)] + [Arrive(0)] && Possible(s, acts)
    ensures Fresh(Final(s, acts), Item(id, s.clock, m))
    ensures
      var c := Final(s, acts).clients[0];
      c.inFlight.None? && c.poller.cursor == id
  {
    var item := Item(id, s.clock, m);
    FreshPost(s, id, m);
    AppendAction(s, [], Post(id, m));
    var acts1 := [] + [Post(id, m)];
    FreshRequest(Final(s, acts1), item);
    AppendAction(s, acts1, Request(0));
    var acts2 := acts1 + [Request(0)];
    FreshArrive(Final(s, acts2), item);
    AppendAction(s, acts2, Arrive(0));
    acts := acts2 + [Arrive(0)];
  }

  /**
   * With two polling clients a fresh message can be lost for one of them: the other
   * polls twice, and its second request cuts the message out of the stored list
   * before the first has asked for it.
   */
  lemma TwoPollersLose(s: Room, id: string, m: Message) returns (acts: seq<Action>)
    requires Initial(s) && |s.clients| == 2 && id != "" && KnownKind(m.kind)
    ensures acts == [Post(id, m)] + [Request(0)] + [Arrive(0)] + [Request(0)]
    ensures Possible(s, acts)
    ensures
      var end := Final(s, acts);
      && end.posted == [Item(id, s.clock, m)] && end.clock == s.clock
      && end.file == [] && |end.clients| == 2 && Untouched(end.clients[1])
  {
    var polled := FirstPolls(s, id, m);
    FreshCutAway(Final(s, polled), Item(id, s.clock, m));
    AppendAction(s, polled, Request(0));
    acts := polled + [Request(0)];
  }
}
