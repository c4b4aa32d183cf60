/** Calling handlers with messages: every message goes to every handler, in order. */
module Dispatch {
  import opened Common

  type HandlerId = nat

  datatype Delivery<+M> = Delivery(handler: HandlerId, message: M)

  function DeliverOne<M>(handlers: seq<HandlerId>, m: M): seq<Delivery<M>> {
    seq(|handlers|, i requires 0 <= i < |handlers| => Delivery(handlers[i], m))
  }

  function DeliverAll<M>(handlers: seq<HandlerId>, messages: seq<M>): seq<Delivery<M>> {
    if messages == [] then []
    else DeliverAll(handlers, messages[..|messages| - 1]) + DeliverOne(handlers, messages[|messages| - 1])
  }

  /** The messages that one handler has been called with. */
  function SeenBy<M>(log: seq<Delivery<M>>, h: HandlerId): seq<M> {
    if log == [] then []
    else
      var last := log[|log| - 1];
      SeenBy(log[..|log| - 1], h) + if last.handler == h then [last.message] else []
  }

  lemma DeliverAllSnoc<M>(handlers: seq<HandlerId>, messages: seq<M>, m: M)
    ensures DeliverAll(handlers, messages + [m]) == DeliverAll(handlers, messages) + DeliverAll(handlers, [m])
  {
    assert (messages + [m])[..|messages|] == messages;
    assert [m][..0] == [];
  }

  lemma {:induction false} NoSubscribers<M>(messages: seq<M>)
    ensures DeliverAll([], messages) == []
  {
    if messages != [] {
      NoSubscribers(messages[..|messages| - 1]);
    }
  }

  lemma {:induction false} SeenByConcat<M>(a: seq<Delivery<M>>, b: seq<Delivery<M>>, h: HandlerId)
    ensures SeenBy(a + b, h) == SeenBy(a, h) + SeenBy(b, h)
  {
    if b == [] {
      assert a + b == a;
    } else {
      var n := |b| - 1;
      assert (a + b)[..|a + b| - 1] == a + b[..n];
      SeenByConcat(a, b[..n], h);
    }
  }

  lemma {:induction false} SeenInOne<M>(handlers: seq<HandlerId>, m: M, h: HandlerId)
    requires NoDuplicates(handlers)
    ensures SeenBy(DeliverOne(handlers, m), h) == if h in handlers then [m] else []
  {
    if handlers != [] {
      var n := |handlers| - 1;
      SeenInOne(handlers[..n], m, h);
      assert DeliverOne(handlers, m)[..n] == DeliverOne(handlers[..n], m);
      assert h in handlers <==> h in handlers[..n] || h == handlers[n];
    }
  }

  /** Whoever else is subscribed, a subscriber sees the messages once each, in order, and nobody else sees any. */
  lemma {:induction false} SeenInAll<M>(handlers: seq<HandlerId>, messages: seq<M>, h: HandlerId)
    requires NoDuplicates(handlers)
    ensures SeenBy(DeliverAll(handlers, messages), h) == if h in handlers then messages else []
  {
    if messages != [] {
      var n := |messages| - 1;
      SeenInAll(handlers, messages[..n], h);
      SeenInOne(handlers, messages[n], h);
      SeenByConcat(DeliverAll(handlers, messages[..n]), DeliverOne(handlers, messages[n]), h);
    }
  }

  /** What a log shows to a handler after more messages have been delivered. */
  lemma SeenAfter<M>(log: seq<Delivery<M>>, handlers: seq<HandlerId>, messages: seq<M>, h: HandlerId)
    requires NoDuplicates(handlers)
    ensures SeenBy(log + DeliverAll(handlers, messages), h) == SeenBy(log, h) + if h in handlers then messages else []
  {
    SeenInAll(handlers, messages, h);
    SeenByConcat(log, DeliverAll(handlers, messages), h);
  }

  /** `handlers` as a `Set`: adding one that is there changes nothing. */
  function WithHandler(handlers: seq<HandlerId>, h: HandlerId): seq<HandlerId> {
    if h in handlers then handlers else handlers + [h]
  }

  /** The two loops of a delivery: messages outside, handlers inside. */
  method CallHandlers<M>(handlers: seq<HandlerId>, messages: seq<M>) returns (calls: seq<Delivery<M>>)
    ensures calls == DeliverAll(handlers, messages)
  {
    calls := [];
    for n := 0 to |messages|
      invariant calls == DeliverAll(handlers, messages[..n])
    {
      ghost var before := calls;
      for i := 0 to |handlers|
        invariant calls == before + DeliverOne(handlers, messages[n])[..i]
      {
        calls := calls + [Delivery(handlers[i], messages[n])];
      }
      assert messages[..n + 1][..n] == messages[..n];
    }
    assert messages[..|messages|] == messages;
  }

  function WithoutHandler(handlers: seq<HandlerId>, h: HandlerId): seq<HandlerId> {
    if handlers == [] then []
    else if handlers[0] == h then handlers[1..]
    else [handlers[0]] + WithoutHandler(handlers[1..], h)
  }

  lemma {:induction false} WithoutAt(handlers: seq<HandlerId>, i: nat)
    requires i < |handlers| && handlers[i] !in handlers[..i]
    ensures WithoutHandler(handlers, handlers[i]) == RemoveAt(handlers, i)
  {
    if i > 0 {
      assert handlers[0] == handlers[..i][0];
      assert handlers[..i] == [handlers[0]] + handlers[1..][..i - 1];
      WithoutAt(handlers[1..], i - 1);
      assert [handlers[0]] + RemoveAt(handlers[1..], i - 1) == RemoveAt(handlers, i);
    }
  }

  lemma {:induction false} WithoutAbsent(handlers: seq<HandlerId>, h: HandlerId)
    requires h !in handlers
    ensures WithoutHandler(handlers, h) == handlers
  {
    if handlers != [] {
      WithoutAbsent(handlers[1..], h);
      assert handlers == [handlers[0]] + handlers[1..];
    }
  }

  lemma WithoutMembers(handlers: seq<HandlerId>, h: HandlerId)
    requires NoDuplicates(handlers)
    ensures NoDuplicates(WithoutHandler(handlers, h))
    ensures forall x :: x in WithoutHandler(handlers, h) <==> x in handlers && x != h
  {
    if h in handlers {
      var i :| 0 <= i < |handlers| && handlers[i] == h;
      WithoutAt(handlers, i);
      RemoveAtMembers(handlers, i);
    } else {
      WithoutAbsent(handlers, h);
    }
  }

  method RemoveHandler(handlers: seq<HandlerId>, h: HandlerId) returns (left: seq<HandlerId>)
    ensures left == WithoutHandler(handlers, h)
  {
    for i := 0 to |handlers|
      invariant h !in handlers[..i]
    {
      if handlers[i] == h {
        WithoutAt(handlers, i);
        return RemoveAt(handlers, i);
      }
    }
    WithoutAbsent(handlers, h);
    left := handlers;
  }

  /** The calls of a delivery: all handlers for the first message, in order, then all for the second, and so on. */
  lemma {:induction false} CallsInOrder<M>(handlers: seq<HandlerId>, messages: seq<M>, n: nat, i: nat)
    requires n < |messages| && i < |handlers|
    ensures |DeliverAll(handlers, messages)| == |messages| * |handlers|
    ensures n * |handlers| + i < |DeliverAll(handlers, messages)|
    ensures DeliverAll(handlers, messages)[n * |handlers| + i] == Delivery(handlers[i], messages[n])
  {
    var last := |messages| - 1;
    CallsCount(handlers, messages);
    CallsCount(handlers, messages[..last]);
    Position(n, i, |handlers|, last);
    if n < last {
      CallsInOrder(handlers, messages[..last], n, i);
    }
  }

  lemma Position(n: nat, i: nat, size: nat, last: nat)
    requires n <= last && i < size
    ensures n * size + i < (last + 1) * size && (n < last ==> n * size + i < last * size)
  {
    assert (n + 1) * size == n * size + size;
    assert (n + 1) * size <= (last + 1) * size;
    assert n < last ==> (n + 1) * size <= last * size;
  }

  lemma {:induction false} CallsCount<M>(handlers: seq<HandlerId>, messages: seq<M>)
    ensures |DeliverAll(handlers, messages)| == |messages| * |handlers|
  {
    if messages != [] {
      CallsCount(handlers, messages[..|messages| - 1]);
      assert |messages| * |handlers| == (|messages| - 1) * |handlers| + |handlers|;
    }
  }

  /** Handlers are called in the order in which they subscribed. */
  lemma SubscribedLast(handlers: seq<HandlerId>, h: HandlerId)
    ensures handlers <= WithHandler(handlers, h) && h in WithHandler(handlers, h)
    ensures |WithHandler(handlers, h)| == if h in handlers then |handlers| else |handlers| + 1
  {
    if h !in handlers {
      assert WithHandler(handlers, h)[|handlers|] == h;
    }
  }

  /** A handler that leaves is taken out, and the order of the others stays. */
  lemma LeavesOrder(handlers: seq<HandlerId>, h: HandlerId, i: nat)
    requires NoDuplicates(handlers) && i < |handlers| && handlers[i] == h
    ensures WithoutHandler(handlers, h) == handlers[..i] + handlers[i + 1..]
  {
    WithoutAt(handlers, i);
  }
}
