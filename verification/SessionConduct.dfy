/**
 * What each message and each finished operation means for a session, field by
 * field: which messages are refused, what an offer, an answer and a bye change, and
 * that a session that has said goodbye stays silent.
 */
module SessionConduct {
  import opened Common
  import opened Ids
  import opened NegotiationSteps

  /** From another peer with an id, the known one if there is one, and addressed to this one where it has an address. */
  predicate Meant(p: Peer, msg: Signal) {
    && |msg.from| == 26 && (forall i :: 0 <= i < 26 ==> IsIdChar(msg.from[i]))
    && msg.from != p.id
    && (p.remote == None || p.remote == Some(msg.from))
    && (msg.AnswerSignal? || msg.IceSignal? ==> |msg.to| == 26 && (forall i :: 0 <= i < 26 ==> IsIdChar(msg.to[i])) && msg.to == p.id)
  }

  /**
   * A message from the session itself, from a stranger or from nobody, an answer or a
   * candidate for another peer, any message once the connection is gone, and every
   * candidate, leave the session as it was.
   */
  lemma RefusedUntouched(p: Peer, msg: Signal)
    requires !Meant(p, msg) || p.pc.None? || msg.IceSignal?
    ensures Handle(p, msg).peer == p && Handle(p, msg).published == []
  {
  }

  /** The fields that a message leaves alone, whatever it is. */
  predicate SameSession(p: Peer, p': Peer) {
    && p'.id == p.id && p'.role == p.role && p'.makingOffer == p.makingOffer && p'.publishing == p.publishing
    && p'.errors == p.errors
  }

  /**
   * An offer: the impolite inviter ignores it, and remembers that it did, when it is
   * making an offer or its own is pending; otherwise the connection is asked to apply
   * it after what it was asked before, and its sender is known from then on.
   */
  lemma OfferConduct(p: Peer, from: PeerId, o: Offer, r: Reaction)
    requires Meant(p, OfferSignal(from, o)) && p.pc.Some? && r == Handle(p, OfferSignal(from, o))
    ensures SameSession(p, r.peer) && r.published == [] && r.peer.closed == p.closed
    ensures
      var collides := p.makingOffer || p.pc.value.signaling.HaveLocalOffer?;
      if p.role == Inviter && collides then
        && r.peer.ignoreOffer && r.peer.ignored == p.ignored + [o]
        && r.peer.remote == p.remote && r.peer.pc == p.pc
      else
        && !r.peer.ignoreOffer && r.peer.ignored == p.ignored
        && r.peer.remote == Some(from)
        && r.peer.pc == Some(p.pc.value.(chain := p.pc.value.chain + [RemoteOffer(o)]))
  {
  }

  /** An answer: the connection is asked to apply it, whatever state it is in, and its sender is known from then on. */
  lemma AnswerConduct(p: Peer, from: PeerId, answer: Description, r: Reaction)
    requires Meant(p, AnswerSignal(from, p.id, answer)) && p.pc.Some? && r == Handle(p, AnswerSignal(from, p.id, answer))
    ensures SameSession(p, r.peer) && r.published == [] && r.peer.closed == p.closed
    ensures r.peer.ignoreOffer == p.ignoreOffer && r.peer.ignored == p.ignored && r.peer.remote == Some(from)
    ensures r.peer.pc == Some(p.pc.value.(chain := p.pc.value.chain + [RemoteAnswer(answer)]))
  {
  }

  // ----- goodbye

  lemma {:induction false} SilentWithoutConnection(p: Peer, messages: seq<Signal>)
    requires p.pc.None?
    ensures HandleAll(p, messages) == Reaction(p, [])
    decreases messages
  {
    if messages != [] {
      SilentWithoutConnection(p, messages[1..]);
    }
  }

  /**
   * A bye from the other peer closes the session and is answered with exactly one bye.
   * A second bye while that is being published changes nothing. When it has been
   * published the connection is gone, and from then on no message, bye or other,
   * changes or publishes anything.
   */
  lemma ByeCloses(p: Peer, from: PeerId, again: PeerId, later: seq<Signal>)
    requires Meant(p, ByeSignal(from)) && p.pc.Some? && !p.closed
    ensures
      var r := Handle(p, ByeSignal(from));
      && r.published == [ByeSignal(p.id)]
      && r.peer.closed && r.peer == p.(closed := true)
      && Handle(r.peer, ByeSignal(again)) == Reaction(r.peer, [])
      && EndClose(r.peer) == p.(closed := true, pc := None)
      && HandleAll(EndClose(r.peer), later) == Reaction(p.(closed := true, pc := None), [])
  {
    SilentWithoutConnection(p.(closed := true, pc := None), later);
  }

  /** Closing from this side does the same, once. */
  lemma CloseOnce(p: Peer)
    ensures p.closed ==> Close(p).peer == p && Close(p).published == []
    ensures !p.closed ==> Close(p).peer == p.(closed := true) && Close(p).published == [ByeSignal(p.id)]
  {
  }

  /** While its bye is being published a closed session still takes offers and answers. */
  lemma LeavingStillTakes(p: Peer, from: PeerId, o: Offer)
    requires Meant(p, OfferSignal(from, o)) && Leaving(p) && p.role == Joiner
    ensures Handle(p, OfferSignal(from, o)).peer != p
    ensures RemoteOffer(o) in Handle(p, OfferSignal(from, o)).peer.pc.value.chain
  {
    var chain := p.pc.value.chain + [RemoteOffer(o)];
    assert chain[|chain| - 1] == RemoteOffer(o);
    assert chain != p.pc.value.chain by {
      assert |chain| == |p.pc.value.chain| + 1;
    }
  }

  // ----- a finished operation

  /** The fields that only the handlers of messages and the call of `runNegotiation` change. */
  predicate SameFlags(p: Peer, p': Peer) {
    && p'.id == p.id && p'.role == p.role && p'.remote == p.remote && p'.closed == p.closed
    && p'.makingOffer == p.makingOffer && p'.ignoreOffer == p.ignoreOffer && p'.ignored == p.ignored
  }

  /** An offer of one's own, made when no other peer's is pending: it is the next one, it is pending, and it is published. */
  lemma OfferFinished(p: Peer, r: Reaction)
    requires Busy(p) && p.pc.value.chain[0] == LocalOffer && !p.pc.value.signaling.HaveRemoteOffer? && r == Finish(p)
    ensures SameFlags(p, r.peer) && r.peer.errors == p.errors && r.peer.publishing == p.publishing + 1
    ensures
      var pc, o := p.pc.value, Offer(p.role, p.pc.value.made);
      && r.published == [OfferSignal(p.id, o)]
      && r.peer.pc == Some(Connection(HaveLocalOffer(o), pc.chain[1..], pc.made + 1, pc.history, pc.rolledBack))
  {
  }

  /** The other peer's offer: it is pending, a pending offer of one's own is rolled back, and an answer is asked for. */
  lemma RemoteOfferFinished(p: Peer, o: Offer, r: Reaction)
    requires Busy(p) && p.pc.value.chain[0] == RemoteOffer(o) && r == Finish(p)
    ensures SameFlags(p, r.peer) && r.peer.errors == p.errors && r.peer.publishing == p.publishing && r.published == []
    ensures
      var pc := p.pc.value;
      var back := if pc.signaling.HaveLocalOffer? then [pc.signaling.mine] else [];
      r.peer.pc == Some(Connection(HaveRemoteOffer(o), pc.chain[1..] + [LocalAnswer], pc.made, pc.history, pc.rolledBack + back))
  {
    assert p.pc.value.rolledBack + [] == p.pc.value.rolledBack;
  }

  /** An answer of one's own: the exchange is complete, and the answer goes to the peer whose offer it was. */
  lemma AnswerFinished(p: Peer, o: Offer, r: Reaction)
    requires Busy(p) && p.pc.value.chain[0] == LocalAnswer && p.pc.value.signaling == HaveRemoteOffer(o) && r == Finish(p)
    ensures SameFlags(p, r.peer) && r.peer.errors == p.errors && r.peer.publishing == p.publishing
    ensures r.published == if p.remote.Some? then [AnswerSignal(p.id, p.remote.value, AnswerSdp(o))] else []
    ensures
      var pc := p.pc.value;
      r.peer.pc == Some(Connection(Stable, pc.chain[1..], pc.made, pc.history + [Exchange(o, o)], pc.rolledBack))
  {
  }

  /**
   * The other peer's answer: with an offer pending the exchange is complete; otherwise
   * the connection stays as it is, and that is an error unless the last offer that
   * arrived was ignored.
   */
  lemma RemoteAnswerFinished(p: Peer, answer: Description, r: Reaction)
    requires Busy(p) && p.pc.value.chain[0] == RemoteAnswer(answer) && r == Finish(p)
    ensures SameFlags(p, r.peer) && r.peer.publishing == p.publishing && r.published == []
    ensures
      var pc := p.pc.value;
      if pc.signaling.HaveLocalOffer? && answer.AnswerSdp? then
        && r.peer.errors == p.errors
        && r.peer.pc == Some(Connection(Stable, pc.chain[1..], pc.made,
                                        pc.history + [Exchange(pc.signaling.mine, answer.to)], pc.rolledBack))
      else
        && r.peer.errors == (if p.ignoreOffer then p.errors else p.errors + 1)
        && r.peer.pc == Some(pc.(chain := pc.chain[1..]))
  {
  }

  /** The flag is up from the call of `runNegotiation` to the end of a publish, if there is a connection. */
  lemma FlagConduct(p: Peer)
    ensures p.pc.None? ==> BeginOffer(p) == p
    ensures p.pc.Some? ==> BeginOffer(p) == p.(makingOffer := true, pc := Some(p.pc.value.(chain := p.pc.value.chain + [LocalOffer])))
    ensures p.publishing > 0 ==> EndOffer(p) == p.(makingOffer := false, publishing := p.publishing - 1)
  {
  }
}
