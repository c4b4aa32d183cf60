/**
 * The negotiation half of a PeerSession as it is written: an object that updates
 * its fields in place and drives an RTCPeerConnection. A handler of the source waits
 * several times; each method here goes from one wait to the next and is proved to do
 * what NegotiationSteps.dfy says.
 */
module PeerNegotiator {
  import opened Common
  import opened Ids
  import opened NegotiationSteps

  class RtcPeerConnection {
    var signaling: Signaling
    /** The operations chain: what has been called and has not taken effect yet. */
    var chain: seq<Operation>
    var made: nat
    ghost var history: seq<Exchange>
    ghost var rolledBack: seq<Offer>

    ghost function View(): Connection
      reads this
    {
      Connection(signaling, chain, made, history, rolledBack)
    }

    constructor ()
      ensures View() == NEW_CONNECTION
    {
      signaling, chain, made, history, rolledBack := Stable, [], 0, [], [];
    }

    method Call(op: Operation)
      modifies this
      ensures View() == Enqueue(old(View()), op)
    {
      chain := chain + [op];
    }

    method Shift() returns (op: Operation)
      requires chain != []
      modifies this
      ensures op == old(chain[0]) && View() == old(View()).(chain := old(chain[1..]))
    {
      op, chain := chain[0], chain[1..];
    }

    method SetLocalDescription(author: Role) returns (d: Description)
      modifies this
      ensures (View(), d) == SetLocal(old(View()), author)
    {
      if signaling.HaveRemoteOffer? {
        d := AnswerSdp(signaling.theirs);
        history := history + [Exchange(signaling.theirs, signaling.theirs)];
        signaling := Stable;
      } else {
        d := OfferSdp(Offer(author, made));
        signaling := HaveLocalOffer(d.offer);
        made := made + 1;
      }
    }

    method SetRemoteOffer(o: Offer)
      modifies this
      ensures View() == NegotiationSteps.SetRemoteOffer(old(View()), o)
    {
      if signaling.HaveLocalOffer? {
        rolledBack := rolledBack + [signaling.mine];
      }
      signaling := HaveRemoteOffer(o);
    }

    method SetRemoteAnswer(answer: Description) returns (ok: bool)
      modifies this
      ensures ok == NegotiationSteps.SetRemoteAnswer(old(View()), answer).Some?
      ensures View() == if ok then NegotiationSteps.SetRemoteAnswer(old(View()), answer).value else old(View())
    {
      ok := signaling.HaveLocalOffer? && answer.AnswerSdp?;
      if ok {
        history := history + [Exchange(signaling.mine, answer.to)];
        signaling := Stable;
      }
    }
  }

  class PeerNegotiator {
    const localPeerId: PeerId
    const role: Role
    var remotePeerId: Option<PeerId>
    var makingOffer: bool
    var ignoreOffer: bool
    var closed: bool
    var pc: RtcPeerConnection?
    /** What the signalling transport has taken. */
    var published: seq<Signal>
    ghost var publishing: nat
    ghost var ignored: seq<Offer>
    var errors: nat

    ghost function View(): Peer
      reads this, pc
    {
      Peer(localPeerId, role, remotePeerId, makingOffer, ignoreOffer, closed,
           if pc == null then None else Some(pc.View()), publishing, ignored, errors)
    }

    /** A session that has been started. */
    constructor (id: PeerId, role: Role, remote: Option<PeerId>)
      ensures fresh(pc) && published == []
      ensures View() == Peer(id, role, remote, false, false, false, Some(NEW_CONNECTION), 0, [], 0)
    {
      localPeerId, this.role, remotePeerId := id, role, remote;
      makingOffer, ignoreOffer, closed, published, publishing, ignored, errors := false, false, false, [], 0, [], 0;
      pc := new RtcPeerConnection();
    }

    /** `runNegotiation` up to its wait for the connection. */
    method RunNegotiation()
      modifies this, pc
      ensures pc == old(pc) && published == old(published)
      ensures View() == BeginOffer(old(View()))
    {
      if pc == null {
        return;
      }
      makingOffer := true;
      pc.Call(LocalOffer);
    }

    /** Its end, which comes also when the publish fails. */
    method EndNegotiation()
      requires publishing > 0
      modifies this
      ensures pc == old(pc) && published == old(published)
      ensures View() == EndOffer(old(View()))
    {
      makingOffer := false;
      publishing := publishing - 1;
    }

    /** A handler up to its first wait. */
    method HandleSignalingMessage(msg: Signal)
      modifies this, pc
      ensures pc == old(pc)
      ensures Reaction(View(), published) ==
                var r := Handle(old(View()), msg); Reaction(r.peer, old(published) + r.published)
    {
      if !IsId(msg.from) || msg.from == localPeerId {
        return;
      }
      if remotePeerId.Some? && msg.from != remotePeerId.value {
        return;
      }
      if msg.AnswerSignal? || msg.IceSignal? {
        if !IsId(msg.to) || msg.to != localPeerId {
          return;
        }
      }
      if pc == null {
        return;
      }
      match msg {
        case OfferSignal(from, o) => OnOffer(from, o);
        case AnswerSignal(from, _, answer) => OnAnswer(from, answer);
        case IceSignal(_, _) =>
        case ByeSignal(_) => CloseSession();
      }
    }

    /** The collision is decided on the state that the connection shows now. */
    method OnOffer(from: PeerId, o: Offer)
      requires pc != null
      modifies this, pc
      ensures pc == old(pc) && published == old(published)
      ensures View() == HandleOffer(old(View()), old(pc.View()), from, o)
    {
      var offerCollision := makingOffer || (!pc.signaling.Stable? && !pc.signaling.HaveRemoteOffer?);
      ignoreOffer := role != Joiner && offerCollision;
      if ignoreOffer {
        ignored := ignored + [o];
        return;
      }
      if remotePeerId.None? {
        remotePeerId := Some(from);
      }
      pc.Call(RemoteOffer(o));
    }

    method OnAnswer(from: PeerId, answer: Description)
      requires pc != null
      modifies this, pc
      ensures pc == old(pc) && published == old(published)
      ensures View() == HandleAnswer(old(View()), old(pc.View()), from, answer)
    {
      if remotePeerId.None? {
        remotePeerId := Some(from);
      }
      pc.Call(RemoteAnswer(answer));
    }

    /** The connection finishes an operation, and the handler that waits for it goes on to its next wait. */
    method FinishOperation(taken: bool)
      requires pc != null && pc.chain != []
      modifies this, pc
      ensures pc == old(pc)
      ensures View() == Finish(old(View())).peer
      ensures published == old(published) + if taken then Finish(old(View())).published else []
    {
      var op := pc.Shift();
      match op {
        case LocalOffer =>
          var d := pc.SetLocalDescription(role);
          publishing := publishing + 1;
          if d.OfferSdp? {
            Publish(OfferSignal(localPeerId, d.offer), taken);
          }
        case RemoteOffer(o) =>
          pc.SetRemoteOffer(o);
          pc.Call(LocalAnswer);
        case LocalAnswer =>
          var d := pc.SetLocalDescription(role);
          if remotePeerId.Some? {
            Publish(AnswerSignal(localPeerId, remotePeerId.value, d), taken);
          }
        case RemoteAnswer(answer) =>
          var ok := pc.SetRemoteAnswer(answer);
          if !ok && !ignoreOffer {
            errors := errors + 1;
          }
      }
    }

    /** The transport may fail to take a message. */
    method Publish(msg: Signal, taken: bool)
      modifies this`published
      ensures published == old(published) + if taken then [msg] else []
    {
      if taken {
        published := published + [msg];
      }
    }

    /** `close` up to its wait for the publish of the bye. */
    method CloseSession()
      modifies this
      ensures pc == old(pc)
      ensures Reaction(View(), published) ==
                var r := Close(old(View())); Reaction(r.peer, old(published) + r.published)
    {
      if closed {
        return;
      }
      closed := true;
      published := published + [ByeSignal(localPeerId)];
    }

    /** Its end, which comes also when the publish fails. */
    method EndClose()
      requires Leaving(View())
      modifies this
      ensures View() == NegotiationSteps.EndClose(old(View())) && published == old(published)
    {
      pc := null;
    }
  }
}
