/**
 * The negotiation half of a PeerSession, as functions on values. `runNegotiation`
 * and `handleSignalingMessage` wait for the browser's RTCPeerConnection and for the
 * transport, and other handlers run while they wait; so there is a function for
 * what each does before its first wait and one for what follows when the connection
 * has finished an operation. The connection is an environment with the signalling
 * states of section 3.2 of RFC 8829 and the operations chain of section 4.4.1 of
 * W3C WebRTC 1.0, which works off one operation after the other. An offer names its
 * author and number, and an answer names the offer that it answers, so that a
 * mix-up would show in the history.
 */
module NegotiationSteps {
  import opened Common
  import opened Ids

  datatype Role = Inviter | Joiner

  datatype Offer = Offer(author: Role, serial: nat)

  /** A completed exchange: the offer that was pending, and the one the answer was made for. */
  datatype Exchange = Exchange(offer: Offer, answered: Offer)

  datatype Signaling = Stable | HaveLocalOffer(mine: Offer) | HaveRemoteOffer(theirs: Offer)

  datatype Description = OfferSdp(offer: Offer) | AnswerSdp(to: Offer)

  // ----- the RTCPeerConnection

  /** A call of the connection that has not taken effect yet, by what the caller wants of it. */
  datatype Operation = LocalOffer | RemoteOffer(offer: Offer) | LocalAnswer | RemoteAnswer(answer: Description)

  datatype Connection = Connection(signaling: Signaling, chain: seq<Operation>, made: nat,
                                   history: seq<Exchange>, rolledBack: seq<Offer>)

  const NEW_CONNECTION := Connection(Stable, [], 0, [], [])

  /** `setLocalDescription()`: an answer when there is a remote offer, a new offer otherwise. */
  function SetLocal(pc: Connection, author: Role): (Connection, Description) {
    match pc.signaling
    case HaveRemoteOffer(o) => (pc.(signaling := Stable, history := pc.history + [Exchange(o, o)]), AnswerSdp(o))
    case _ =>
      var o := Offer(author, pc.made);
      (pc.(signaling := HaveLocalOffer(o), made := pc.made + 1), OfferSdp(o))
  }

  /** `setRemoteDescription` of an offer, rolling back a pending local one. */
  function SetRemoteOffer(pc: Connection, o: Offer): Connection {
    match pc.signaling
    case HaveLocalOffer(mine) => pc.(signaling := HaveRemoteOffer(o), rolledBack := pc.rolledBack + [mine])
    case _ => pc.(signaling := HaveRemoteOffer(o))
  }

  /** `setRemoteDescription` of an answer; it throws unless a local offer is pending, and when it is given an offer. */
  function SetRemoteAnswer(pc: Connection, answer: Description): Option<Connection> {
    if pc.signaling.HaveLocalOffer? && answer.AnswerSdp? then
      Some(pc.(signaling := Stable, history := pc.history + [Exchange(pc.signaling.mine, answer.to)]))
    else None
  }

  // ----- the session

  type PeerId = string

  datatype Signal =
    | OfferSignal(from: PeerId, offer: Offer)
    | AnswerSignal(from: PeerId, to: PeerId, answer: Description)
    | IceSignal(from: PeerId, to: PeerId)
    | ByeSignal(from: PeerId)

  /**
   * `publishing` counts the publishes of offers that have not resolved; `ignored` and
   * `errors` record what a peer ignored and how many errors it reported.
   */
  datatype Peer = Peer(id: PeerId, role: Role, remote: Option<PeerId>, makingOffer: bool, ignoreOffer: bool,
                       closed: bool, pc: Option<Connection>, publishing: nat, ignored: seq<Offer>, errors: nat)

  datatype Reaction = Reaction(peer: Peer, published: seq<Signal>)

  function Enqueue(pc: Connection, op: Operation): Connection {
    pc.(chain := pc.chain + [op])
  }

  /** `runNegotiation` up to its wait for the connection. */
  function BeginOffer(p: Peer): Peer {
    if p.pc.None? then p else p.(makingOffer := true, pc := Some(Enqueue(p.pc.value, LocalOffer)))
  }

  /** Its end, when the publish has resolved or failed. */
  function EndOffer(p: Peer): Peer
    requires p.publishing > 0
  {
    p.(makingOffer := false, publishing := p.publishing - 1)
  }

  predicate Collides(p: Peer, pc: Connection) {
    p.makingOffer || pc.signaling.HaveLocalOffer?
  }

  function Known(p: Peer, from: PeerId): Peer {
    if p.remote.None? then p.(remote := Some(from)) else p
  }

  /** The handler of an offer up to its first wait. */
  function HandleOffer(p: Peer, pc: Connection, from: PeerId, o: Offer): Peer {
    if p.role == Inviter && Collides(p, pc) then p.(ignoreOffer := true, ignored := p.ignored + [o])
    else Known(p.(ignoreOffer := false, pc := Some(Enqueue(pc, RemoteOffer(o)))), from)
  }

  /** The handler of an answer up to its wait. */
  function HandleAnswer(p: Peer, pc: Connection, from: PeerId, answer: Description): Peer {
    Known(p, from).(pc := Some(Enqueue(pc, RemoteAnswer(answer))))
  }

  /** `close` up to its wait for the publish of the bye. */
  function Close(p: Peer): Reaction {
    if p.closed then Reaction(p, []) else Reaction(p.(closed := true), [ByeSignal(p.id)])
  }

  /** A closed peer whose bye is still being published. */
  predicate Leaving(p: Peer) {
    p.closed && p.pc.Some?
  }

  /** The end of `close`, when that publish has resolved or failed. */
  function EndClose(p: Peer): Peer {
    p.(pc := None)
  }

  predicate Accepts(p: Peer, msg: Signal) {
    && IsId(msg.from) && msg.from != p.id
    && (p.remote.Some? ==> msg.from == p.remote.value)
    && (msg.AnswerSignal? || msg.IceSignal? ==> IsId(msg.to) && msg.to == p.id)
  }

  /** What a message does at once. */
  function Handle(p: Peer, msg: Signal): Reaction {
    if !Accepts(p, msg) || p.pc.None? then Reaction(p, [])
    else
      match msg
      case OfferSignal(from, o) => Reaction(HandleOffer(p, p.pc.value, from, o), [])
      case AnswerSignal(from, _, answer) => Reaction(HandleAnswer(p, p.pc.value, from, answer), [])
      case IceSignal(_, _) => Reaction(p, [])
      case ByeSignal(_) => Close(p)
  }

  /** The session's handler is called with one message after the other and not waited for. */
  function HandleAll(p: Peer, messages: seq<Signal>): Reaction
    decreases messages
  {
    if messages == [] then Reaction(p, [])
    else
      var first := Handle(p, messages[0]);
      var rest := HandleAll(first.peer, messages[1..]);
      Reaction(rest.peer, first.published + rest.published)
  }

  predicate Busy(p: Peer) {
    p.pc.Some? && p.pc.value.chain != []
  }

  /**
   * The connection finishes its first operation and the handler that waits for it
   * goes on: an offer or an answer is published, the operation that follows a remote
   * offer is called, and an unexpected answer is an error unless the last offer was
   * ignored.
   */
  function Finish(p: Peer): Reaction
    requires Busy(p)
  {
    var pc := p.pc.value.(chain := p.pc.value.chain[1..]);
    match p.pc.value.chain[0]
    case LocalOffer =>
      var (pc', d) := SetLocal(pc, p.role);
      Reaction(p.(pc := Some(pc'), publishing := p.publishing + 1), if d.OfferSdp? then [OfferSignal(p.id, d.offer)] else [])
    case RemoteOffer(o) => Reaction(p.(pc := Some(Enqueue(SetRemoteOffer(pc, o), LocalAnswer))), [])
    case LocalAnswer =>
      var (pc', d) := SetLocal(pc, p.role);
      Reaction(p.(pc := Some(pc')), if p.remote.Some? then [AnswerSignal(p.id, p.remote.value, d)] else [])
    case RemoteAnswer(answer) =>
      match SetRemoteAnswer(pc, answer)
      case Some(pc') => Reaction(p.(pc := Some(pc')), [])
      case None => Reaction(p.(pc := Some(pc), errors := if p.ignoreOffer then p.errors else p.errors + 1), [])
  }
}
