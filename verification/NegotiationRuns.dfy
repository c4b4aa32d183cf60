/**
 * Perfect negotiation between two peers, an impolite inviter and a polite joiner,
 * over two first-in-first-out channels, for every run: when negotiation is needed,
 * how long the browser and a publish take and when messages arrive is up to the
 * environment, and handlers start while earlier ones are still waiting.
 */
module NegotiationRuns {
  import opened Common
  import opened Ids
  import opened NegotiationSteps

  datatype System = System(inviter: Peer, joiner: Peer, toJoiner: seq<Signal>, toInviter: seq<Signal>) {
    function At(who: Role): Peer {
      if who == Inviter then inviter else joiner
    }

    function Arriving(to: Role): seq<Signal> {
      if to == Inviter then toInviter else toJoiner
    }
  }

  /**
   * Negotiation becomes needed, the connection finishes an operation, a publish
   * resolves, or the next message arrives.
   */
  datatype Action = Needed(who: Role) | Finished(who: Role) | Published(who: Role) | Deliver(to: Role)

  predicate StableAt(p: Peer) {
    p.pc.Some? && p.pc.value.signaling.Stable?
  }

  predicate WaitingAt(p: Peer) {
    p.pc.Some? && p.pc.value.signaling.HaveLocalOffer?
  }

  /** The browser fires negotiation-needed only in the stable state and with nothing left to do. */
  predicate Enabled(s: System, a: Action) {
    match a
    case Needed(who) => StableAt(s.At(who)) && !Busy(s.At(who))
    case Finished(who) => Busy(s.At(who))
    case Published(who) => s.At(who).publishing > 0
    case Deliver(to) => s.Arriving(to) != []
  }

  /** A peer changes and what it publishes joins its channel. */
  function Reacted(s: System, who: Role, r: Reaction): System {
    if who == Inviter then s.(inviter := r.peer, toJoiner := s.toJoiner + r.published)
    else s.(joiner := r.peer, toInviter := s.toInviter + r.published)
  }

  function Taken(s: System, to: Role): System
    requires s.Arriving(to) != []
  {
    if to == Inviter then s.(toInviter := s.toInviter[1..]) else s.(toJoiner := s.toJoiner[1..])
  }

  function Next(s: System, a: Action): System
    requires Enabled(s, a)
  {
    match a
    case Needed(who) => Reacted(s, who, Reaction(BeginOffer(s.At(who)), []))
    case Finished(who) => Reacted(s, who, Finish(s.At(who)))
    case Published(who) => Reacted(s, who, Reaction(EndOffer(s.At(who)), []))
    case Deliver(to) => Reacted(Taken(s, to), to, Handle(s.At(to), s.Arriving(to)[0]))
  }

  /** Both sessions have just been started; each may or may not know the other's id already. */
  ghost predicate Initial(s: System) {
    && IsId(s.inviter.id) && IsId(s.joiner.id) && s.inviter.id != s.joiner.id
    && Fresh(s.inviter, Inviter, s.joiner.id) && Fresh(s.joiner, Joiner, s.inviter.id)
    && s.toJoiner == [] && s.toInviter == []
  }

  ghost predicate Fresh(p: Peer, role: Role, other: PeerId) {
    && (p.remote.None? || p.remote == Some(other))
    && p == Peer(p.id, role, p.remote, false, false, false, Some(NEW_CONNECTION), 0, [], 0)
  }

  // ----- what is under way

  function Message(op: Operation, from: PeerId, to: PeerId): seq<Signal> {
    match op
    case RemoteOffer(o) => [OfferSignal(from, o)]
    case RemoteAnswer(d) => [AnswerSignal(from, to, d)]
    case _ => []
  }

  /** The messages that handlers have been given and not yet applied. */
  function Undone(ops: seq<Operation>, from: PeerId, to: PeerId): seq<Signal> {
    if ops == [] then [] else Message(ops[0], from, to) + Undone(ops[1..], from, to)
  }

  function Chain(p: Peer): seq<Operation> {
    if p.pc.Some? then p.pc.value.chain else []
  }

  /** What a peer has not applied yet: handed over, then on its way. */
  function Ahead(p: Peer, from: PeerId, channel: seq<Signal>): seq<Signal> {
    Undone(Chain(p), from, p.id) + channel
  }

  function AheadOfInviter(s: System): seq<Signal> {
    Ahead(s.inviter, s.joiner.id, s.toInviter)
  }

  function AheadOfJoiner(s: System): seq<Signal> {
    Ahead(s.joiner, s.inviter.id, s.toJoiner)
  }

  lemma {:induction false} UndoneSnoc(ops: seq<Operation>, op: Operation, from: PeerId, to: PeerId)
    ensures Undone(ops + [op], from, to) == Undone(ops, from, to) + Message(op, from, to)
  {
    if ops == [] {
      assert [] + [op] == [op] && [op][1..] == [];
    } else {
      assert (ops + [op])[1..] == ops[1..] + [op];
      UndoneSnoc(ops[1..], op, from, to);
    }
  }

  /** A message that is handed over is still ahead. */
  lemma HandedOver(ops: seq<Operation>, op: Operation, from: PeerId, to: PeerId, channel: seq<Signal>)
    requires channel != [] && Message(op, from, to) == [channel[0]]
    ensures Undone(ops + [op], from, to) + channel[1..] == Undone(ops, from, to) + channel
  {
    UndoneSnoc(ops, op, from, to);
    assert channel == [channel[0]] + channel[1..];
  }

  predicate Remote(op: Operation) {
    op.RemoteOffer? || op.RemoteAnswer?
  }

  lemma {:induction false} UndoneLength(ops: seq<Operation>, from: PeerId, to: PeerId)
    requires forall op :: op in ops ==> Remote(op)
    ensures |Undone(ops, from, to)| == |ops|
  {
    if ops != [] {
      assert ops[0] in ops;
      UndoneLength(ops[1..], from, to);
    }
  }

  lemma {:induction false} NothingUndone(ops: seq<Operation>, from: PeerId, to: PeerId)
    requires forall op :: op in ops ==> !Remote(op)
    ensures Undone(ops, from, to) == []
  {
    if ops != [] {
      assert ops[0] in ops;
      NothingUndone(ops[1..], from, to);
    }
  }

  // ----- the invariant

  /** Where the two peers stand; the names say who has offered what to whom. */
  datatype Phase =
    | Idle
    | InviterOffered(oi: Offer)
    | JoinerOffered(oj: Offer)
    | Glare(oi: Offer, oj: Offer)
    | JoinerAccepting(oi: Offer)
    | JoinerAnswered(oi: Offer)
    | InviterAccepting(oj: Offer)
    | InviterAnswered(oj: Offer)
    | JoinerAnsweredAndOffered(oi: Offer, oj: Offer)
    | InviterAnsweredAndOffered(oj: Offer, oi: Offer)
    | JoinerYielding(oi: Offer, stale: Offer)
    | JoinerYielded(oi: Offer, stale: Offer)
    | JoinerYieldedAndOffered(oi: Offer, stale: Offer, oj: Offer)
    | Overridden(oi: Offer, oj: Offer)
    | Overtaken(oi: Offer, oj: Offer)
    | Unheard(oj: Offer)

  /** Two sequences are equal, or one of them is ahead of the other by one element. */
  datatype Lead<T> = Even | Left(x: T) | Right(x: T)

  predicate Leads<T(==)>(l: Lead<T>, a: seq<T>, b: seq<T>) {
    match l
    case Even => a == b
    case Left(x) => a == b + [x]
    case Right(x) => b == a + [x]
  }

  /**
   * What a phase says: the signalling states, what each peer has not applied yet,
   * which of the two histories is ahead by which exchange, and whether a joiner offer
   * has been ignored but not yet rolled back, or rolled back but not yet ignored.
   */
  datatype Shape = Shape(i: Signaling, j: Signaling, toJoiner: seq<Signal>, toInviter: seq<Signal>,
                         histories: Lead<Exchange>, dropped: Lead<Offer>)

  function Answer(from: PeerId, to: PeerId, o: Offer): Signal {
    AnswerSignal(from, to, AnswerSdp(o))
  }

  function ShapeOf(ph: Phase, i: PeerId, j: PeerId): Shape {
    match ph
    case Idle => Shape(Stable, Stable, [], [], Even, Even)
    case InviterOffered(oi) => Shape(HaveLocalOffer(oi), Stable, [OfferSignal(i, oi)], [], Even, Even)
    case JoinerOffered(oj) => Shape(Stable, HaveLocalOffer(oj), [], [OfferSignal(j, oj)], Even, Even)
    case Glare(oi, oj) =>
      Shape(HaveLocalOffer(oi), HaveLocalOffer(oj), [OfferSignal(i, oi)], [OfferSignal(j, oj)], Even, Even)
    case JoinerAccepting(oi) => Shape(HaveLocalOffer(oi), HaveRemoteOffer(oi), [], [], Even, Even)
    case JoinerAnswered(oi) =>
      Shape(HaveLocalOffer(oi), Stable, [], [Answer(j, i, oi)], Right(Exchange(oi, oi)), Even)
    case InviterAccepting(oj) => Shape(HaveRemoteOffer(oj), HaveLocalOffer(oj), [], [], Even, Even)
    case InviterAnswered(oj) =>
      Shape(Stable, HaveLocalOffer(oj), [Answer(i, j, oj)], [], Left(Exchange(oj, oj)), Even)
    case JoinerAnsweredAndOffered(oi, oj) =>
      Shape(HaveLocalOffer(oi), HaveLocalOffer(oj), [], [Answer(j, i, oi), OfferSignal(j, oj)],
            Right(Exchange(oi, oi)), Even)
    case InviterAnsweredAndOffered(oj, oi) =>
      Shape(HaveLocalOffer(oi), HaveLocalOffer(oj), [Answer(i, j, oj), OfferSignal(i, oi)], [],
            Left(Exchange(oj, oj)), Even)
    case JoinerYielding(oi, stale) =>
      Shape(HaveLocalOffer(oi), HaveRemoteOffer(oi), [], [OfferSignal(j, stale)], Even, Right(stale))
    case JoinerYielded(oi, stale) =>
      Shape(HaveLocalOffer(oi), Stable, [], [OfferSignal(j, stale), Answer(j, i, oi)],
            Right(Exchange(oi, oi)), Right(stale))
    case JoinerYieldedAndOffered(oi, stale, oj) =>
      Shape(HaveLocalOffer(oi), HaveLocalOffer(oj), [],
            [OfferSignal(j, stale), Answer(j, i, oi), OfferSignal(j, oj)],
            Right(Exchange(oi, oi)), Right(stale))
    case Overridden(oi, oj) =>
      Shape(HaveLocalOffer(oi), HaveLocalOffer(oj), [OfferSignal(i, oi)], [], Even, Left(oj))
    case Overtaken(oi, oj) =>
      Shape(HaveLocalOffer(oi), HaveLocalOffer(oj), [], [Answer(j, i, oi)], Right(Exchange(oi, oi)), Left(oj))
    case Unheard(oj) => Shape(Stable, HaveLocalOffer(oj), [], [], Even, Left(oj))
  }

  predicate Authored(ph: Phase) {
    match ph
    case Idle => true
    case InviterOffered(oi) => oi.author == Inviter
    case JoinerOffered(oj) => oj.author == Joiner
    case Glare(oi, oj) => oi.author == Inviter && oj.author == Joiner
    case JoinerAccepting(oi) => oi.author == Inviter
    case JoinerAnswered(oi) => oi.author == Inviter
    case InviterAccepting(oj) => oj.author == Joiner
    case InviterAnswered(oj) => oj.author == Joiner
    case JoinerAnsweredAndOffered(oi, oj) => oi.author == Inviter && oj.author == Joiner
    case InviterAnsweredAndOffered(oj, oi) => oi.author == Inviter && oj.author == Joiner
    case JoinerYielding(oi, stale) => oi.author == Inviter && stale.author == Joiner
    case JoinerYielded(oi, stale) => oi.author == Inviter && stale.author == Joiner
    case JoinerYieldedAndOffered(oi, stale, oj) => oi.author == Inviter && stale.author == Joiner && oj.author == Joiner
    case Overridden(oi, oj) => oi.author == Inviter && oj.author == Joiner
    case Overtaken(oi, oj) => oi.author == Inviter && oj.author == Joiner
    case Unheard(oj) => oj.author == Joiner
  }

  /** Every answer was applied to the offer that it answers. */
  predicate Matched(h: seq<Exchange>) {
    forall n :: 0 <= n < |h| ==> h[n].offer == h[n].answered
  }

  function Own(h: seq<Exchange>, role: Role): nat {
    if h == [] then 0 else Own(h[..|h| - 1], role) + if h[|h| - 1].offer.author == role then 1 else 0
  }

  /** Every offer made has been completed, has been rolled back, or is pending. */
  predicate Accounted(p: Peer) {
    p.pc.Some? &&
    var pc := p.pc.value;
    pc.made == Own(pc.history, p.role) + |pc.rolledBack| + if pc.signaling.HaveLocalOffer? then 1 else 0
  }

  /** What may be waiting at a connection: an offer of one's own comes first, an answer of one's own alone. */
  predicate Chained(pc: Connection) {
    && (LocalAnswer in pc.chain ==> pc.chain == [LocalAnswer])
    && (pc.signaling.HaveRemoteOffer? <==> LocalAnswer in pc.chain)
    && (LocalOffer in pc.chain ==> pc.chain[0] == LocalOffer && LocalOffer !in pc.chain[1..] && pc.signaling.Stable?)
  }

  ghost predicate Sound(p: Peer, role: Role, other: PeerId) {
    && IsId(p.id) && p.id != other && p.role == role
    && (p.remote.None? || p.remote == Some(other))
    && p.pc.Some? && p.errors == 0
    && Matched(p.pc.value.history) && Accounted(p) && Chained(p.pc.value)
    && (p.remote.None? ==> forall op :: op in p.pc.value.chain ==> op == LocalOffer)
    && (p.makingOffer ==> LocalOffer in p.pc.value.chain || p.publishing > 0)
  }

  /** The inviter has an offer to apply only when it has nothing else to do. */
  ghost predicate Unhurried(pc: Connection) {
    forall op :: op in pc.chain && op.RemoteOffer? ==> pc.chain == [op] && pc.signaling.Stable?
  }

  /** What a phase speaks about. */
  datatype Look = Look(i: Signaling, j: Signaling, toJoiner: seq<Signal>, toInviter: seq<Signal>,
                       iHistory: seq<Exchange>, jHistory: seq<Exchange>, ignored: seq<Offer>, rolledBack: seq<Offer>)

  function LookOf(s: System): Look
    requires s.inviter.pc.Some? && s.joiner.pc.Some?
  {
    var i, j := s.inviter.pc.value, s.joiner.pc.value;
    Look(i.signaling, j.signaling, AheadOfJoiner(s), AheadOfInviter(s), i.history, j.history, s.inviter.ignored, j.rolledBack)
  }

  predicate Fits(l: Look, ph: Phase, i: PeerId, j: PeerId) {
    var x := ShapeOf(ph, i, j);
    && Authored(ph)
    && l.i == x.i && l.j == x.j && l.toJoiner == x.toJoiner && l.toInviter == x.toInviter
    && Leads(x.histories, l.iHistory, l.jHistory) && Leads(x.dropped, l.ignored, l.rolledBack)
  }

  ghost predicate SoundInviter(p: Peer, other: PeerId) {
    Sound(p, Inviter, other) && Unhurried(p.pc.value) && p.pc.value.rolledBack == []
  }

  ghost predicate SoundJoiner(p: Peer, other: PeerId) {
    Sound(p, Joiner, other) && p.ignored == []
  }

  ghost predicate BothSound(s: System) {
    SoundInviter(s.inviter, s.joiner.id) && SoundJoiner(s.joiner, s.inviter.id)
  }

  ghost predicate Matches(s: System, ph: Phase) {
    && BothSound(s)
    && Fits(LookOf(s), ph, s.inviter.id, s.joiner.id)
    && (ph.Overtaken? ==> s.toInviter == [])
  }

  // ----- when a step is clean

  /** The inviter has an offer that is being made, or that is pending and whose answer has not arrived. */
  predicate OfferOpen(p: Peer) {
    LocalOffer in Chain(p) || (WaitingAt(p) && forall op :: op in Chain(p) ==> !op.RemoteAnswer?)
  }

  predicate OfferArrives(s: System, a: Action) {
    a == Deliver(Inviter) && s.toInviter != [] && s.toInviter[0].OfferSignal?
  }

  /** An offer is ignored although it collides with nothing: the inviter's own offer has been answered, or there is none. */
  predicate Strands(s: System, a: Action) {
    OfferArrives(s, a) && s.inviter.pc.Some? && Collides(s.inviter, s.inviter.pc.value) && !OfferOpen(s.inviter)
  }

  /** An offer is accepted although it collides with an offer that is being made. */
  predicate Clashes(s: System, a: Action) {
    OfferArrives(s, a) && s.inviter.pc.Some? && !Collides(s.inviter, s.inviter.pc.value) && OfferOpen(s.inviter)
  }

  /** The inviter ignores an offer exactly when an offer of its own is open. */
  predicate Clean(s: System, a: Action) {
    !Strands(s, a) && !Clashes(s, a)
  }

  // ----- how phases follow one another

  lemma InviterOffersFits(l: Look, ph: Phase, i: PeerId, j: PeerId, o: Offer) returns (ph': Phase)
    requires Fits(l, ph, i, j) && l.i.Stable? && o.author == Inviter
    ensures Fits(l.(i := HaveLocalOffer(o), toJoiner := l.toJoiner + [OfferSignal(i, o)]), ph', i, j)
    ensures !ph'.Overtaken? && !ph'.Unheard?
  {
    match ph
    case Idle => ph' := InviterOffered(o);
    case JoinerOffered(oj) => ph' := Glare(o, oj);
    case InviterAnswered(oj) => ph' := InviterAnsweredAndOffered(oj, o);
    case Unheard(oj) => ph' := Overridden(o, oj);
    case _ =>
  }

  lemma JoinerOffersFits(l: Look, ph: Phase, i: PeerId, j: PeerId, o: Offer) returns (ph': Phase)
    requires Fits(l, ph, i, j) && l.j.Stable? && o.author == Joiner
    ensures Fits(l.(j := HaveLocalOffer(o), toInviter := l.toInviter + [OfferSignal(j, o)]), ph', i, j)
    ensures !ph'.Overtaken? && !ph'.Unheard?
  {
    match ph
    case Idle => ph' := JoinerOffered(o);
    case InviterOffered(oi) => ph' := Glare(oi, o);
    case JoinerAnswered(oi) => ph' := JoinerAnsweredAndOffered(oi, o);
    case JoinerYielded(oi, stale) => ph' := JoinerYieldedAndOffered(oi, stale, o);
    case _ =>
  }

  lemma InviterAppliesFits(l: Look, ph: Phase, i: PeerId, j: PeerId, d: Description) returns (o: Offer, ph': Phase)
    requires Fits(l, ph, i, j) && l.toInviter != [] && l.toInviter[0] == AnswerSignal(j, i, d)
    ensures d == AnswerSdp(o) && l.i == HaveLocalOffer(o) && o.author == Inviter
    ensures Fits(l.(i := Stable, toInviter := l.toInviter[1..], iHistory := l.iHistory + [Exchange(o, o)]), ph', i, j)
    ensures !ph'.Overtaken? && (ph'.Unheard? <==> ph.Overtaken?)
  {
    o := ph.oi;
    match ph
    case JoinerAnswered(oi) => ph' := Idle;
    case JoinerAnsweredAndOffered(oi, oj) => ph' := JoinerOffered(oj);
    case Overtaken(oi, oj) => ph' := Unheard(oj);
    case _ =>
  }

  lemma JoinerAppliesFits(l: Look, ph: Phase, i: PeerId, j: PeerId, d: Description) returns (o: Offer, ph': Phase)
    requires Fits(l, ph, i, j) && l.toJoiner != [] && l.toJoiner[0] == AnswerSignal(i, j, d)
    ensures d == AnswerSdp(o) && l.j == HaveLocalOffer(o) && o.author == Joiner
    ensures Fits(l.(j := Stable, toJoiner := l.toJoiner[1..], jHistory := l.jHistory + [Exchange(o, o)]), ph', i, j)
    ensures !ph'.Overtaken? && !ph'.Unheard?
  {
    o := ph.oj;
    match ph
    case InviterAnswered(oj) => ph' := Idle;
    case InviterAnsweredAndOffered(oj, oi) => ph' := InviterOffered(oi);
    case _ =>
  }

  lemma InviterAcceptsFits(l: Look, ph: Phase, i: PeerId, j: PeerId, o: Offer)
    requires Fits(l, ph, i, j) && l.i.Stable? && l.toInviter != [] && l.toInviter[0] == OfferSignal(j, o)
    ensures l.toInviter == [OfferSignal(j, o)] && ph == JoinerOffered(o)
    ensures Fits(l.(i := HaveRemoteOffer(o), toInviter := []), InviterAccepting(o), i, j)
  {
  }

  function RolledBack(before: seq<Offer>, sig: Signaling): seq<Offer> {
    if sig.HaveLocalOffer? then before + [sig.mine] else before
  }

  lemma JoinerAcceptsFits(l: Look, ph: Phase, i: PeerId, j: PeerId, o: Offer) returns (ph': Phase)
    requires Fits(l, ph, i, j) && l.toJoiner != [] && l.toJoiner[0] == OfferSignal(i, o)
    ensures l.toJoiner == [OfferSignal(i, o)]
    ensures Fits(l.(j := HaveRemoteOffer(o), toJoiner := [], rolledBack := RolledBack(l.rolledBack, l.j)), ph', i, j)
    ensures !ph'.Overtaken? && !ph'.Unheard?
  {
    ph' := if ph.Glare? then JoinerYielding(o, ph.oj) else JoinerAccepting(o);
  }

  lemma InviterAnswersFits(l: Look, ph: Phase, i: PeerId, j: PeerId, o: Offer)
    requires Fits(l, ph, i, j) && l.i == HaveRemoteOffer(o)
    ensures o.author == Joiner && ph == InviterAccepting(o)
    ensures Fits(l.(i := Stable, toJoiner := l.toJoiner + [Answer(i, j, o)], iHistory := l.iHistory + [Exchange(o, o)]),
                 InviterAnswered(o), i, j)
  {
  }

  lemma JoinerAnswersFits(l: Look, ph: Phase, i: PeerId, j: PeerId, o: Offer) returns (ph': Phase)
    requires Fits(l, ph, i, j) && l.j == HaveRemoteOffer(o)
    ensures o.author == Inviter
    ensures Fits(l.(j := Stable, toInviter := l.toInviter + [Answer(j, i, o)], jHistory := l.jHistory + [Exchange(o, o)]), ph', i, j)
    ensures !ph'.Overtaken? && !ph'.Unheard?
  {
    ph' := if ph.JoinerYielding? then JoinerYielded(o, ph.stale) else JoinerAnswered(o);
  }

  // ----- steps that leave the phase

  lemma OwnSnoc(h: seq<Exchange>, e: Exchange, role: Role)
    ensures Own(h + [e], role) == Own(h, role) + if e.offer.author == role then 1 else 0
  {
    assert (h + [e])[..|h|] == h;
  }

  lemma BeginSound(p: Peer, role: Role, other: PeerId)
    requires Sound(p, role, other) && StableAt(p) && !Busy(p)
    ensures Sound(BeginOffer(p), role, other) && Chain(BeginOffer(p)) == [LocalOffer]
    ensures Undone([LocalOffer], other, p.id) == []
  {
    assert [] + [LocalOffer] == [LocalOffer];
    UndoneSnoc([], LocalOffer, other, p.id);
  }

  predicate SameIds(s: System, s': System) {
    s'.inviter.id == s.inviter.id && s'.joiner.id == s.joiner.id
  }

  /** A step after which both peers are sound has led to the phase that what shows fits. */
  lemma LedTo(s: System, s': System, l: Look, ph': Phase)
    requires BothSound(s') && SameIds(s, s') && LookOf(s') == l && Fits(l, ph', s.inviter.id, s.joiner.id)
    requires ph'.Overtaken? ==> s'.toInviter == []
    ensures Matches(s', ph')
  {
  }

  /** What shows after a step at the inviter. */
  lemma InviterShows(s: System, p: Peer, out: seq<Signal>) returns (s': System)
    requires BothSound(s) && SoundInviter(p, s.joiner.id) && p.id == s.inviter.id
    ensures s' == Reacted(s, Inviter, Reaction(p, out)) && BothSound(s') && SameIds(s, s')
    ensures LookOf(s') == LookOf(s).(i := p.pc.value.signaling, toJoiner := AheadOfJoiner(s) + out,
                                     toInviter := Ahead(p, s.joiner.id, s.toInviter), iHistory := p.pc.value.history,
                                     ignored := p.ignored)
  {
    s' := Reacted(s, Inviter, Reaction(p, out));
    Reassociate(Undone(Chain(s.joiner), s.inviter.id, s.joiner.id), s.toJoiner, out);
  }

  lemma JoinerShows(s: System, p: Peer, out: seq<Signal>) returns (s': System)
    requires BothSound(s) && SoundJoiner(p, s.inviter.id) && p.id == s.joiner.id
    ensures s' == Reacted(s, Joiner, Reaction(p, out)) && BothSound(s') && SameIds(s, s')
    ensures LookOf(s') == LookOf(s).(j := p.pc.value.signaling, toInviter := AheadOfInviter(s) + out,
                                     toJoiner := Ahead(p, s.inviter.id, s.toJoiner), jHistory := p.pc.value.history,
                                     rolledBack := p.pc.value.rolledBack)
  {
    s' := Reacted(s, Joiner, Reaction(p, out));
    Reassociate(Undone(Chain(s.inviter), s.joiner.id, s.inviter.id), s.toInviter, out);
  }

  lemma AppendNothing<T>(s: seq<T>)
    ensures s + [] == s
  {
  }

  lemma InviterBegins(s: System) returns (s': System)
    requires BothSound(s) && Enabled(s, Needed(Inviter))
    ensures s' == Next(s, Needed(Inviter)) && BothSound(s') && SameIds(s, s') && LookOf(s') == LookOf(s) && s'.toInviter == s.toInviter
    ensures LocalOffer in Chain(s'.inviter)
  {
    BeginSound(s.inviter, Inviter, s.joiner.id);
    AppendNothing(AheadOfJoiner(s));
    s' := InviterShows(s, BeginOffer(s.inviter), []);
  }

  lemma JoinerBegins(s: System) returns (s': System)
    requires BothSound(s) && Enabled(s, Needed(Joiner))
    ensures s' == Next(s, Needed(Joiner)) && BothSound(s') && SameIds(s, s') && LookOf(s') == LookOf(s) && s'.toInviter == s.toInviter
    ensures s'.inviter == s.inviter
  {
    BeginSound(s.joiner, Joiner, s.inviter.id);
    AppendNothing(AheadOfInviter(s));
    AppendNothing(s.toInviter);
    s' := JoinerShows(s, BeginOffer(s.joiner), []);
  }

  lemma PublishResolves(s: System, who: Role) returns (s': System)
    requires BothSound(s) && Enabled(s, Published(who))
    ensures s' == Next(s, Published(who)) && BothSound(s') && SameIds(s, s') && LookOf(s') == LookOf(s) && s'.toInviter == s.toInviter
    ensures Chain(s'.inviter) == Chain(s.inviter)
  {
    AppendNothing(AheadOfJoiner(s));
    AppendNothing(AheadOfInviter(s));
    AppendNothing(s.toInviter);
    if who == Inviter {
      s' := InviterShows(s, EndOffer(s.inviter), []);
    } else {
      s' := JoinerShows(s, EndOffer(s.joiner), []);
    }
  }

  lemma InviterNeeded(s: System, ph: Phase)
    requires Matches(s, ph) && Enabled(s, Needed(Inviter))
    ensures Matches(Next(s, Needed(Inviter)), ph) && LocalOffer in Chain(Next(s, Needed(Inviter)).inviter)
  {
    var s' := InviterBegins(s);
    LedTo(s, s', LookOf(s), ph);
  }

  lemma JoinerNeeded(s: System, ph: Phase)
    requires Matches(s, ph) && Enabled(s, Needed(Joiner))
    ensures Matches(Next(s, Needed(Joiner)), ph) && Next(s, Needed(Joiner)).inviter == s.inviter
  {
    var s' := JoinerBegins(s);
    LedTo(s, s', LookOf(s), ph);
  }

  lemma StepPublished(s: System, ph: Phase, who: Role)
    requires Matches(s, ph) && Enabled(s, Published(who))
    ensures Matches(Next(s, Published(who)), ph) && Chain(Next(s, Published(who)).inviter) == Chain(s.inviter)
  {
    var s' := PublishResolves(s, who);
    LedTo(s, s', LookOf(s), ph);
  }

  // ----- an operation is finished

  /** The first operation of a chain and the rest of it. */
  lemma FirstOf(ops: seq<Operation>, from: PeerId, to: PeerId)
    requires ops != []
    ensures Undone(ops, from, to) == Message(ops[0], from, to) + Undone(ops[1..], from, to)
    ensures ops[0] in ops && forall op :: op in ops[1..] ==> op in ops
  {
  }

  /** The connection with its first operation taken off. */
  function Shifted(pc: Connection): Connection
    requires pc.chain != []
  {
    pc.(chain := pc.chain[1..])
  }

  function Offered(pc: Connection, o: Offer): Connection {
    pc.(signaling := HaveLocalOffer(o), made := pc.made + 1)
  }

  lemma OfferMade(p: Peer, role: Role, other: PeerId, o: Offer)
    requires Sound(p, role, other) && Busy(p) && p.pc.value.chain[0] == LocalOffer && o == Offer(role, p.pc.value.made)
    ensures p.pc.value.signaling.Stable?
    ensures Finish(p) == Reaction(p.(pc := Some(Offered(Shifted(p.pc.value), o)), publishing := p.publishing + 1), [OfferSignal(p.id, o)])
    ensures Sound(Finish(p).peer, role, other)
    ensures Undone(p.pc.value.chain, other, p.id) == Undone(p.pc.value.chain[1..], other, p.id)
  {
    FirstOf(p.pc.value.chain, other, p.id);
  }

  function Applied(pc: Connection, o: Offer): Connection {
    pc.(signaling := Stable, history := pc.history + [Exchange(o, o)])
  }

  lemma AnswerApplied(p: Peer, role: Role, other: PeerId, o: Offer)
    requires Sound(p, role, other) && Busy(p) && p.pc.value.chain[0] == RemoteAnswer(AnswerSdp(o))
    requires p.pc.value.signaling == HaveLocalOffer(o) && o.author == role
    ensures Finish(p) == Reaction(p.(pc := Some(Applied(Shifted(p.pc.value), o))), [])
    ensures Sound(Finish(p).peer, role, other)
    ensures Undone(p.pc.value.chain, other, p.id) == [Answer(other, p.id, o)] + Undone(p.pc.value.chain[1..], other, p.id)
  {
    FirstOf(p.pc.value.chain, other, p.id);
    OwnSnoc(p.pc.value.history, Exchange(o, o), role);
  }

  function Accepted(pc: Connection, o: Offer): Connection {
    pc.(signaling := HaveRemoteOffer(o), chain := [LocalAnswer], rolledBack := RolledBack(pc.rolledBack, pc.signaling))
  }

  lemma OfferAccepted(p: Peer, role: Role, other: PeerId, o: Offer)
    requires Sound(p, role, other) && Busy(p) && p.pc.value.chain == [RemoteOffer(o)]
    ensures Finish(p) == Reaction(p.(pc := Some(Accepted(p.pc.value, o))), [])
    ensures Sound(Finish(p).peer, role, other)
    ensures Undone([LocalAnswer], other, p.id) == []
  {
    assert p.pc.value.chain[0] in p.pc.value.chain;
    assert p.remote.Some?;
    assert p.pc.value.chain[1..] == [] && [] + [LocalAnswer] == [LocalAnswer];
    UndoneSnoc([], LocalAnswer, other, p.id);
  }

  lemma AnswerFinishes(p: Peer, role: Role, other: PeerId, o: Offer)
    requires Sound(p, role, other) && Busy(p) && p.pc.value.chain[0] == LocalAnswer
    requires p.pc.value.signaling == HaveRemoteOffer(o)
    ensures p.pc.value.chain == [LocalAnswer] && p.remote == Some(other)
    ensures Finish(p) == Reaction(p.(pc := Some(Applied(p.pc.value.(chain := []), o))), [Answer(p.id, other, o)])
  {
    assert p.pc.value.chain[0] in p.pc.value.chain;
    assert p.pc.value.chain == [LocalAnswer] && [LocalAnswer][1..] == [];
  }

  lemma OfferAnswered(p: Peer, role: Role, other: PeerId, o: Offer)
    requires Sound(p, role, other) && Busy(p) && p.pc.value.chain[0] == LocalAnswer
    requires p.pc.value.signaling == HaveRemoteOffer(o) && o.author != role
    ensures Finish(p) == Reaction(p.(pc := Some(Applied(p.pc.value.(chain := []), o))), [Answer(p.id, other, o)])
    ensures Sound(Finish(p).peer, role, other)
    ensures Undone(p.pc.value.chain, other, p.id) == []
  {
    AnswerFinishes(p, role, other, o);
    OwnSnoc(p.pc.value.history, Exchange(o, o), role);
    NothingUndone(p.pc.value.chain, other, p.id);
  }

  /** A first message that has been handed over is the first of those ahead. */
  lemma FirstAhead(ops: seq<Operation>, m: Signal, from: PeerId, to: PeerId, channel: seq<Signal>)
    requires ops != [] && Message(ops[0], from, to) == [m]
    ensures
      var ahead := Undone(ops, from, to) + channel;
      ahead != [] && ahead[0] == m && ahead[1..] == Undone(ops[1..], from, to) + channel
  {
    FirstOf(ops, from, to);
    Reassociate([m], Undone(ops[1..], from, to), channel);
  }

  /** A chain that begins with the only message ahead holds nothing else. */
  lemma OnlyOne(p: Peer, role: Role, other: PeerId, channel: seq<Signal>)
    requires Sound(p, role, other) && Busy(p) && Remote(p.pc.value.chain[0])
    requires |Undone(p.pc.value.chain, other, p.id) + channel| == 1
    ensures p.pc.value.chain == [p.pc.value.chain[0]] && channel == []
  {
    var ops := p.pc.value.chain;
    assert ops[0] in ops;
    UndoneLength(ops, other, p.id);
  }

  lemma InviterOfferShows(s: System, o: Offer) returns (s': System)
    requires BothSound(s) && Busy(s.inviter) && s.inviter.pc.value.chain[0] == LocalOffer && o == Offer(Inviter, s.inviter.pc.value.made)
    ensures s' == Next(s, Finished(Inviter)) && BothSound(s') && SameIds(s, s') && LookOf(s).i.Stable?
    ensures LookOf(s') == LookOf(s).(i := HaveLocalOffer(o), toJoiner := AheadOfJoiner(s) + [OfferSignal(s.inviter.id, o)])
  {
    OfferMade(s.inviter, Inviter, s.joiner.id, o);
    FirstOf(s.inviter.pc.value.chain, s.joiner.id, s.inviter.id);
    s' := InviterShows(s, Finish(s.inviter).peer, [OfferSignal(s.inviter.id, o)]);
  }

  lemma InviterOffers(s: System, ph: Phase) returns (s': System, ph': Phase)
    requires Matches(s, ph) && Busy(s.inviter) && s.inviter.pc.value.chain[0] == LocalOffer
    ensures s' == Next(s, Finished(Inviter)) && Matches(s', ph') && !ph'.Overtaken? && !ph'.Unheard?
  {
    var o := Offer(Inviter, s.inviter.pc.value.made);
    s' := InviterOfferShows(s, o);
    ph' := InviterOffersFits(LookOf(s), ph, s.inviter.id, s.joiner.id, o);
    LedTo(s, s', LookOf(s'), ph');
  }

  lemma JoinerOfferShows(s: System, o: Offer) returns (s': System)
    requires BothSound(s) && Busy(s.joiner) && s.joiner.pc.value.chain[0] == LocalOffer && o == Offer(Joiner, s.joiner.pc.value.made)
    ensures s' == Next(s, Finished(Joiner)) && BothSound(s') && SameIds(s, s') && LookOf(s).j.Stable?
    ensures LookOf(s') == LookOf(s).(j := HaveLocalOffer(o), toInviter := AheadOfInviter(s) + [OfferSignal(s.joiner.id, o)])
  {
    OfferMade(s.joiner, Joiner, s.inviter.id, o);
    s' := JoinerShows(s, Finish(s.joiner).peer, [OfferSignal(s.joiner.id, o)]);
  }

  lemma JoinerOffers(s: System, ph: Phase) returns (s': System, ph': Phase)
    requires Matches(s, ph) && Busy(s.joiner) && s.joiner.pc.value.chain[0] == LocalOffer
    ensures s' == Next(s, Finished(Joiner)) && Matches(s', ph') && !ph'.Overtaken? && !ph'.Unheard?
  {
    var o := Offer(Joiner, s.joiner.pc.value.made);
    s' := JoinerOfferShows(s, o);
    ph' := JoinerOffersFits(LookOf(s), ph, s.inviter.id, s.joiner.id, o);
    LedTo(s, s', LookOf(s'), ph');
  }

  lemma InviterApplyShows(s: System, o: Offer) returns (s': System)
    requires BothSound(s) && Busy(s.inviter) && s.inviter.pc.value.chain[0] == RemoteAnswer(AnswerSdp(o))
    requires s.inviter.pc.value.signaling == HaveLocalOffer(o) && o.author == Inviter
    ensures s' == Next(s, Finished(Inviter)) && BothSound(s') && SameIds(s, s') && s'.toInviter == s.toInviter && LookOf(s).toInviter != []
    ensures LookOf(s') == LookOf(s).(i := Stable, toInviter := LookOf(s).toInviter[1..],
                                     iHistory := LookOf(s).iHistory + [Exchange(o, o)])
  {
    var ops := s.inviter.pc.value.chain;
    FirstAhead(ops, Answer(s.joiner.id, s.inviter.id, o), s.joiner.id, s.inviter.id, s.toInviter);
    FirstOf(ops, s.joiner.id, s.inviter.id);
    AnswerApplied(s.inviter, Inviter, s.joiner.id, o);
    AppendNothing(AheadOfJoiner(s));
    s' := InviterShows(s, Finish(s.inviter).peer, []);
  }

  lemma InviterApplies(s: System, ph: Phase, d: Description) returns (s': System, ph': Phase)
    requires Matches(s, ph) && Busy(s.inviter) && s.inviter.pc.value.chain[0] == RemoteAnswer(d)
    ensures s' == Next(s, Finished(Inviter)) && Matches(s', ph') && !ph'.Overtaken? && (ph'.Unheard? <==> ph.Overtaken?)
  {
    var o;
    FirstAhead(s.inviter.pc.value.chain, AnswerSignal(s.joiner.id, s.inviter.id, d), s.joiner.id, s.inviter.id, s.toInviter);
    o, ph' := InviterAppliesFits(LookOf(s), ph, s.inviter.id, s.joiner.id, d);
    s' := InviterApplyShows(s, o);
    LedTo(s, s', LookOf(s'), ph');
  }

  lemma JoinerApplyShows(s: System, o: Offer) returns (s': System)
    requires BothSound(s) && Busy(s.joiner) && s.joiner.pc.value.chain[0] == RemoteAnswer(AnswerSdp(o))
    requires s.joiner.pc.value.signaling == HaveLocalOffer(o) && o.author == Joiner
    ensures s' == Next(s, Finished(Joiner)) && BothSound(s') && SameIds(s, s') && LookOf(s).toJoiner != []
    ensures LookOf(s') == LookOf(s).(j := Stable, toJoiner := LookOf(s).toJoiner[1..],
                                     jHistory := LookOf(s).jHistory + [Exchange(o, o)])
  {
    var ops := s.joiner.pc.value.chain;
    FirstAhead(ops, Answer(s.inviter.id, s.joiner.id, o), s.inviter.id, s.joiner.id, s.toJoiner);
    FirstOf(ops, s.inviter.id, s.joiner.id);
    AnswerApplied(s.joiner, Joiner, s.inviter.id, o);
    AppendNothing(AheadOfInviter(s));
    s' := JoinerShows(s, Finish(s.joiner).peer, []);
  }

  lemma JoinerApplies(s: System, ph: Phase, d: Description) returns (s': System, ph': Phase)
    requires Matches(s, ph) && Busy(s.joiner) && s.joiner.pc.value.chain[0] == RemoteAnswer(d)
    ensures s' == Next(s, Finished(Joiner)) && Matches(s', ph') && !ph'.Overtaken? && !ph'.Unheard?
  {
    var o;
    FirstAhead(s.joiner.pc.value.chain, AnswerSignal(s.inviter.id, s.joiner.id, d), s.inviter.id, s.joiner.id, s.toJoiner);
    o, ph' := JoinerAppliesFits(LookOf(s), ph, s.inviter.id, s.joiner.id, d);
    s' := JoinerApplyShows(s, o);
    LedTo(s, s', LookOf(s'), ph');
  }

  lemma InviterAcceptShows(s: System, o: Offer) returns (s': System)
    requires BothSound(s) && Busy(s.inviter) && s.inviter.pc.value.chain == [RemoteOffer(o)] && s.toInviter == []
    requires s.inviter.pc.value.signaling.Stable?
    ensures s' == Next(s, Finished(Inviter)) && BothSound(s') && SameIds(s, s')
    ensures LookOf(s') == LookOf(s).(i := HaveRemoteOffer(o), toInviter := [])
  {
    OfferAccepted(s.inviter, Inviter, s.joiner.id, o);
    AppendNothing(AheadOfJoiner(s));
    s' := InviterShows(s, Finish(s.inviter).peer, []);
  }

  lemma InviterAccepts(s: System, ph: Phase, o: Offer) returns (s': System)
    requires Matches(s, ph) && Busy(s.inviter) && s.inviter.pc.value.chain[0] == RemoteOffer(o)
    ensures !ph.Overtaken? && s' == Next(s, Finished(Inviter)) && Matches(s', InviterAccepting(o))
  {
    var ops, m := s.inviter.pc.value.chain, OfferSignal(s.joiner.id, o);
    FirstAhead(ops, m, s.joiner.id, s.inviter.id, s.toInviter);
    FirstOf(ops, s.joiner.id, s.inviter.id);
    assert ops == [RemoteOffer(o)];
    InviterAcceptsFits(LookOf(s), ph, s.inviter.id, s.joiner.id, o);
    OnlyOne(s.inviter, Inviter, s.joiner.id, s.toInviter);
    s' := InviterAcceptShows(s, o);
    LedTo(s, s', LookOf(s'), InviterAccepting(o));
  }

  lemma JoinerAcceptShows(s: System, o: Offer) returns (s': System)
    requires BothSound(s) && Busy(s.joiner) && s.joiner.pc.value.chain == [RemoteOffer(o)] && s.toJoiner == []
    ensures s' == Next(s, Finished(Joiner)) && BothSound(s') && SameIds(s, s')
    ensures LookOf(s') == LookOf(s).(j := HaveRemoteOffer(o), toJoiner := [],
                                     rolledBack := RolledBack(LookOf(s).rolledBack, LookOf(s).j))
  {
    OfferAccepted(s.joiner, Joiner, s.inviter.id, o);
    AppendNothing(AheadOfInviter(s));
    s' := JoinerShows(s, Finish(s.joiner).peer, []);
  }

  lemma JoinerAccepts(s: System, ph: Phase, o: Offer) returns (s': System, ph': Phase)
    requires Matches(s, ph) && Busy(s.joiner) && s.joiner.pc.value.chain[0] == RemoteOffer(o)
    ensures s' == Next(s, Finished(Joiner)) && Matches(s', ph') && !ph'.Overtaken? && !ph'.Unheard?
  {
    FirstAhead(s.joiner.pc.value.chain, OfferSignal(s.inviter.id, o), s.inviter.id, s.joiner.id, s.toJoiner);
    ph' := JoinerAcceptsFits(LookOf(s), ph, s.inviter.id, s.joiner.id, o);
    OnlyOne(s.joiner, Joiner, s.inviter.id, s.toJoiner);
    s' := JoinerAcceptShows(s, o);
    LedTo(s, s', LookOf(s'), ph');
  }

  lemma InviterAnswerShows(s: System, o: Offer) returns (s': System)
    requires BothSound(s) && Busy(s.inviter) && s.inviter.pc.value.chain[0] == LocalAnswer
    requires s.inviter.pc.value.signaling == HaveRemoteOffer(o) && o.author == Joiner
    ensures s' == Next(s, Finished(Inviter)) && BothSound(s') && SameIds(s, s')
    ensures LookOf(s') == LookOf(s).(i := Stable, toJoiner := LookOf(s).toJoiner + [Answer(s.inviter.id, s.joiner.id, o)],
                                     iHistory := LookOf(s).iHistory + [Exchange(o, o)])
  {
    OfferAnswered(s.inviter, Inviter, s.joiner.id, o);
    s' := InviterShows(s, Finish(s.inviter).peer, [Answer(s.inviter.id, s.joiner.id, o)]);
  }

  lemma AnsweringMeansOffered(p: Peer, role: Role, other: PeerId)
    requires Sound(p, role, other) && Busy(p) && p.pc.value.chain[0] == LocalAnswer
    ensures p.pc.value.signaling.HaveRemoteOffer?
  {
    assert p.pc.value.chain[0] in p.pc.value.chain;
  }

  lemma InviterAnswers(s: System, ph: Phase) returns (s': System)
    requires Matches(s, ph) && Busy(s.inviter) && s.inviter.pc.value.chain[0] == LocalAnswer
    ensures ph.InviterAccepting? && s' == Next(s, Finished(Inviter)) && Matches(s', InviterAnswered(ph.oj))
  {
    AnsweringMeansOffered(s.inviter, Inviter, s.joiner.id);
    var o := s.inviter.pc.value.signaling.theirs;
    InviterAnswersFits(LookOf(s), ph, s.inviter.id, s.joiner.id, o);
    s' := InviterAnswerShows(s, o);
    LedTo(s, s', LookOf(s'), InviterAnswered(o));
  }

  lemma JoinerAnswerShows(s: System, o: Offer) returns (s': System)
    requires BothSound(s) && Busy(s.joiner) && s.joiner.pc.value.chain[0] == LocalAnswer
    requires s.joiner.pc.value.signaling == HaveRemoteOffer(o) && o.author == Inviter
    ensures s' == Next(s, Finished(Joiner)) && BothSound(s') && SameIds(s, s')
    ensures LookOf(s') == LookOf(s).(j := Stable, toInviter := LookOf(s).toInviter + [Answer(s.joiner.id, s.inviter.id, o)],
                                     jHistory := LookOf(s).jHistory + [Exchange(o, o)])
  {
    OfferAnswered(s.joiner, Joiner, s.inviter.id, o);
    s' := JoinerShows(s, Finish(s.joiner).peer, [Answer(s.joiner.id, s.inviter.id, o)]);
  }

  lemma JoinerAnswers(s: System, ph: Phase) returns (s': System, ph': Phase)
    requires Matches(s, ph) && Busy(s.joiner) && s.joiner.pc.value.chain[0] == LocalAnswer
    ensures s' == Next(s, Finished(Joiner)) && Matches(s', ph') && !ph'.Overtaken? && !ph'.Unheard?
  {
    AnsweringMeansOffered(s.joiner, Joiner, s.inviter.id);
    var o := s.joiner.pc.value.signaling.theirs;
    ph' := JoinerAnswersFits(LookOf(s), ph, s.inviter.id, s.joiner.id, o);
    s' := JoinerAnswerShows(s, o);
    LedTo(s, s', LookOf(s'), ph');
  }

  // ----- a message is handed over

  /** The peer with one more operation called, and the other peer known. */
  function Called(p: Peer, other: PeerId, op: Operation): Peer
    requires p.pc.Some?
  {
    Known(p, other).(pc := Some(Enqueue(p.pc.value, op)))
  }

  lemma CalledSound(p: Peer, role: Role, other: PeerId, op: Operation)
    requires Sound(p, role, other) && Remote(op) && !p.pc.value.signaling.HaveRemoteOffer?
    ensures Sound(Called(p, other, op), role, other)
  {
    var k := p.pc.value.chain;
    assert forall x :: x in k + [op] <==> x in k || x == op;
    assert k != [] ==> (k + [op])[0] == k[0] && (k + [op])[1..] == k[1..] + [op];
  }

  lemma AnswerArrives(p: Peer, role: Role, other: PeerId, d: Description)
    requires Sound(p, role, other) && IsId(other)
    ensures Handle(p, AnswerSignal(other, p.id, d)) == Reaction(Called(p, other, RemoteAnswer(d)), [])
  {
  }

  lemma OfferTaken(p: Peer, role: Role, other: PeerId, o: Offer)
    requires Sound(p, role, other) && IsId(other) && (role == Joiner || !Collides(p, p.pc.value))
    ensures Handle(p, OfferSignal(other, o)) == Reaction(Called(p, other, RemoteOffer(o)).(ignoreOffer := false), [])
  {
  }

  lemma OfferIgnored(p: Peer, other: PeerId, o: Offer)
    requires Sound(p, Inviter, other) && IsId(other) && Collides(p, p.pc.value)
    ensures Handle(p, OfferSignal(other, o)) == Reaction(p.(ignoreOffer := true, ignored := p.ignored + [o]), [])
  {
  }

  /** The first message of a channel is the first one ahead that has not been handed over. */
  lemma FirstOfChannel(ops: seq<Operation>, from: PeerId, to: PeerId, channel: seq<Signal>)
    requires channel != []
    ensures
      var done, ahead := Undone(ops, from, to), Undone(ops, from, to) + channel;
      |done| < |ahead| && ahead[|done|] == channel[0]
  {
  }

  lemma ArrivesAtJoiner(l: Look, ph: Phase, i: PeerId, j: PeerId, n: nat) returns (o: Offer)
    requires Fits(l, ph, i, j) && n < |l.toJoiner|
    ensures !l.j.HaveRemoteOffer? && !ph.Overtaken? && !ph.Unheard?
    ensures l.toJoiner[n] == OfferSignal(i, o) || l.toJoiner[n] == Answer(i, j, o)
  {
    o := if l.toJoiner[n].OfferSignal? then ph.oi else ph.oj;
  }

  lemma HandedToJoiner(s: System, op: Operation, p: Peer) returns (s': System)
    requires BothSound(s) && s.toJoiner != [] && !s.joiner.pc.value.signaling.HaveRemoteOffer? && Remote(op)
    requires Message(op, s.inviter.id, s.joiner.id) == [s.toJoiner[0]]
    requires p == Called(s.joiner, s.inviter.id, op) || p == Called(s.joiner, s.inviter.id, op).(ignoreOffer := false)
    ensures s' == Reacted(Taken(s, Joiner), Joiner, Reaction(p, [])) && BothSound(s') && SameIds(s, s') && LookOf(s') == LookOf(s)
  {
    CalledSound(s.joiner, Joiner, s.inviter.id, op);
    HandedOver(s.joiner.pc.value.chain, op, s.inviter.id, s.joiner.id, s.toJoiner);
    AppendNothing(AheadOfInviter(s));
    s' := JoinerShows(Taken(s, Joiner), p, []);
  }

  lemma JoinerGiven(s: System, o: Offer) returns (s': System)
    requires BothSound(s) && s.toJoiner != [] && !s.joiner.pc.value.signaling.HaveRemoteOffer?
    requires s.toJoiner[0] == OfferSignal(s.inviter.id, o) || s.toJoiner[0] == Answer(s.inviter.id, s.joiner.id, o)
    ensures s' == Next(s, Deliver(Joiner)) && BothSound(s') && SameIds(s, s') && LookOf(s') == LookOf(s)
  {
    if s.toJoiner[0].OfferSignal? {
      OfferTaken(s.joiner, Joiner, s.inviter.id, o);
      s' := HandedToJoiner(s, RemoteOffer(o), Handle(s.joiner, s.toJoiner[0]).peer);
    } else {
      AnswerArrives(s.joiner, Joiner, s.inviter.id, AnswerSdp(o));
      s' := HandedToJoiner(s, RemoteAnswer(AnswerSdp(o)), Handle(s.joiner, s.toJoiner[0]).peer);
    }
  }

  lemma StepToJoiner(s: System, ph: Phase)
    requires Matches(s, ph) && Enabled(s, Deliver(Joiner))
    ensures Matches(Next(s, Deliver(Joiner)), ph) && !ph.Overtaken? && !ph.Unheard?
  {
    var ops := s.joiner.pc.value.chain;
    FirstOfChannel(ops, s.inviter.id, s.joiner.id, s.toJoiner);
    var o := ArrivesAtJoiner(LookOf(s), ph, s.inviter.id, s.joiner.id, |Undone(ops, s.inviter.id, s.joiner.id)|);
    var s' := JoinerGiven(s, o);
    LedTo(s, s', LookOf(s), ph);
  }

  lemma ArrivesAtInviter(l: Look, ph: Phase, i: PeerId, j: PeerId, n: nat) returns (o: Offer)
    requires Fits(l, ph, i, j) && n < |l.toInviter|
    ensures l.toInviter[n] == OfferSignal(j, o) || (l.toInviter[n] == Answer(j, i, o) && l.i.HaveLocalOffer?)
    ensures l.i.Stable? ==> ph == JoinerOffered(o) && n == 0
    ensures !l.i.HaveRemoteOffer?
  {
    o :=
      match ph
      case JoinerOffered(oj) => oj
      case Glare(_, oj) => oj
      case JoinerAnswered(oi) => oi
      case JoinerAnsweredAndOffered(oi, oj) => if n == 0 then oi else oj
      case JoinerYielding(_, stale) => stale
      case JoinerYielded(oi, stale) => if n == 0 then stale else oi
      case JoinerYieldedAndOffered(oi, stale, oj) => if n == 0 then stale else if n == 1 then oi else oj
      case Overtaken(oi, _) => oi;
  }

  lemma StillUnhurried(pc: Connection, op: Operation)
    requires Unhurried(pc) && Remote(op)
    requires op.RemoteOffer? ==> pc.chain == [] && pc.signaling.Stable?
    requires op.RemoteAnswer? ==> pc.signaling.HaveLocalOffer?
    ensures Unhurried(Enqueue(pc, op))
  {
    assert forall x :: x in pc.chain + [op] <==> x in pc.chain || x == op;
    assert [] + [op] == [op];
  }

  lemma HandedToInviter(s: System, op: Operation, p: Peer) returns (s': System)
    requires BothSound(s) && s.toInviter != [] && !s.inviter.pc.value.signaling.HaveRemoteOffer? && Remote(op)
    requires Message(op, s.joiner.id, s.inviter.id) == [s.toInviter[0]]
    requires op.RemoteOffer? ==> s.inviter.pc.value.chain == [] && s.inviter.pc.value.signaling.Stable?
    requires op.RemoteAnswer? ==> s.inviter.pc.value.signaling.HaveLocalOffer?
    requires p == Called(s.inviter, s.joiner.id, op) || p == Called(s.inviter, s.joiner.id, op).(ignoreOffer := false)
    ensures s' == Reacted(Taken(s, Inviter), Inviter, Reaction(p, [])) && BothSound(s') && SameIds(s, s') && LookOf(s') == LookOf(s)
    ensures s'.toInviter == s.toInviter[1..]
  {
    CalledSound(s.inviter, Inviter, s.joiner.id, op);
    StillUnhurried(s.inviter.pc.value, op);
    HandedOver(s.inviter.pc.value.chain, op, s.joiner.id, s.inviter.id, s.toInviter);
    AppendNothing(AheadOfJoiner(s));
    s' := InviterShows(Taken(s, Inviter), p, []);
  }

  /** While its own offer is pending the inviter can have been given answers only. */
  lemma OnlyAnswers(p: Peer, other: PeerId)
    requires SoundInviter(p, other) && WaitingAt(p)
    ensures forall op :: op in p.pc.value.chain ==> op.RemoteAnswer?
    ensures |Undone(p.pc.value.chain, other, p.id)| == |p.pc.value.chain|
    ensures p.pc.value.chain != [] ==> Undone(p.pc.value.chain, other, p.id)[0].AnswerSignal?
  {
    UndoneLength(p.pc.value.chain, other, p.id);
    if p.pc.value.chain != [] {
      FirstOf(p.pc.value.chain, other, p.id);
    }
  }

  lemma IgnoredFits(l: Look, ph: Phase, i: PeerId, j: PeerId, n: nat, o: Offer) returns (ph': Phase)
    requires Fits(l, ph, i, j) && n < |l.toInviter| && l.toInviter[n] == OfferSignal(j, o)
    requires n > 0 ==> l.toInviter[0].AnswerSignal?
    ensures Fits(l.(toInviter := RemoveAt(l.toInviter, n), ignored := l.ignored + [o]), ph', i, j)
    ensures ph'.Overtaken? <==> n > 0
    ensures n > 0 ==> n == 1 && |l.toInviter| == 2 && l.i.HaveLocalOffer?
    ensures ph'.Unheard? <==> l.i.Stable?
  {
    match ph
    case JoinerOffered(oj) => ph' := Unheard(oj);
    case Glare(oi, oj) => ph' := Overridden(oi, oj);
    case JoinerAnsweredAndOffered(oi, oj) => ph' := Overtaken(oi, oj);
    case JoinerYielding(oi, _) => ph' := JoinerAccepting(oi);
    case JoinerYielded(oi, _) => ph' := JoinerAnswered(oi);
    case JoinerYieldedAndOffered(oi, _, oj) => ph' := JoinerAnsweredAndOffered(oi, oj);
    case _ =>
  }

  /** Nothing will be done about the joiner's offer: the inviter has ignored it and is not making an offer of its own. */
  predicate Lost(s: System, ph: Phase) {
    ph.Overtaken? || (ph.Unheard? && LocalOffer !in Chain(s.inviter))
  }

  lemma PassedOver(done: seq<Signal>, channel: seq<Signal>)
    requires channel != []
    ensures RemoveAt(done + channel, |done|) == done + channel[1..]
  {
  }

  /** The offer that arrives leaves what is ahead of the inviter; answers to its own offer may stay. */
  lemma IgnoredLook(s: System, ph: Phase, o: Offer, l': Look) returns (ph': Phase)
    requires Matches(s, ph) && Enabled(s, Deliver(Inviter)) && s.toInviter[0] == OfferSignal(s.joiner.id, o)
    requires !s.inviter.pc.value.signaling.HaveRemoteOffer?
    requires l' == LookOf(s).(toInviter := Undone(s.inviter.pc.value.chain, s.joiner.id, s.inviter.id) + s.toInviter[1..],
                              ignored := s.inviter.ignored + [o])
    ensures Fits(l', ph', s.inviter.id, s.joiner.id)
    ensures WaitingAt(s.inviter) ==> !ph'.Unheard? && (ph'.Overtaken? <==> s.inviter.pc.value.chain != [])
    ensures !WaitingAt(s.inviter) ==> ph'.Unheard?
    ensures ph'.Overtaken? ==> s.toInviter[1..] == []
  {
    var ops := s.inviter.pc.value.chain;
    var done, l := Undone(ops, s.joiner.id, s.inviter.id), LookOf(s);
    FirstOfChannel(ops, s.joiner.id, s.inviter.id, s.toInviter);
    if WaitingAt(s.inviter) {
      OnlyAnswers(s.inviter, s.joiner.id);
    } else {
      var x := ArrivesAtInviter(l, ph, s.inviter.id, s.joiner.id, |done|);
    }
    ph' := IgnoredFits(l, ph, s.inviter.id, s.joiner.id, |done|, o);
    PassedOver(done, s.toInviter);
  }

  lemma WaitingOpen(p: Peer, other: PeerId)
    requires SoundInviter(p, other)
    ensures WaitingAt(p) ==> (OfferOpen(p) <==> p.pc.value.chain == [])
    ensures !WaitingAt(p) ==> (OfferOpen(p) <==> LocalOffer in p.pc.value.chain)
  {
    if WaitingAt(p) && p.pc.value.chain != [] {
      OnlyAnswers(p, other);
      assert p.pc.value.chain[0] in p.pc.value.chain;
    }
  }

  lemma IgnoringShows(s: System, o: Offer, l': Look) returns (s': System)
    requires BothSound(s) && Enabled(s, Deliver(Inviter)) && s.toInviter[0] == OfferSignal(s.joiner.id, o)
    requires Collides(s.inviter, s.inviter.pc.value)
    requires l' == LookOf(s).(toInviter := Undone(s.inviter.pc.value.chain, s.joiner.id, s.inviter.id) + s.toInviter[1..],
                              ignored := s.inviter.ignored + [o])
    ensures s' == Next(s, Deliver(Inviter)) && BothSound(s') && SameIds(s, s') && LookOf(s') == l'
    ensures s'.toInviter == s.toInviter[1..] && Chain(s'.inviter) == Chain(s.inviter)
  {
    OfferIgnored(s.inviter, s.joiner.id, o);
    AppendNothing(AheadOfJoiner(s));
    s' := InviterShows(Taken(s, Inviter), Handle(s.inviter, s.toInviter[0]).peer, []);
  }

  lemma InviterIgnores(s: System, ph: Phase, o: Offer, l': Look) returns (s': System, ph': Phase)
    requires Matches(s, ph) && Enabled(s, Deliver(Inviter)) && s.toInviter[0] == OfferSignal(s.joiner.id, o)
    requires Collides(s.inviter, s.inviter.pc.value) && !s.inviter.pc.value.signaling.HaveRemoteOffer?
    requires l' == LookOf(s).(toInviter := Undone(s.inviter.pc.value.chain, s.joiner.id, s.inviter.id) + s.toInviter[1..],
                              ignored := s.inviter.ignored + [o])
    ensures s' == Next(s, Deliver(Inviter)) && Matches(s', ph')
    ensures Lost(s', ph') <==> !OfferOpen(s.inviter)
  {
    ph' := IgnoredLook(s, ph, o, l');
    s' := IgnoringShows(s, o, l');
    LedTo(s, s', l', ph');
    WaitingOpen(s.inviter, s.joiner.id);
  }

  lemma InviterTakes(s: System, ph: Phase, o: Offer) returns (s': System)
    requires Matches(s, ph) && Enabled(s, Deliver(Inviter)) && s.toInviter[0] == OfferSignal(s.joiner.id, o)
    requires !Collides(s.inviter, s.inviter.pc.value) && !OfferOpen(s.inviter) && ph == JoinerOffered(o)
    ensures s' == Next(s, Deliver(Inviter)) && Matches(s', ph)
  {
    var ops := s.inviter.pc.value.chain;
    FirstOfChannel(ops, s.joiner.id, s.inviter.id, s.toInviter);
    UndoneLength(ops, s.joiner.id, s.inviter.id);
    OfferTaken(s.inviter, Inviter, s.joiner.id, o);
    s' := HandedToInviter(s, RemoteOffer(o), Handle(s.inviter, s.toInviter[0]).peer);
    LedTo(s, s', LookOf(s), ph);
  }

  lemma InviterGiven(s: System, ph: Phase, o: Offer) returns (s': System)
    requires Matches(s, ph) && Enabled(s, Deliver(Inviter)) && s.toInviter[0] == Answer(s.joiner.id, s.inviter.id, o)
    requires s.inviter.pc.value.signaling.HaveLocalOffer?
    ensures s' == Next(s, Deliver(Inviter)) && Matches(s', ph)
  {
    AnswerArrives(s.inviter, Inviter, s.joiner.id, AnswerSdp(o));
    s' := HandedToInviter(s, RemoteAnswer(AnswerSdp(o)), Handle(s.inviter, s.toInviter[0]).peer);
    LedTo(s, s', LookOf(s), ph);
  }

  /** What arrives at the inviter, and where the two peers stand then. */
  lemma FirstAtInviter(s: System, ph: Phase) returns (o: Offer)
    requires Matches(s, ph) && Enabled(s, Deliver(Inviter))
    ensures s.toInviter[0] == OfferSignal(s.joiner.id, o)
         || (s.toInviter[0] == Answer(s.joiner.id, s.inviter.id, o) && s.inviter.pc.value.signaling.HaveLocalOffer?)
    ensures s.inviter.pc.value.signaling.Stable? ==> ph == JoinerOffered(o)
    ensures !s.inviter.pc.value.signaling.HaveRemoteOffer? && !ph.Overtaken? && !ph.Unheard?
  {
    var ops := s.inviter.pc.value.chain;
    FirstOfChannel(ops, s.joiner.id, s.inviter.id, s.toInviter);
    o := ArrivesAtInviter(LookOf(s), ph, s.inviter.id, s.joiner.id, |Undone(ops, s.joiner.id, s.inviter.id)|);
  }

  lemma StepToInviter(s: System, ph: Phase) returns (s': System, ph': Phase)
    requires Matches(s, ph) && Enabled(s, Deliver(Inviter)) && !Clashes(s, Deliver(Inviter))
    ensures s' == Next(s, Deliver(Inviter)) && Matches(s', ph') && !Lost(s, ph)
    ensures Lost(s', ph') <==> Strands(s, Deliver(Inviter))
  {
    var o := FirstAtInviter(s, ph);
    ph' := ph;
    if s.toInviter[0].AnswerSignal? {
      s' := InviterGiven(s, ph, o);
    } else if Collides(s.inviter, s.inviter.pc.value) {
      var l' := LookOf(s).(toInviter := Undone(s.inviter.pc.value.chain, s.joiner.id, s.inviter.id) + s.toInviter[1..],
                           ignored := s.inviter.ignored + [o]);
      s', ph' := InviterIgnores(s, ph, o, l');
    } else {
      s' := InviterTakes(s, ph, o);
    }
  }

  lemma InviterFinishes(s: System, ph: Phase) returns (s': System, ph': Phase)
    requires Matches(s, ph) && Enabled(s, Finished(Inviter))
    ensures s' == Next(s, Finished(Inviter)) && Matches(s', ph')
    ensures !ph'.Overtaken? && (ph'.Unheard? ==> ph.Overtaken?)
  {
    match s.inviter.pc.value.chain[0]
    case LocalOffer => s', ph' := InviterOffers(s, ph);
    case RemoteAnswer(d) => s', ph' := InviterApplies(s, ph, d);
    case RemoteOffer(o) =>
      s' := InviterAccepts(s, ph, o);
      ph' := InviterAccepting(o);
    case LocalAnswer =>
      s' := InviterAnswers(s, ph);
      ph' := InviterAnswered(ph.oj);
  }

  lemma JoinerFinishes(s: System, ph: Phase) returns (s': System, ph': Phase)
    requires Matches(s, ph) && Enabled(s, Finished(Joiner))
    ensures s' == Next(s, Finished(Joiner)) && Matches(s', ph')
    ensures !ph'.Overtaken? && (ph'.Unheard? ==> ph.Overtaken?)
  {
    match s.joiner.pc.value.chain[0]
    case LocalOffer => s', ph' := JoinerOffers(s, ph);
    case RemoteAnswer(d) => s', ph' := JoinerApplies(s, ph, d);
    case RemoteOffer(o) => s', ph' := JoinerAccepts(s, ph, o);
    case LocalAnswer => s', ph' := JoinerAnswers(s, ph);
  }

  lemma StepNeeded(s: System, ph: Phase, who: Role)
    requires Matches(s, ph) && Enabled(s, Needed(who))
    ensures Matches(Next(s, Needed(who)), ph)
    ensures !Lost(s, ph) ==> !Lost(Next(s, Needed(who)), ph)
  {
    if who == Inviter {
      InviterNeeded(s, ph);
    } else {
      JoinerNeeded(s, ph);
    }
  }

  /** The steps at which no message arrives at the inviter lose nothing. */
  lemma StepElsewhere(s: System, ph: Phase, a: Action) returns (ph': Phase)
    requires Matches(s, ph) && Enabled(s, a) && a != Deliver(Inviter)
    ensures Matches(Next(s, a), ph')
    ensures !Lost(s, ph) ==> !Lost(Next(s, a), ph')
  {
    ph' := ph;
    var s';
    match a
    case Needed(who) => StepNeeded(s, ph, who);
    case Published(who) => StepPublished(s, ph, who);
    case Finished(Inviter) => s', ph' := InviterFinishes(s, ph);
    case Finished(Joiner) => s', ph' := JoinerFinishes(s, ph);
    case Deliver(_) => StepToJoiner(s, ph);
  }

  /**
   * Every step but a clash leads from a phase to a phase, and exactly the steps that
   * ignore an offer for nothing lose it.
   */
  lemma Step(s: System, ph: Phase, a: Action) returns (ph': Phase)
    requires Matches(s, ph) && Enabled(s, a) && !Clashes(s, a)
    ensures Matches(Next(s, a), ph')
    ensures !Lost(s, ph) ==> (Lost(Next(s, a), ph') <==> Strands(s, a))
  {
    if a == Deliver(Inviter) {
      var s';
      s', ph' := StepToInviter(s, ph);
    } else {
      ph' := StepElsewhere(s, ph, a);
    }
  }

  // ----- runs

  predicate Possible(s: System, acts: seq<Action>)
    decreases acts
  {
    acts == [] || (Enabled(s, acts[0]) && Possible(Next(s, acts[0]), acts[1..]))
  }

  function Final(s: System, acts: seq<Action>): System
    requires Possible(s, acts)
    decreases acts
  {
    if acts == [] then s else Final(Next(s, acts[0]), acts[1..])
  }

  predicate CleanRun(s: System, acts: seq<Action>)
    requires Possible(s, acts)
    decreases acts
  {
    acts == [] || (Clean(s, acts[0]) && CleanRun(Next(s, acts[0]), acts[1..]))
  }

  predicate ClashFree(s: System, acts: seq<Action>)
    requires Possible(s, acts)
    decreases acts
  {
    acts == [] || (!Clashes(s, acts[0]) && ClashFree(Next(s, acts[0]), acts[1..]))
  }

  /**
   * A peer that waits on its own offer has that offer or its answer under way, or, for
   * the joiner, an inviter offer that overrides it: on its way, handed over but not
   * applied, or being made.
   */
  ghost predicate Progressing(s: System) {
    && (WaitingAt(s.inviter) ==>
          var oi := s.inviter.pc.value.signaling.mine;
          || OfferSignal(s.inviter.id, oi) in AheadOfJoiner(s)
          || (s.joiner.pc.Some? && s.joiner.pc.value.signaling == HaveRemoteOffer(oi))
          || Answer(s.joiner.id, s.inviter.id, oi) in AheadOfInviter(s))
    && (WaitingAt(s.joiner) ==>
          var oj := s.joiner.pc.value.signaling.mine;
          || OfferSignal(s.joiner.id, oj) in AheadOfInviter(s)
          || (s.inviter.pc.Some? && s.inviter.pc.value.signaling == HaveRemoteOffer(oj))
          || Answer(s.inviter.id, s.joiner.id, oj) in AheadOfJoiner(s)
          || (exists m :: m in AheadOfJoiner(s) && m.OfferSignal?)
          || LocalOffer in Chain(s.inviter))
  }

  /** The inviter has accepted an offer while one of its own is being made, which will be rolled back. */
  predicate RollsBack(s: System) {
    LocalOffer in Chain(s.inviter) && exists op :: op in Chain(s.inviter) && op.RemoteOffer?
  }

  ghost predicate Healthy(s: System) {
    Progressing(s) && !RollsBack(s)
  }

  ghost predicate AlwaysHealthy(s: System, acts: seq<Action>)
    requires Possible(s, acts)
    decreases acts
  {
    Healthy(s) && (acts == [] || AlwaysHealthy(Next(s, acts[0]), acts[1..]))
  }

  predicate InviterProgresses(l: Look, i: PeerId, j: PeerId) {
    l.i.HaveLocalOffer? ==>
      || OfferSignal(i, l.i.mine) in l.toJoiner
      || l.j == HaveRemoteOffer(l.i.mine)
      || Answer(j, i, l.i.mine) in l.toInviter
  }

  ghost predicate JoinerProgresses(l: Look, i: PeerId, j: PeerId) {
    l.j.HaveLocalOffer? ==>
      || OfferSignal(j, l.j.mine) in l.toInviter
      || l.i == HaveRemoteOffer(l.j.mine)
      || Answer(i, j, l.j.mine) in l.toJoiner
      || exists m :: m in l.toJoiner && m.OfferSignal?
  }

  lemma InviterAlwaysProgresses(l: Look, ph: Phase, i: PeerId, j: PeerId)
    requires Fits(l, ph, i, j)
    ensures InviterProgresses(l, i, j)
  {
    match ph
    case InviterOffered(_) => assert l.toJoiner[0] in l.toJoiner;
    case Glare(_, _) => assert l.toJoiner[0] in l.toJoiner;
    case Overridden(_, _) => assert l.toJoiner[0] in l.toJoiner;
    case InviterAnsweredAndOffered(_, _) => assert l.toJoiner[1] in l.toJoiner;
    case JoinerAnswered(_) => assert l.toInviter[0] in l.toInviter;
    case JoinerAnsweredAndOffered(_, _) => assert l.toInviter[0] in l.toInviter;
    case Overtaken(_, _) => assert l.toInviter[0] in l.toInviter;
    case JoinerYielded(_, _) => assert l.toInviter[1] in l.toInviter;
    case JoinerYieldedAndOffered(_, _, _) => assert l.toInviter[1] in l.toInviter;
    case _ =>
  }

  lemma JoinerProgressesUnless(l: Look, ph: Phase, i: PeerId, j: PeerId)
    requires Fits(l, ph, i, j)
    ensures JoinerProgresses(l, i, j) <==> !ph.Overtaken? && !ph.Unheard?
  {
    match ph
    case JoinerOffered(_) => assert l.toInviter[0] in l.toInviter;
    case Glare(_, _) => assert l.toInviter[0] in l.toInviter;
    case JoinerAnsweredAndOffered(_, _) => assert l.toInviter[1] in l.toInviter;
    case JoinerYieldedAndOffered(_, _, _) => assert l.toInviter[2] in l.toInviter;
    case InviterAnswered(_) => assert l.toJoiner[0] in l.toJoiner;
    case InviterAnsweredAndOffered(_, _) => assert l.toJoiner[0] in l.toJoiner;
    case Overridden(_, _) => assert l.toJoiner[0] in l.toJoiner && l.toJoiner[0].OfferSignal?;
    case _ =>
  }

  lemma ProgressingByLook(s: System, l: Look)
    requires s.inviter.pc.Some? && s.joiner.pc.Some? && l == LookOf(s)
    ensures Progressing(s) <==>
              InviterProgresses(l, s.inviter.id, s.joiner.id)
              && (JoinerProgresses(l, s.inviter.id, s.joiner.id) || LocalOffer in Chain(s.inviter))
  {
  }

  lemma PhaseProgresses(s: System, ph: Phase)
    requires Matches(s, ph)
    ensures Progressing(s) <==> !Lost(s, ph)
  {
    InviterAlwaysProgresses(LookOf(s), ph, s.inviter.id, s.joiner.id);
    JoinerProgressesUnless(LookOf(s), ph, s.inviter.id, s.joiner.id);
    ProgressingByLook(s, LookOf(s));
    if ph.Overtaken? {
      WaitingOpen(s.inviter, s.joiner.id);
    }
  }

  lemma PhaseHealthy(s: System, ph: Phase)
    requires Matches(s, ph)
    ensures Healthy(s) <==> !Lost(s, ph)
  {
    PhaseProgresses(s, ph);
    assert LocalOffer in Chain(s.inviter) ==> !(Chain(s.inviter) == [] || Chain(s.inviter)[0].RemoteOffer?);
  }

  lemma ClashRollsBack(s: System, ph: Phase, a: Action)
    requires Matches(s, ph) && Enabled(s, a) && Clashes(s, a)
    ensures RollsBack(Next(s, a))
  {
    var o := FirstAtInviter(s, ph);
    OfferTaken(s.inviter, Inviter, s.joiner.id, o);
    var k := s.inviter.pc.value.chain + [RemoteOffer(o)];
    assert k[|k| - 1] == RemoteOffer(o) && k[|k| - 1] in k;
    assert LocalOffer in s.inviter.pc.value.chain;
  }

  lemma {:induction false} HealthyWhenClean(s: System, ph: Phase, acts: seq<Action>)
    requires Matches(s, ph) && !Lost(s, ph) && Possible(s, acts)
    ensures AlwaysHealthy(s, acts) <==> CleanRun(s, acts)
    decreases acts
  {
    PhaseHealthy(s, ph);
    if acts != [] {
      if Clashes(s, acts[0]) {
        ClashRollsBack(s, ph, acts[0]);
      } else {
        var ph' := Step(s, ph, acts[0]);
        if Lost(Next(s, acts[0]), ph') {
          PhaseHealthy(Next(s, acts[0]), ph');
        } else {
          HealthyWhenClean(Next(s, acts[0]), ph', acts[1..]);
        }
      }
    }
  }

  lemma InitialMatches(s: System)
    requires Initial(s)
    ensures Matches(s, Idle) && !Lost(s, Idle)
  {
  }

  /**
   * Negotiation never gets stuck, exactly: at every moment of a run each waiting
   * peer has something under way that will settle its offer, and no offer of the
   * inviter is about to be rolled back, if and only if the inviter ignores an
   * arriving offer exactly when an offer of its own is being made or is pending with
   * no answer to it arrived.
   */
  lemma NeverStuckExactly(s: System, acts: seq<Action>)
    requires Initial(s) && Possible(s, acts)
    ensures AlwaysHealthy(s, acts) <==> CleanRun(s, acts)
  {
    InitialMatches(s);
    HealthyWhenClean(s, Idle, acts);
  }

  // ----- what makes a run clean

  /** A publish resolves before the answer to what it published arrives. */
  predicate Prompt(s: System, a: Action) {
    a == Deliver(Inviter) && s.toInviter != [] && s.toInviter[0].AnswerSignal? ==> s.inviter.publishing == 0
  }

  /** An offer arrives at the inviter only when the answers before it have been applied. */
  predicate AppliedFirst(s: System, a: Action) {
    OfferArrives(s, a) ==> forall op :: op in Chain(s.inviter) ==> !op.RemoteAnswer?
  }

  predicate PromptRun(s: System, acts: seq<Action>)
    requires Possible(s, acts)
    decreases acts
  {
    acts == [] || (Prompt(s, acts[0]) && PromptRun(Next(s, acts[0]), acts[1..]))
  }

  predicate AppliedFirstRun(s: System, acts: seq<Action>)
    requires Possible(s, acts)
    decreases acts
  {
    acts == [] || (AppliedFirst(s, acts[0]) && AppliedFirstRun(Next(s, acts[0]), acts[1..]))
  }

  /** The flag says what it is meant to say, apart from answers that are still being applied. */
  predicate FlagMeansOpen(p: Peer) {
    && (LocalOffer in Chain(p) ==> p.makingOffer && p.publishing == 0)
    && (p.publishing > 0 ==> p.publishing == 1 && p.makingOffer && WaitingAt(p) && forall op :: op in Chain(p) ==> !op.RemoteAnswer?)
  }

  lemma PromptAtInviter(s: System, ph: Phase)
    requires Matches(s, ph) && FlagMeansOpen(s.inviter) && Enabled(s, Deliver(Inviter)) && Prompt(s, Deliver(Inviter))
    ensures !Clashes(s, Deliver(Inviter)) && FlagMeansOpen(Next(s, Deliver(Inviter)).inviter)
    ensures Clean(s, Deliver(Inviter)) <==> AppliedFirst(s, Deliver(Inviter))
  {
    var o := FirstAtInviter(s, ph);
    if s.toInviter[0].AnswerSignal? {
      AnswerArrives(s.inviter, Inviter, s.joiner.id, AnswerSdp(o));
    } else {
      PromptOffer(s, ph, s.inviter);
      if Collides(s.inviter, s.inviter.pc.value) {
        OfferIgnored(s.inviter, s.joiner.id, o);
      } else {
        OfferTaken(s.inviter, Inviter, s.joiner.id, o);
      }
    }
  }

  /** An open offer is one that collides and has no answer being applied to it. */
  lemma PromptOffer(s: System, ph: Phase, p: Peer)
    requires Matches(s, ph) && p == s.inviter && FlagMeansOpen(p)
    ensures OfferOpen(p) <==> Collides(p, p.pc.value) && forall op :: op in Chain(p) ==> !op.RemoteAnswer?
    ensures (exists op :: op in Chain(p) && op.RemoteAnswer?) ==> Collides(p, p.pc.value)
  {
    if !WaitingAt(p) {
      NoAnswersUnlessWaiting(s, ph);
    }
  }

  lemma FlagOffered(p: Peer, other: PeerId, o: Offer)
    requires SoundInviter(p, other) && Busy(p) && p.pc.value.chain[0] == LocalOffer && o == Offer(Inviter, p.pc.value.made)
    requires FlagMeansOpen(p) && forall op :: op in p.pc.value.chain ==> !op.RemoteAnswer?
    ensures FlagMeansOpen(Finish(p).peer)
  {
    OfferMade(p, Inviter, other, o);
  }

  lemma FlagOther(p: Peer, other: PeerId)
    requires SoundInviter(p, other) && Busy(p) && p.pc.value.chain[0] != LocalOffer && FlagMeansOpen(p)
    ensures FlagMeansOpen(Finish(p).peer)
  {
    var ops := p.pc.value.chain;
    assert ops[0] in ops && LocalOffer !in ops;
    assert Chain(Finish(p).peer) == ops[1..] || Chain(Finish(p).peer) == ops[1..] + [LocalAnswer];
  }

  lemma PromptFinished(s: System, ph: Phase)
    requires Matches(s, ph) && FlagMeansOpen(s.inviter) && Enabled(s, Finished(Inviter))
    ensures FlagMeansOpen(Next(s, Finished(Inviter)).inviter)
  {
    var p := s.inviter;
    if p.pc.value.chain[0] == LocalOffer {
      NoAnswersUnlessWaiting(s, ph);
      FlagOffered(p, s.joiner.id, Offer(Inviter, p.pc.value.made));
    } else {
      FlagOther(p, s.joiner.id);
    }
  }

  /** Unless the inviter waits no answer is under way to it. */
  lemma NoAnswersUnlessWaiting(s: System, ph: Phase)
    requires Matches(s, ph) && !WaitingAt(s.inviter)
    ensures forall op :: op in s.inviter.pc.value.chain ==> !op.RemoteAnswer?
  {
    var ops := s.inviter.pc.value.chain;
    NoneAnswered(LookOf(s), ph, s.inviter.id, s.joiner.id);
    forall op | op in ops ensures !op.RemoteAnswer? {
      if op.RemoteAnswer? {
        AnswerAhead(ops, op, s.joiner.id, s.inviter.id, s.toInviter);
      }
    }
  }

  lemma AnswerAhead(ops: seq<Operation>, op: Operation, from: PeerId, to: PeerId, channel: seq<Signal>)
    requires op in ops && op.RemoteAnswer?
    ensures AnswerSignal(from, to, op.answer) in Undone(ops, from, to) + channel
  {
    AnswerUndone(ops, op, from, to);
  }

  lemma NoneAnswered(l: Look, ph: Phase, i: PeerId, j: PeerId)
    requires Fits(l, ph, i, j) && !l.i.HaveLocalOffer?
    ensures forall m :: m in l.toInviter ==> !m.AnswerSignal?
  {
  }

  lemma {:induction false} AnswerUndone(ops: seq<Operation>, op: Operation, from: PeerId, to: PeerId)
    requires op in ops && op.RemoteAnswer?
    ensures AnswerSignal(from, to, op.answer) in Undone(ops, from, to)
  {
    if ops[0] == op {
      assert Message(op, from, to)[0] in Undone(ops, from, to);
    } else {
      assert ops == [ops[0]] + ops[1..];
      AnswerUndone(ops[1..], op, from, to);
    }
  }

  lemma PromptStep(s: System, ph: Phase, a: Action)
    requires Matches(s, ph) && FlagMeansOpen(s.inviter) && Enabled(s, a) && Prompt(s, a)
    ensures !Clashes(s, a) && FlagMeansOpen(Next(s, a).inviter)
    ensures Clean(s, a) <==> AppliedFirst(s, a)
  {
    if a == Deliver(Inviter) {
      PromptAtInviter(s, ph);
    } else if a == Finished(Inviter) {
      PromptFinished(s, ph);
    } else if a == Needed(Inviter) {
      BeginSound(s.inviter, Inviter, s.joiner.id);
    }
  }

  lemma {:induction false} PromptFrom(s: System, ph: Phase, acts: seq<Action>)
    requires Matches(s, ph) && FlagMeansOpen(s.inviter) && Possible(s, acts) && PromptRun(s, acts)
    ensures ClashFree(s, acts) && (CleanRun(s, acts) <==> AppliedFirstRun(s, acts))
    decreases acts
  {
    if acts != [] {
      PromptStep(s, ph, acts[0]);
      var ph' := Step(s, ph, acts[0]);
      PromptFrom(Next(s, acts[0]), ph', acts[1..]);
    }
  }

  /**
   * When publishes resolve before their answers arrive no run has a clash, and a run
   * is clean exactly when no offer arrives at the inviter while an answer before it is
   * still being applied, which no transport sees to.
   */
  lemma PromptIsClean(s: System, acts: seq<Action>)
    requires Initial(s) && Possible(s, acts) && PromptRun(s, acts)
    ensures ClashFree(s, acts) && (CleanRun(s, acts) <==> AppliedFirstRun(s, acts))
  {
    InitialMatches(s);
    PromptFrom(s, Idle, acts);
  }

  // ----- what holds after every run without a clash

  ghost predicate PrefixRelated(a: seq<Exchange>, b: seq<Exchange>) {
    (a <= b && |b| <= |a| + 1) || (b <= a && |a| <= |b| + 1)
  }

  /** Nothing is on its way, and no handler is waiting for its connection. */
  predicate NothingUnderWay(s: System) {
    s.toJoiner == [] && s.toInviter == [] && !Busy(s.inviter) && !Busy(s.joiner)
  }

  /** The joiner waits for an answer although nothing is under way. */
  predicate JoinerStranded(s: System) {
    NothingUnderWay(s) && WaitingAt(s.joiner)
  }

  /** Nothing is under way and the peers agree. */
  predicate AtRest(s: System) {
    && NothingUnderWay(s) && StableAt(s.inviter) && StableAt(s.joiner)
    && s.inviter.pc.value.history == s.joiner.pc.value.history
    && s.inviter.ignored == s.joiner.pc.value.rolledBack
  }

  /**
   * The inviter's ignored offers and the joiner's rolled-back offers are the same
   * list, except that the last may still be outstanding on one side: ignored, and
   * still pending at the joiner; or rolled back, and still to be ignored.
   */
  ghost predicate IgnoredAreRolledBack(s: System)
    requires s.inviter.pc.Some? && s.joiner.pc.Some?
  {
    var ignored, rolled := s.inviter.ignored, s.joiner.pc.value.rolledBack;
    || ignored == rolled
    || (WaitingAt(s.joiner) && ignored == rolled + [s.joiner.pc.value.signaling.mine])
    || exists o :: OfferSignal(s.joiner.id, o) in s.toInviter && rolled == ignored + [o]
  }

  ghost predicate Guarantees(s: System) {
    && s.inviter.pc.Some? && s.joiner.pc.Some?
    && var i, j := s.inviter.pc.value, s.joiner.pc.value;
       && Matched(i.history) && Matched(j.history) && s.inviter.errors == 0 && s.joiner.errors == 0
       && PrefixRelated(i.history, j.history)
       && i.rolledBack == [] && s.joiner.ignored == []
       && IgnoredAreRolledBack(s)
       && Accounted(s.inviter) && Accounted(s.joiner)
       && (NothingUnderWay(s) ==> AtRest(s) || JoinerStranded(s))
  }

  lemma HeadOf(done: seq<Signal>, channel: seq<Signal>)
    requires done + channel != []
    ensures if done == [] then channel != [] && (done + channel)[0] == channel[0] else (done + channel)[0] == done[0]
  {
  }

  lemma StaleAhead(l: Look, ph: Phase, i: PeerId, j: PeerId)
    requires Fits(l, ph, i, j) && (ph.JoinerYielding? || ph.JoinerYielded? || ph.JoinerYieldedAndOffered?)
    ensures l.toInviter != [] && l.toInviter[0] == OfferSignal(j, ph.stale) && l.i.HaveLocalOffer?
  {
  }

  lemma FirstNotGiven(p: Peer, other: PeerId, channel: seq<Signal>, o: Offer)
    requires SoundInviter(p, other) && WaitingAt(p)
    requires Ahead(p, other, channel) != [] && Ahead(p, other, channel)[0] == OfferSignal(other, o)
    ensures OfferSignal(other, o) in channel
  {
    OnlyAnswers(p, other);
    HeadOf(Undone(p.pc.value.chain, other, p.id), channel);
  }

  /** A stale offer has not been handed over: it is ignored as soon as it is. */
  lemma StaleInChannel(s: System, ph: Phase)
    requires Matches(s, ph) && (ph.JoinerYielding? || ph.JoinerYielded? || ph.JoinerYieldedAndOffered?)
    ensures OfferSignal(s.joiner.id, ph.stale) in s.toInviter
  {
    StaleAhead(LookOf(s), ph, s.inviter.id, s.joiner.id);
    FirstNotGiven(s.inviter, s.joiner.id, s.toInviter, ph.stale);
  }

  lemma PhaseIgnored(s: System, ph: Phase)
    requires Matches(s, ph)
    ensures IgnoredAreRolledBack(s)
  {
    if ph.JoinerYielding? || ph.JoinerYielded? || ph.JoinerYieldedAndOffered? {
      StaleInChannel(s, ph);
    }
  }

  lemma PhaseSettled(s: System, ph: Phase)
    requires Matches(s, ph) && NothingUnderWay(s)
    ensures if Lost(s, ph) then JoinerStranded(s) else AtRest(s)
  {
    assert Chain(s.inviter) == [] && Chain(s.joiner) == [];
  }

  lemma PhaseGuarantees(s: System, ph: Phase)
    requires Matches(s, ph)
    ensures Guarantees(s)
  {
    PhaseIgnored(s, ph);
    if NothingUnderWay(s) {
      PhaseSettled(s, ph);
    }
  }

  lemma {:induction false} PhaseAfter(s: System, ph: Phase, acts: seq<Action>) returns (ph': Phase)
    requires Matches(s, ph) && Possible(s, acts) && ClashFree(s, acts)
    ensures Matches(Final(s, acts), ph')
    ensures !Lost(s, ph) && CleanRun(s, acts) ==> !Lost(Final(s, acts), ph')
    decreases acts
  {
    if acts == [] {
      ph' := ph;
    } else {
      ph' := Step(s, ph, acts[0]);
      ph' := PhaseAfter(Next(s, acts[0]), ph', acts[1..]);
    }
  }

  /**
   * After every run without a clash, clean or not: every answer was applied to the
   * offer it answers and none came unexpectedly, the two histories are prefixes of one
   * another and at most one exchange apart, the inviter never rolled an offer back,
   * the offers it ignored are those the joiner rolls back, and each peer's offers are
   * completed, rolled back or the one pending. Once nothing is under way both peers
   * are stable and have completed the same exchanges, unless the joiner is stranded,
   * which it never is after a clean run.
   */
  lemma RunGuarantees(s: System, acts: seq<Action>)
    requires Initial(s) && Possible(s, acts) && ClashFree(s, acts)
    ensures Guarantees(Final(s, acts))
    ensures CleanRun(s, acts) ==> !JoinerStranded(Final(s, acts))
  {
    InitialMatches(s);
    var ph := PhaseAfter(s, Idle, acts);
    PhaseGuarantees(Final(s, acts), ph);
    if NothingUnderWay(Final(s, acts)) {
      PhaseSettled(Final(s, acts), ph);
    }
  }

  // ----- a run comes to rest

  function Weight(q: seq<Signal>): nat {
    if q == [] then 0 else (if q[0].OfferSignal? then 2 else 1) + Weight(q[1..])
  }

  function Work(ops: seq<Operation>): nat {
    if ops == [] then 0
    else (if ops[0].LocalOffer? then 2 else if ops[0].RemoteAnswer? then 0 else 1) + Work(ops[1..])
  }

  /** What is under way, weighed by the messages that can still come of it. */
  function Load(s: System): nat {
    Weight(s.toJoiner) + Weight(s.toInviter) + Work(Chain(s.inviter)) + Work(Chain(s.joiner))
  }

  lemma {:induction false} WeightConcat(q: seq<Signal>, r: seq<Signal>)
    ensures Weight(q + r) == Weight(q) + Weight(r)
  {
    if q == [] {
      assert q + r == r;
    } else {
      assert (q + r)[1..] == q[1..] + r;
      WeightConcat(q[1..], r);
    }
  }

  lemma {:induction false} WorkConcat(q: seq<Operation>, r: seq<Operation>)
    ensures Work(q + r) == Work(q) + Work(r)
  {
    if q == [] {
      assert q + r == r;
    } else {
      assert (q + r)[1..] == q[1..] + r;
      WorkConcat(q[1..], r);
    }
  }

  lemma OneOf(m: Signal, op: Operation)
    ensures Weight([]) == 0 && Weight([m]) == (if m.OfferSignal? then 2 else 1)
    ensures Work([]) == 0 && Work([op]) == (if op.LocalOffer? then 2 else if op.RemoteAnswer? then 0 else 1)
  {
    assert [m][1..] == [] && [op][1..] == [];
  }

  ghost predicate NoBye(s: System) {
    (forall m :: m in s.toJoiner ==> !m.ByeSignal?) && (forall m :: m in s.toInviter ==> !m.ByeSignal?)
  }

  /** What a message makes a peer do weighs less than the message. */
  lemma HandleLightens(p: Peer, m: Signal)
    requires !m.ByeSignal?
    ensures Handle(p, m).published == [] && Work(Chain(Handle(p, m).peer)) < Work(Chain(p)) + Weight([m])
  {
    var op := if m.OfferSignal? then RemoteOffer(m.offer) else if m.AnswerSignal? then RemoteAnswer(m.answer) else LocalOffer;
    OneOf(m, op);
    WorkConcat(Chain(p), [op]);
  }

  /** What a finished operation leaves behind weighs no more than the operation. */
  lemma FinishLightens(p: Peer)
    requires Busy(p)
    ensures Work(Chain(Finish(p).peer)) + Weight(Finish(p).published) <= Work(Chain(p))
    ensures forall m :: m in Finish(p).published ==> !m.ByeSignal?
  {
    var out := Finish(p).published;
    OneOf(if out == [] then ByeSignal(p.id) else out[0], LocalAnswer);
    WorkConcat(p.pc.value.chain[1..], [LocalAnswer]);
    assert |out| <= 1 && (out != [] ==> out == [out[0]]);
  }

  lemma BeginWeighs(p: Peer)
    requires p.pc.Some?
    ensures Work(Chain(BeginOffer(p))) == Work(Chain(p)) + 2
  {
    OneOf(ByeSignal(p.id), LocalOffer);
    WorkConcat(p.pc.value.chain, [LocalOffer]);
  }

  lemma DeliverLightens(s: System, to: Role)
    requires NoBye(s) && Enabled(s, Deliver(to))
    ensures Load(Next(s, Deliver(to))) < Load(s) && NoBye(Next(s, Deliver(to)))
  {
    var q := s.Arriving(to);
    assert q[0] in q && q == [q[0]] + q[1..];
    HandleLightens(s.At(to), q[0]);
    WeightConcat([q[0]], q[1..]);
    AppendNothing(s.toJoiner);
    AppendNothing(s.toInviter);
  }

  lemma FinishedLightens(s: System, who: Role)
    requires NoBye(s) && Enabled(s, Finished(who))
    ensures Load(Next(s, Finished(who))) <= Load(s) && NoBye(Next(s, Finished(who)))
  {
    FinishLightens(s.At(who));
    WeightConcat(s.toJoiner, Finish(s.At(who)).published);
    WeightConcat(s.toInviter, Finish(s.At(who)).published);
  }

  lemma StepLightens(s: System, a: Action)
    requires NoBye(s) && Enabled(s, a)
    ensures NoBye(Next(s, a))
    ensures a.Deliver? ==> Load(Next(s, a)) < Load(s)
    ensures a.Needed? ==> Load(Next(s, a)) == Load(s) + 2
    ensures a.Finished? || a.Published? ==> Load(Next(s, a)) <= Load(s)
  {
    match a
    case Needed(who) =>
      BeginWeighs(s.At(who));
      AppendNothing(s.toJoiner);
      AppendNothing(s.toInviter);
    case Finished(who) => FinishedLightens(s, who);
    case Published(_) =>
      AppendNothing(s.toJoiner);
      AppendNothing(s.toInviter);
    case Deliver(to) => DeliverLightens(s, to);
  }

  function Deliveries(acts: seq<Action>): nat {
    if acts == [] then 0 else (if acts[0].Deliver? then 1 else 0) + Deliveries(acts[1..])
  }

  function Needs(acts: seq<Action>): nat {
    if acts == [] then 0 else (if acts[0].Needed? then 1 else 0) + Needs(acts[1..])
  }

  lemma {:induction false} DeliveriesBounded(s: System, acts: seq<Action>)
    requires NoBye(s) && Possible(s, acts)
    ensures Deliveries(acts) + Load(Final(s, acts)) <= Load(s) + 2 * Needs(acts)
    decreases acts
  {
    if acts != [] {
      StepLightens(s, acts[0]);
      DeliveriesBounded(Next(s, acts[0]), acts[1..]);
    }
  }

  /**
   * Two peers cannot go on answering each other: in every run, whatever goes wrong in
   * it, at most two messages arrive for each negotiation that was needed.
   */
  lemma TrafficEnds(s: System, acts: seq<Action>)
    requires Initial(s) && Possible(s, acts)
    ensures Deliveries(acts) <= 2 * Needs(acts)
  {
    DeliveriesBounded(s, acts);
  }

  /** No further negotiation is needed. */
  predicate NoneNeeded(acts: seq<Action>) {
    Needs(acts) == 0
  }

  /** How many operations are still to be finished. */
  function Stages(ops: seq<Operation>): nat {
    if ops == [] then 0 else (if ops[0].RemoteOffer? then 2 else 1) + Stages(ops[1..])
  }

  lemma {:induction false} StagesSnoc(ops: seq<Operation>, op: Operation)
    ensures Stages(ops + [op]) == Stages(ops) + if op.RemoteOffer? then 2 else 1
  {
    if ops == [] {
      assert [] + [op] == [op] && [op][1..] == [];
    } else {
      assert (ops + [op])[1..] == ops[1..] + [op];
      StagesSnoc(ops[1..], op);
    }
  }

  lemma FinishAdvances(p: Peer)
    requires Busy(p)
    ensures Stages(Chain(Finish(p).peer)) < Stages(Chain(p))
  {
    StagesSnoc(p.pc.value.chain[1..], LocalAnswer);
  }

  lemma PhaseNoBye(s: System, ph: Phase)
    requires Matches(s, ph)
    ensures NoBye(s)
  {
    LookNoBye(LookOf(s), ph, s.inviter.id, s.joiner.id);
    assert forall m :: m in s.toJoiner ==> m in AheadOfJoiner(s);
    assert forall m :: m in s.toInviter ==> m in AheadOfInviter(s);
  }

  lemma LookNoBye(l: Look, ph: Phase, i: PeerId, j: PeerId)
    requires Fits(l, ph, i, j)
    ensures forall m :: m in l.toJoiner || m in l.toInviter ==> !m.ByeSignal?
  {
  }

  /** What to wait for: operations first, then the joiner's messages, the publish, and the inviter's messages. */
  function Settling(s: System): Action
    requires !NothingUnderWay(s)
  {
    if Busy(s.inviter) then Finished(Inviter)
    else if Busy(s.joiner) then Finished(Joiner)
    else if s.toJoiner != [] then Deliver(Joiner)
    else if s.inviter.publishing > 0 then Published(Inviter)
    else Deliver(Inviter)
  }

  lemma SettlingIsClean(s: System, ph: Phase)
    requires Matches(s, ph) && !NothingUnderWay(s)
    ensures Enabled(s, Settling(s)) && Clean(s, Settling(s))
  {
  }

  lemma SettlingAdvances(s: System, a: Action)
    requires NoBye(s) && Enabled(s, a) && !a.Needed? && (a.Published? ==> a.who == Inviter)
    ensures
      var s' := Next(s, a);
      || Load(s') < Load(s)
      || (Load(s') == Load(s) && Stages(Chain(s'.inviter)) + Stages(Chain(s'.joiner)) < Stages(Chain(s.inviter)) + Stages(Chain(s.joiner)))
      || (Load(s') == Load(s) && Stages(Chain(s'.inviter)) + Stages(Chain(s'.joiner)) == Stages(Chain(s.inviter)) + Stages(Chain(s.joiner))
          && s'.inviter.publishing < s.inviter.publishing)
  {
    StepLightens(s, a);
    if a.Finished? {
      FinishAdvances(s.At(a.who));
    }
    if a.Published? {
      AppendNothing(s.toJoiner);
    }
  }

  lemma {:induction false} SettlesFrom(s: System, ph: Phase) returns (acts: seq<Action>)
    requires Matches(s, ph) && !Lost(s, ph)
    ensures NoneNeeded(acts) && Possible(s, acts) && AtRest(Final(s, acts))
    decreases Load(s), Stages(Chain(s.inviter)) + Stages(Chain(s.joiner)), s.inviter.publishing
  {
    if NothingUnderWay(s) {
      acts := [];
      PhaseSettled(s, ph);
    } else {
      var a := Settling(s);
      SettlingIsClean(s, ph);
      var ph' := Step(s, ph, a);
      PhaseNoBye(s, ph);
      SettlingAdvances(s, a);
      var rest := SettlesFrom(Next(s, a), ph');
      acts := [a] + rest;
      assert acts[1..] == rest;
    }
  }

  /** The peers can come to rest with no further negotiation. */
  ghost predicate CanSettle(s: System) {
    exists acts :: NoneNeeded(acts) && Possible(s, acts) && AtRest(Final(s, acts))
  }

  /** A peer that has no message ahead and is not making or answering an offer has nothing to do. */
  lemma NothingToDo(p: Peer, role: Role, other: PeerId, channel: seq<Signal>)
    requires Sound(p, role, other) && Ahead(p, other, channel) == []
    requires LocalOffer !in Chain(p) && !p.pc.value.signaling.HaveRemoteOffer?
    ensures p.pc.value.chain == [] && channel == []
  {
    UndoneLength(p.pc.value.chain, other, p.id);
  }

  lemma LostLook(l: Look, ph: Phase, i: PeerId, j: PeerId)
    requires Fits(l, ph, i, j) && (ph.Overtaken? || ph.Unheard?)
    ensures l.toJoiner == [] && l.j.HaveLocalOffer?
    ensures ph.Unheard? ==> l.toInviter == [] && l.i.Stable?
  {
  }

  lemma LostIdle(s: System, ph: Phase)
    requires Matches(s, ph) && Lost(s, ph)
    ensures !Busy(s.joiner) && s.toJoiner == [] && s.toInviter == []
    ensures ph.Unheard? ==> !Busy(s.inviter)
  {
    LostLook(LookOf(s), ph, s.inviter.id, s.joiner.id);
    NothingToDo(s.joiner, Joiner, s.inviter.id, s.toJoiner);
    if ph.Unheard? {
      NothingToDo(s.inviter, Inviter, s.joiner.id, s.toInviter);
    }
  }

  /** What can happen to a lost offer: the answer before it is applied, or a publish resolves. */
  lemma LostOptions(s: System, ph: Phase, a: Action)
    requires Matches(s, ph) && Lost(s, ph) && Enabled(s, a) && !a.Needed?
    ensures a.Published? || (a == Finished(Inviter) && ph.Overtaken?)
  {
    LostIdle(s, ph);
  }

  lemma LostFinished(s: System, ph: Phase) returns (ph': Phase)
    requires Matches(s, ph) && ph.Overtaken? && Enabled(s, Finished(Inviter))
    ensures Matches(Next(s, Finished(Inviter)), ph') && Lost(Next(s, Finished(Inviter)), ph')
  {
    var ops := s.inviter.pc.value.chain;
    OnlyAnswers(s.inviter, s.joiner.id);
    assert ops[0] in ops;
    FirstOf(ops, s.joiner.id, s.inviter.id);
    var s';
    s', ph' := InviterApplies(s, ph, ops[0].answer);
    AfterAnswers(s.inviter);
  }

  lemma LostPublished(s: System, ph: Phase, who: Role)
    requires Matches(s, ph) && Lost(s, ph) && Enabled(s, Published(who))
    ensures Matches(Next(s, Published(who)), ph) && Lost(Next(s, Published(who)), ph)
  {
    StepPublished(s, ph, who);
  }

  lemma LostStep(s: System, ph: Phase, a: Action) returns (ph': Phase)
    requires Matches(s, ph) && Lost(s, ph) && Enabled(s, a) && !a.Needed?
    ensures Matches(Next(s, a), ph') && Lost(Next(s, a), ph')
  {
    LostOptions(s, ph, a);
    if a.Published? {
      ph' := ph;
      LostPublished(s, ph, a.who);
    } else {
      ph' := LostFinished(s, ph);
    }
  }

  lemma AfterAnswers(p: Peer)
    requires Busy(p) && forall op :: op in p.pc.value.chain ==> op.RemoteAnswer?
    ensures LocalOffer !in Chain(Finish(p).peer)
  {
    assert forall op :: op in p.pc.value.chain[1..] ==> op in p.pc.value.chain;
    assert p.pc.value.chain[0] in p.pc.value.chain;
  }

  lemma {:induction false} LostStays(s: System, ph: Phase, acts: seq<Action>)
    requires Matches(s, ph) && Lost(s, ph) && NoneNeeded(acts) && Possible(s, acts)
    ensures !AtRest(Final(s, acts))
    decreases acts
  {
    if acts != [] {
      var ph' := LostStep(s, ph, acts[0]);
      LostStays(Next(s, acts[0]), ph', acts[1..]);
    }
  }

  /**
   * From every state that is reached without a clash, the peers can come to rest and
   * agree with no further negotiation if and only if both are progressing there.
   */
  lemma ConvergesExactly(s: System, acts: seq<Action>)
    requires Initial(s) && Possible(s, acts) && ClashFree(s, acts)
    ensures CanSettle(Final(s, acts)) <==> Progressing(Final(s, acts))
  {
    InitialMatches(s);
    var ph := PhaseAfter(s, Idle, acts);
    var end := Final(s, acts);
    PhaseProgresses(end, ph);
    if Lost(end, ph) {
      forall more | NoneNeeded(more) && Possible(end, more) ensures !AtRest(Final(end, more)) {
        LostStays(end, ph, more);
      }
    } else {
      var more := SettlesFrom(end, ph);
    }
  }

  /** The inviter's next negotiation rescues a stranded joiner. */
  lemma NextOfferRescues(s: System, acts: seq<Action>)
    requires Initial(s) && Possible(s, acts) && ClashFree(s, acts) && JoinerStranded(Final(s, acts))
    ensures Enabled(Final(s, acts), Needed(Inviter)) && CanSettle(Next(Final(s, acts), Needed(Inviter)))
  {
    InitialMatches(s);
    var ph := PhaseAfter(s, Idle, acts);
    var end := Final(s, acts);
    PhaseSettled(end, ph);
    InviterNeeded(end, ph);
    var more := SettlesFrom(Next(end, Needed(Inviter)), ph);
  }
}
