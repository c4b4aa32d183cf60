/**
 * Negotiation over the bundle carrier: two sessions, each subscribed to one room of
 * an adapter, and bundles that are exported on one side and imported on the other.
 * Whatever can happen there is a run of the two peers over two channels.
 */
module BundledNegotiation {
  import opened Common
  import opened Dispatch
  import opened NegotiationSteps
  import opened NegotiationRuns
  import UrlFragment

  /**
   * What leads to each of the two peers is one carrier, and `handler` is the
   * subscription of its session in the room. The adapter of a peer sends on one
   * carrier and receives on the other; the two ends use different fields of it.
   */
  datatype Line = Line(carrier: UrlFragment.Carrier, handler: HandlerId)

  datatype World = World(room: UrlFragment.RoomId, inviter: Peer, joiner: Peer, toInviter: Line, toJoiner: Line) {
    function At(who: Role): Peer {
      if who == Inviter then inviter else joiner
    }

    function To(who: Role): Line {
      if who == Inviter then toInviter else toJoiner
    }
  }

  function Other(who: Role): Role {
    if who == Inviter then Joiner else Inviter
  }

  function WithLine(w: World, to: Role, line: Line): World {
    if to == Inviter then w.(toInviter := line) else w.(toJoiner := line)
  }

  function WithPeer(w: World, who: Role, p: Peer): World {
    if who == Inviter then w.(inviter := p) else w.(joiner := p)
  }

  function PublishAll(c: UrlFragment.Carrier, room: UrlFragment.RoomId, out: seq<Signal>): UrlFragment.Carrier {
    if out == [] then c
    else UrlFragment.Carry(PublishAll(c, room, out[..|out| - 1]), room, UrlFragment.Publishes(room, out[|out| - 1]))
  }

  /** A peer changes and publishes in the room. */
  function Reacts(w: World, who: Role, r: Reaction): World {
    var line := w.To(Other(who));
    WithLine(WithPeer(w, who, r.peer), Other(who), line.(carrier := PublishAll(line.carrier, w.room, r.published)))
  }

  datatype Move = Acts(a: Action) | Carries(to: Role, x: UrlFragment.CarrierAction)

  /** Messages get into the room and out of it through the sessions and the carriers only. */
  predicate CanMove(w: World, move: Move) {
    match move
    case Acts(a) => !a.Deliver? && Enabled(SystemOf(w), a)
    case Carries(to, x) => !(x.Publishes? && x.room == w.room) && !UrlFragment.Moves(x, w.To(to).handler)
  }

  /** What the handler has been called with in `after` and not in `before`. */
  function NewlySeen(before: UrlFragment.Carrier, after: UrlFragment.Carrier, h: HandlerId): seq<Signal> {
    var was, now := SeenBy(before.receiver.log, h), SeenBy(after.receiver.log, h);
    if |was| <= |now| then now[|was|..] else []
  }

  function MoveOf(w: World, move: Move): World
    requires CanMove(w, move)
  {
    match move
    case Acts(Needed(who)) => Reacts(w, who, Reaction(BeginOffer(w.At(who)), []))
    case Acts(Finished(who)) => Reacts(w, who, Finish(w.At(who)))
    case Acts(Published(who)) => Reacts(w, who, Reaction(EndOffer(w.At(who)), []))
    case Carries(to, x) =>
      var line := w.To(to);
      var c' := UrlFragment.Carry(line.carrier, w.room, x);
      Reacts(WithLine(w, to, line.(carrier := c')), to, HandleAll(w.At(to), NewlySeen(line.carrier, c', line.handler)))
  }

  // ----- the two channels

  /** What was published and has not been handed over. */
  function InLine(c: UrlFragment.Carrier, room: UrlFragment.RoomId): seq<Signal> {
    Flatten(c.onTheWay) + c.sender.Pending(room)
  }

  function SystemOf(w: World): System {
    System(w.inviter, w.joiner, InLine(w.toJoiner.carrier, w.room), InLine(w.toInviter.carrier, w.room))
  }

  ghost predicate Ordered(w: World) {
    && UrlFragment.InOrder(w.toInviter.carrier, w.room, w.toInviter.handler)
    && UrlFragment.InOrder(w.toJoiner.carrier, w.room, w.toJoiner.handler)
  }

  lemma {:induction false} PublishAllInLine(c: UrlFragment.Carrier, room: UrlFragment.RoomId, h: HandlerId, out: seq<Signal>)
    requires UrlFragment.InOrder(c, room, h)
    ensures InLine(PublishAll(c, room, out), room) == InLine(c, room) + out
    ensures UrlFragment.InOrder(PublishAll(c, room, out), room, h)
  {
    if out != [] {
      var front, last := out[..|out| - 1], out[|out| - 1];
      PublishAllInLine(c, room, h, front);
      var c' := PublishAll(c, room, front);
      UrlFragment.PublishKeepsOrder(c', room, h, room, last);
      PublishOneInLine(c', room, last);
      LastAppended(InLine(c, room), out);
    } else {
      assert InLine(c, room) + [] == InLine(c, room);
    }
  }

  lemma LastAppended(channel: seq<Signal>, out: seq<Signal>)
    requires out != []
    ensures channel + out[..|out| - 1] + [out[|out| - 1]] == channel + out
  {
  }

  lemma PublishOneInLine(c: UrlFragment.Carrier, room: UrlFragment.RoomId, m: Signal)
    ensures InLine(UrlFragment.Carry(c, room, UrlFragment.Publishes(room, m)), room) == InLine(c, room) + [m]
  {
    Reassociate(Flatten(c.onTheWay), c.sender.Pending(room), [m]);
  }

  /** What a peer publishes joins the channel to the other. */
  lemma ReactsAsReacted(w: World, who: Role, r: Reaction)
    requires Ordered(w)
    ensures SystemOf(Reacts(w, who, r)) == Reacted(SystemOf(w), who, r) && Ordered(Reacts(w, who, r))
  {
    var line := w.To(Other(who));
    PublishAllInLine(line.carrier, w.room, line.handler, r.published);
  }

  /** An action of a carrier hands over the messages at the front of the channel, or none. */
  lemma CarryInLine(c: UrlFragment.Carrier, room: UrlFragment.RoomId, h: HandlerId, x: UrlFragment.CarrierAction, c': UrlFragment.Carrier)
    requires UrlFragment.InOrder(c, room, h) && !(x.Publishes? && x.room == room) && !UrlFragment.Moves(x, h)
    requires c' == UrlFragment.Carry(c, room, x)
    ensures UrlFragment.InOrder(c', room, h)
    ensures InLine(c, room) == NewlySeen(c, c', h) + InLine(c', room)
    ensures NewlySeen(c, c', h) == if x.Imports? && c.onTheWay != [] then c.onTheWay[0] else []
  {
    UrlFragment.CarryKeepsOrder(c, room, h, x);
    var was, now := SeenBy(c.receiver.log, h), SeenBy(c'.receiver.log, h);
    CarrySeen(c, room, h, x, c');
    assert c'.published == c.published;
    assert was + InLine(c, room) == c.published by {
      Reassociate(was, Flatten(c.onTheWay), c.sender.Pending(room));
    }
    assert now + InLine(c', room) == c.published by {
      Reassociate(now, Flatten(c'.onTheWay), c'.sender.Pending(room));
    }
    var given := NewlySeen(c, c', h);
    assert now == was + given;
    Reassociate(was, given, InLine(c', room));
    assert (was + InLine(c, room))[|was|..] == InLine(c, room);
    assert (was + (given + InLine(c', room)))[|was|..] == given + InLine(c', room);
  }

  lemma CarrySeen(c: UrlFragment.Carrier, room: UrlFragment.RoomId, h: HandlerId, x: UrlFragment.CarrierAction, c': UrlFragment.Carrier)
    requires UrlFragment.InOrder(c, room, h) && c' == UrlFragment.Carry(c, room, x)
    ensures SeenBy(c'.receiver.log, h)
         == SeenBy(c.receiver.log, h) + if x.Imports? && c.onTheWay != [] then c.onTheWay[0] else []
  {
    var was := SeenBy(c.receiver.log, h);
    assert was + [] == was;
    match x
    case Imports =>
      if c.onTheWay != [] {
        UrlFragment.ImportSeen(c.receiver, room, h, c.onTheWay[0]);
      }
    case Elsewhere(b) =>
      if b.room != room {
        UrlFragment.ElsewhereUnseen(c.receiver, room, h, b);
      }
    case _ =>
  }

  // ----- every run over bundles is a run over two channels

  /** Deliveries to one peer, in direct succession. */
  function Succession(to: Role, n: nat): seq<Action> {
    if n == 0 then [] else [Deliver(to)] + Succession(to, n - 1)
  }

  function WithArriving(s: System, to: Role, channel: seq<Signal>): System {
    if to == Inviter then s.(toInviter := channel) else s.(toJoiner := channel)
  }

  lemma ReactedTwice(s: System, to: Role, r: Reaction, r': Reaction)
    ensures Reacted(Reacted(s, to, r), to, r') == Reacted(s, to, Reaction(r'.peer, r.published + r'.published))
  {
    if to == Inviter {
      Reassociate(s.toJoiner, r.published, r'.published);
    } else {
      Reassociate(s.toInviter, r.published, r'.published);
    }
  }

  lemma DeliverFirst(s: System, to: Role, m: Signal, rest: seq<Signal>)
    requires s.Arriving(to) == [m] + rest
    ensures Enabled(s, Deliver(to))
    ensures Next(s, Deliver(to)) == Reacted(WithArriving(s, to, rest), to, Handle(s.At(to), m))
  {
    assert s.Arriving(to)[1..] == rest;
  }

  /** The messages of one bundle are delivered in direct succession. */
  lemma {:induction false} BundleDelivered(s: System, to: Role, messages: seq<Signal>, rest: seq<Signal>)
    requires s.Arriving(to) == messages + rest
    ensures Possible(s, Succession(to, |messages|))
    ensures Final(s, Succession(to, |messages|)) == Reacted(WithArriving(s, to, rest), to, HandleAll(s.At(to), messages))
    decreases messages
  {
    if messages == [] {
      assert [] + rest == rest;
      NothingPublished(s, to);
    } else {
      var m, more := messages[0], messages[1..];
      assert messages + rest == [m] + (more + rest);
      DeliverFirst(s, to, m, more + rest);
      var first := Handle(s.At(to), m);
      var s' := Next(s, Deliver(to));
      BundleDelivered(s', to, more, rest);
      ReactedTwice(WithArriving(s, to, rest), to, first, HandleAll(first.peer, more));
    }
  }

  lemma NothingPublished(s: System, to: Role)
    ensures Reacted(s, to, Reaction(s.At(to), [])) == s
  {
    assert s.toJoiner + [] == s.toJoiner && s.toInviter + [] == s.toInviter;
  }

  /** The steps of the two peers that a move amounts to. */
  function Steps(w: World, move: Move): seq<Action> {
    match move
    case Acts(a) => [a]
    case Carries(to, x) =>
      var onTheWay := w.To(to).carrier.onTheWay;
      if x.Imports? && onTheWay != [] then Succession(to, |onTheWay[0]|) else []
  }

  lemma MoveIsRun(w: World, move: Move, w': World)
    requires Ordered(w) && CanMove(w, move) && w' == MoveOf(w, move)
    ensures Ordered(w')
    ensures Possible(SystemOf(w), Steps(w, move)) && Final(SystemOf(w), Steps(w, move)) == SystemOf(w')
  {
    match move
    case Acts(Needed(who)) => ReactsAsReacted(w, who, Reaction(BeginOffer(w.At(who)), []));
    case Acts(Finished(who)) => ReactsAsReacted(w, who, Finish(w.At(who)));
    case Acts(Published(who)) => ReactsAsReacted(w, who, Reaction(EndOffer(w.At(who)), []));
    case Carries(to, x) => CarryIsRun(w, to, x, w');
  }

  lemma CarryIsRun(w: World, to: Role, x: UrlFragment.CarrierAction, w': World)
    requires Ordered(w) && CanMove(w, Carries(to, x)) && w' == MoveOf(w, Carries(to, x))
    ensures Ordered(w')
    ensures Possible(SystemOf(w), Steps(w, Carries(to, x))) && Final(SystemOf(w), Steps(w, Carries(to, x))) == SystemOf(w')
  {
    var line := w.To(to);
    var c' := UrlFragment.Carry(line.carrier, w.room, x);
    var messages := NewlySeen(line.carrier, c', line.handler);
    CarryInLine(line.carrier, w.room, line.handler, x, c');
    var between := WithLine(w, to, line.(carrier := c'));
    ReactsAsReacted(between, to, HandleAll(w.At(to), messages));
    BundleDelivered(SystemOf(w), to, messages, InLine(c', w.room));
    assert Succession(to, 0) == [];
  }

  predicate CanMoveAll(w: World, moves: seq<Move>)
    decreases moves
  {
    moves == [] || (CanMove(w, moves[0]) && CanMoveAll(MoveOf(w, moves[0]), moves[1..]))
  }

  function MoveAll(w: World, moves: seq<Move>): World
    requires CanMoveAll(w, moves)
    decreases moves
  {
    if moves == [] then w else MoveAll(MoveOf(w, moves[0]), moves[1..])
  }

  function AllSteps(w: World, moves: seq<Move>): seq<Action>
    requires CanMoveAll(w, moves)
    decreases moves
  {
    if moves == [] then [] else Steps(w, moves[0]) + AllSteps(MoveOf(w, moves[0]), moves[1..])
  }

  lemma {:induction false} RunsCompose(s: System, first: seq<Action>, later: seq<Action>)
    requires Possible(s, first) && Possible(Final(s, first), later)
    ensures Possible(s, first + later) && Final(s, first + later) == Final(Final(s, first), later)
    decreases first
  {
    if first == [] {
      assert first + later == later;
    } else {
      RunsCompose(Next(s, first[0]), first[1..], later);
      assert (first + later)[1..] == first[1..] + later;
    }
  }

  /**
   * Every run over bundles, with exports and imports at any moment, other rooms and
   * other subscribers, is a run of the two peers over two first-in-first-out channels.
   */
  lemma {:induction false} ProjectsToRun(w: World, moves: seq<Move>)
    requires Ordered(w) && CanMoveAll(w, moves)
    ensures Possible(SystemOf(w), AllSteps(w, moves)) && Final(SystemOf(w), AllSteps(w, moves)) == SystemOf(MoveAll(w, moves))
    ensures Ordered(MoveAll(w, moves))
    decreases moves
  {
    if moves != [] {
      var w' := MoveOf(w, moves[0]);
      MoveIsRun(w, moves[0], w');
      ProjectsToRun(w', moves[1..]);
      RunsCompose(SystemOf(w), Steps(w, moves[0]), AllSteps(w', moves[1..]));
    }
  }

  /** Two sessions that have just been started, on new adapters. */
  ghost predicate InitialWorld(w: World) {
    var empty := UrlFragment.Adapter(map[], map[], false, []);
    && Initial(System(w.inviter, w.joiner, [], []))
    && forall to :: w.To(to).carrier == UrlFragment.Carrier(empty, UrlFragment.Subscribed(empty, w.room, w.To(to).handler), [], [])
  }

  lemma InitialOrdered(w: World)
    requires InitialWorld(w)
    ensures Ordered(w) && Initial(SystemOf(w))
  {
    UrlFragment.NewCarrier(w.room, w.toInviter.handler);
    UrlFragment.NewCarrier(w.room, w.toJoiner.handler);
    assert w.toInviter.carrier == w.To(Inviter).carrier && w.toJoiner.carrier == w.To(Joiner).carrier;
    assert Flatten<Signal>([]) + [] == [];
  }

  /** What is promised for two channels without a clash is promised for bundles. */
  lemma BundlesGuarantee(w: World, moves: seq<Move>)
    requires InitialWorld(w) && CanMoveAll(w, moves)
    ensures Possible(SystemOf(w), AllSteps(w, moves))
    ensures ClashFree(SystemOf(w), AllSteps(w, moves)) ==>
              && Guarantees(SystemOf(MoveAll(w, moves)))
              && (CleanRun(SystemOf(w), AllSteps(w, moves)) ==> !JoinerStranded(SystemOf(MoveAll(w, moves))))
  {
    InitialOrdered(w);
    ProjectsToRun(w, moves);
    if ClashFree(SystemOf(w), AllSteps(w, moves)) {
      RunGuarantees(SystemOf(w), AllSteps(w, moves));
    }
  }

  // ----- which bundles strand the joiner

  /** An answer has been handed to the peer and is not applied yet. */
  predicate Answered(p: Peer) {
    exists op :: op in Chain(p) && op.RemoteAnswer?
  }

  predicate OfferAfterAnswer(answered: bool, messages: seq<Signal>)
    decreases messages
  {
    messages != [] &&
    ((answered && messages[0].OfferSignal?) || OfferAfterAnswer(answered || messages[0].AnswerSignal?, messages[1..]))
  }

  lemma {:induction false} PromptAfter(s: System, ph: Phase, acts: seq<Action>) returns (ph': Phase)
    requires Matches(s, ph) && FlagMeansOpen(s.inviter) && Possible(s, acts) && PromptRun(s, acts)
    ensures Matches(Final(s, acts), ph') && FlagMeansOpen(Final(s, acts).inviter)
    decreases acts
  {
    ph' := ph;
    if acts != [] {
      PromptStep(s, ph, acts[0]);
      ph' := Step(s, ph, acts[0]);
      ph' := PromptAfter(Next(s, acts[0]), ph', acts[1..]);
    }
  }

  lemma AnsweredNext(s: System, ph: Phase)
    requires Matches(s, ph) && Enabled(s, Deliver(Inviter))
    ensures Answered(Next(s, Deliver(Inviter)).inviter) <==> Answered(s.inviter) || s.toInviter[0].AnswerSignal?
    ensures Next(s, Deliver(Inviter)).inviter.publishing == s.inviter.publishing
  {
    var o := FirstAtInviter(s, ph);
    var ops := Chain(s.inviter);
    if s.toInviter[0].AnswerSignal? {
      AnswerArrives(s.inviter, Inviter, s.joiner.id, AnswerSdp(o));
      var ops' := ops + [RemoteAnswer(AnswerSdp(o))];
      assert ops'[|ops|] in ops';
    } else if Collides(s.inviter, s.inviter.pc.value) {
      OfferIgnored(s.inviter, s.joiner.id, o);
    } else {
      OfferTaken(s.inviter, Inviter, s.joiner.id, o);
    }
  }

  /** The answers among the messages arrive after the publish of what they answer has resolved. */
  predicate PromptAnswers(p: Peer, messages: seq<Signal>) {
    p.publishing > 0 ==> forall m :: m in messages ==> !m.AnswerSignal?
  }

  lemma CleanAtFirst(s: System, ph: Phase, m: Signal)
    requires Matches(s, ph) && FlagMeansOpen(s.inviter) && s.toInviter != [] && s.toInviter[0] == m
    requires m.AnswerSignal? ==> s.inviter.publishing == 0
    ensures Clean(s, Deliver(Inviter)) <==> !(Answered(s.inviter) && m.OfferSignal?)
    ensures !Clashes(s, Deliver(Inviter)) && FlagMeansOpen(Next(s, Deliver(Inviter)).inviter)
  {
    PromptStep(s, ph, Deliver(Inviter));
  }

  lemma TailArrives(s: System, m: Signal, rest: seq<Signal>)
    requires s.toInviter == [m] + rest
    ensures Next(s, Deliver(Inviter)).toInviter == rest
  {
    assert s.toInviter[1..] == rest;
  }

  lemma FirstOfBundle(s: System, ph: Phase, m: Signal, rest: seq<Signal>) returns (s': System, ph': Phase)
    requires Matches(s, ph) && FlagMeansOpen(s.inviter) && s.toInviter == [m] + rest
    requires m.AnswerSignal? ==> s.inviter.publishing == 0
    ensures s' == Next(s, Deliver(Inviter))
    ensures Matches(s', ph') && FlagMeansOpen(s'.inviter) && s'.toInviter == rest
    ensures s'.inviter.publishing == s.inviter.publishing
    ensures Answered(s'.inviter) <==> Answered(s.inviter) || m.AnswerSignal?
  {
    CleanAtFirst(s, ph, m);
    TailArrives(s, m, rest);
    AnsweredNext(s, ph);
    s' := Next(s, Deliver(Inviter));
    ph' := Step(s, ph, Deliver(Inviter));
  }

  lemma HeadAndMore(answered: bool, p: Peer, messages: seq<Signal>, m: Signal, more: seq<Signal>, rest: seq<Signal>)
    requires messages == [m] + more && PromptAnswers(p, messages)
    ensures messages + rest == [m] + (more + rest)
    ensures (m.AnswerSignal? ==> p.publishing == 0) && PromptAnswers(p, more)
    ensures OfferAfterAnswer(answered, messages) <==>
              (answered && m.OfferSignal?) || OfferAfterAnswer(answered || m.AnswerSignal?, more)
    ensures Succession(Inviter, |messages|) == [Deliver(Inviter)] + Succession(Inviter, |more|)
  {
    assert m == messages[0] && m in messages && messages[1..] == more;
    assert forall x :: x in more ==> x in messages;
  }

  lemma FirstAndRest(messages: seq<Signal>) returns (m: Signal, more: seq<Signal>)
    requires messages != []
    ensures messages == [m] + more
  {
    m, more := messages[0], messages[1..];
  }

  lemma EmptyBundle(s: System, answered: bool, messages: seq<Signal>, acts: seq<Action>)
    requires messages == [] && acts == Succession(Inviter, |messages|)
    ensures Possible(s, acts) && CleanRun(s, acts) && !OfferAfterAnswer(answered, messages)
  {
  }

  lemma {:induction false} BundleCleanFrom(s: System, ph: Phase, messages: seq<Signal>, rest: seq<Signal>, answered: bool, acts: seq<Action>)
    requires Matches(s, ph) && FlagMeansOpen(s.inviter) && s.toInviter == messages + rest
    requires PromptAnswers(s.inviter, messages)
    requires answered == Answered(s.inviter) && acts == Succession(Inviter, |messages|)
    ensures Possible(s, acts) && (CleanRun(s, acts) <==> !OfferAfterAnswer(answered, messages))
    decreases messages, 1
  {
    if messages == [] {
      EmptyBundle(s, answered, messages, acts);
    } else {
      var m, more := FirstAndRest(messages);
      BundleCleanMore(s, ph, m, more, messages, rest, answered, acts);
    }
  }

  lemma {:induction false} BundleCleanMore(s: System, ph: Phase, m: Signal, more: seq<Signal>, messages: seq<Signal>, rest: seq<Signal>,
                                           answered: bool, acts: seq<Action>)
    requires Matches(s, ph) && FlagMeansOpen(s.inviter) && s.toInviter == messages + rest
    requires messages == [m] + more && PromptAnswers(s.inviter, messages)
    requires answered == Answered(s.inviter) && acts == Succession(Inviter, |messages|)
    ensures Possible(s, acts) && (CleanRun(s, acts) <==> !OfferAfterAnswer(answered, messages))
    decreases messages, 0
  {
    HeadAndMore(answered, s.inviter, messages, m, more, rest);
    CleanAtFirst(s, ph, m);
    var s', ph' := FirstOfBundle(s, ph, m, more + rest);
    var acts' := Succession(Inviter, |more|);
    BundleCleanFrom(s', ph', more, rest, answered || m.AnswerSignal?, acts');
    RunOfOneMore(s, Deliver(Inviter), s', acts');
  }

  lemma RunOfOneMore(s: System, a: Action, s': System, acts: seq<Action>)
    requires Enabled(s, a) && s' == Next(s, a) && Possible(s', acts)
    ensures Possible(s, [a] + acts) && (CleanRun(s, [a] + acts) <==> Clean(s, a) && CleanRun(s', acts))
  {
    assert ([a] + acts)[1..] == acts;
  }

  /**
   * Which bundles strand the joiner: in a prompt run, importing a bundle at the
   * inviter is clean exactly when no offer in it comes after an answer that is still
   * to be applied, be it in the same bundle or in one before.
   */
  lemma ImportCleanExactly(w: World, moves: seq<Move>, s: System, bundle: seq<Signal>)
    requires InitialWorld(w) && CanMoveAll(w, moves) && s == SystemOf(MoveAll(w, moves))
    requires MoveAll(w, moves).toInviter.carrier.onTheWay != [] && bundle == MoveAll(w, moves).toInviter.carrier.onTheWay[0]
    requires Possible(SystemOf(w), AllSteps(w, moves)) && PromptRun(SystemOf(w), AllSteps(w, moves))
    requires PromptAnswers(s.inviter, bundle)
    ensures Possible(s, Succession(Inviter, |bundle|))
    ensures CleanRun(s, Succession(Inviter, |bundle|)) <==> !OfferAfterAnswer(Answered(s.inviter), bundle)
  {
    InitialOrdered(w);
    ProjectsToRun(w, moves);
    InitialMatches(SystemOf(w));
    var ph := PromptAfter(SystemOf(w), Idle, AllSteps(w, moves));
    var c := MoveAll(w, moves).toInviter.carrier;
    UrlFragment.FlattenHead(c.onTheWay);
    var rest := Flatten(c.onTheWay[1..]) + c.sender.Pending(MoveAll(w, moves).room);
    Reassociate(bundle, Flatten(c.onTheWay[1..]), c.sender.Pending(MoveAll(w, moves).room));
    BundleCleanFrom(s, ph, bundle, rest, Answered(s.inviter), Succession(Inviter, |bundle|));
  }
}
