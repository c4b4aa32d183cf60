/**
 * Runs of the two-peer negotiation that go wrong, step by step: an answer that
 * arrives before its publish has resolved, an answer and an offer that arrive
 * together, and a publish that resolves while the next offer is being made.
 */
module NegotiationMishaps {
  import opened Common
  import opened Ids
  import opened NegotiationSteps
  import opened NegotiationRuns

  lemma {:induction false} Append(s: System, acts: seq<Action>, a: Action)
    requires Possible(s, acts) && Enabled(Final(s, acts), a)
    ensures Possible(s, acts + [a]) && Final(s, acts + [a]) == Next(Final(s, acts), a)
    ensures PromptRun(s, acts + [a]) <==> PromptRun(s, acts) && Prompt(Final(s, acts), a)
    decreases acts
  {
    if acts == [] {
      assert acts + [a] == [a] && [a][1..] == [];
    } else {
      assert (acts + [a])[0] == acts[0] && (acts + [a])[1..] == acts[1..] + [a];
      Append(Next(s, acts[0]), acts[1..], a);
    }
  }

  /** The run so far leads to `before`, and one more action to `after`. */
  lemma Then(s: System, acts: seq<Action>, before: System, a: Action, after: System) returns (acts': seq<Action>)
    requires Possible(s, acts) && Final(s, acts) == before && Enabled(before, a) && Next(before, a) == after
    ensures acts' == acts + [a] && Possible(s, acts') && Final(s, acts') == after
    ensures PromptRun(s, acts) && Prompt(before, a) ==> PromptRun(s, acts')
  {
    Append(s, acts, a);
    acts' := acts + [a];
  }

  function With(p: Peer, remote: Option<PeerId>, flag: bool, publishing: nat, pc: Connection): Peer {
    p.(remote := remote, makingOffer := flag, publishing := publishing, pc := Some(pc))
  }

  function Offer0(): Offer {
    Offer(Inviter, 0)
  }

  function First(): Exchange {
    Exchange(Offer0(), Offer0())
  }

  /** The inviter has offered; its publish may have resolved. */
  function AfterOffer(s: System, resolved: bool): System {
    System(With(s.inviter, s.inviter.remote, !resolved, if resolved then 0 else 1, Connection(HaveLocalOffer(Offer0()), [], 1, [], [])),
           s.joiner, [OfferSignal(s.inviter.id, Offer0())], [])
  }

  lemma OffersFirst(s: System, resolved: bool) returns (acts: seq<Action>)
    requires Initial(s)
    ensures acts == [Needed(Inviter), Finished(Inviter)] + if resolved then [Published(Inviter)] else []
    ensures Possible(s, acts) && PromptRun(s, acts) && Final(s, acts) == AfterOffer(s, resolved)
  {
    var s1 := s.(inviter := With(s.inviter, s.inviter.remote, true, 0, Connection(Stable, [LocalOffer], 0, [], [])));
    assert [] + [LocalOffer] == [LocalOffer] && [LocalOffer][1..] == [];
    acts := Then(s, [], s, Needed(Inviter), s1);
    acts := Then(s, acts, s1, Finished(Inviter), AfterOffer(s, false));
    if resolved {
      acts := Then(s, acts, AfterOffer(s, false), Published(Inviter), AfterOffer(s, true));
    }
  }

  /** The joiner has answered that offer. */
  function AfterAnswer(s: System, resolved: bool): System {
    AfterOffer(s, resolved).(joiner := With(s.joiner, Some(s.inviter.id), false, 0, Connection(Stable, [], 0, [First()], [])),
                             toJoiner := [], toInviter := [Answer(s.joiner.id, s.inviter.id, Offer0())])
  }

  /** The joiner's peer on the way to its first answer. */
  function Accepting(s: System, pc: Connection): Peer {
    With(s.joiner, Some(s.inviter.id), false, 0, pc)
  }

  function OfferGiven(s: System, resolved: bool): System {
    AfterOffer(s, resolved).(joiner := Accepting(s, Connection(Stable, [RemoteOffer(Offer0())], 0, [], [])), toJoiner := [])
  }

  function OfferApplied(s: System, resolved: bool): System {
    OfferGiven(s, resolved).(joiner := Accepting(s, Connection(HaveRemoteOffer(Offer0()), [LocalAnswer], 0, [], [])))
  }

  lemma GivesFirstOffer(s: System, resolved: bool)
    requires Initial(s)
    ensures Enabled(AfterOffer(s, resolved), Deliver(Joiner))
    ensures Next(AfterOffer(s, resolved), Deliver(Joiner)) == OfferGiven(s, resolved)
  {
    var op := RemoteOffer(Offer0());
    assert [] + [op] == [op] && AfterOffer(s, resolved).toJoiner[1..] == [];
  }

  lemma AppliesFirstOffer(s: System, resolved: bool)
    requires Initial(s)
    ensures Enabled(OfferGiven(s, resolved), Finished(Joiner))
    ensures Next(OfferGiven(s, resolved), Finished(Joiner)) == OfferApplied(s, resolved)
  {
    assert OfferGiven(s, resolved).joiner.pc.value.chain[1..] == [] && [] + [LocalAnswer] == [LocalAnswer];
  }

  lemma AnswersFirstOffer(s: System, resolved: bool)
    requires Initial(s)
    ensures Enabled(OfferApplied(s, resolved), Finished(Joiner))
    ensures Next(OfferApplied(s, resolved), Finished(Joiner)) == AfterAnswer(s, resolved)
  {
    var out := Answer(s.joiner.id, s.inviter.id, Offer0());
    assert [LocalAnswer][1..] == [] && [] + [First()] == [First()] && [] + [out] == [out];
  }

  lemma JoinerAnswersFirst(s: System, acts: seq<Action>, resolved: bool) returns (acts': seq<Action>)
    requires Initial(s) && Possible(s, acts) && PromptRun(s, acts) && Final(s, acts) == AfterOffer(s, resolved)
    ensures acts' == acts + [Deliver(Joiner)] + [Finished(Joiner)] + [Finished(Joiner)]
    ensures Possible(s, acts') && PromptRun(s, acts') && Final(s, acts') == AfterAnswer(s, resolved)
  {
    GivesFirstOffer(s, resolved);
    acts' := Then(s, acts, AfterOffer(s, resolved), Deliver(Joiner), OfferGiven(s, resolved));
    AppliesFirstOffer(s, resolved);
    acts' := Then(s, acts', OfferGiven(s, resolved), Finished(Joiner), OfferApplied(s, resolved));
    AnswersFirstOffer(s, resolved);
    acts' := Then(s, acts', OfferApplied(s, resolved), Finished(Joiner), AfterAnswer(s, resolved));
  }

  function Offer1(): Offer {
    Offer(Joiner, 0)
  }

  /** The joiner's peer while it waits for an answer to its own offer. */
  function JoinerWaits(s: System): Peer {
    With(s.joiner, Some(s.inviter.id), true, 1, Connection(HaveLocalOffer(Offer1()), [], 1, [First()], []))
  }

  lemma JoinerOffersNext(s: System, acts: seq<Action>, s0: System) returns (acts': seq<Action>)
    requires Initial(s) && Possible(s, acts) && Final(s, acts) == s0
    requires s0.joiner == With(s.joiner, Some(s.inviter.id), false, 0, Connection(Stable, [], 0, [First()], []))
    ensures acts' == acts + [Needed(Joiner)] + [Finished(Joiner)]
    ensures Possible(s, acts') && (PromptRun(s, acts) ==> PromptRun(s, acts'))
    ensures Final(s, acts') == s0.(joiner := JoinerWaits(s), toInviter := s0.toInviter + [OfferSignal(s.joiner.id, Offer1())])
  {
    var s1 := s0.(joiner := With(s.joiner, Some(s.inviter.id), true, 0, Connection(Stable, [LocalOffer], 0, [First()], [])));
    assert [] + [LocalOffer] == [LocalOffer] && [LocalOffer][1..] == [];
    AppendNothing(s0.toInviter);
    acts' := Then(s, acts, s0, Needed(Joiner), s1);
    acts' := Then(s, acts', s1, Finished(Joiner), s0.(joiner := JoinerWaits(s), toInviter := s0.toInviter + [OfferSignal(s.joiner.id, Offer1())]));
  }

  /** The inviter's peer once the answer has been applied. */
  function InviterApplied(s: System, flag: bool, publishing: nat): Peer {
    With(s.inviter, Some(s.joiner.id), flag, publishing, Connection(Stable, [], 1, [First()], []))
  }

  /** What is left when the inviter has ignored the joiner's offer: nothing but a joiner that waits. */
  ghost predicate Forgotten(s: System, end: System) {
    && JoinerStranded(end) && StableAt(end.inviter)
    && end.inviter.ignored == [Offer1()] && end.joiner == JoinerWaits(s)
  }

  lemma AnswerIsApplied(s: System, acts: seq<Action>, s0: System, flag: bool, publishing: nat)
    returns (acts': seq<Action>)
    requires Initial(s) && Possible(s, acts) && Final(s, acts) == s0
    requires s0.inviter == With(s.inviter, s.inviter.remote, flag, publishing, Connection(HaveLocalOffer(Offer0()), [], 1, [], []))
    requires s0.toInviter == [Answer(s.joiner.id, s.inviter.id, Offer0())]
    ensures acts' == acts + [Deliver(Inviter)] + [Finished(Inviter)]
    ensures Possible(s, acts') && Final(s, acts') == s0.(inviter := InviterApplied(s, flag, publishing), toInviter := [])
  {
    var op := RemoteAnswer(AnswerSdp(Offer0()));
    var s1 := s0.(inviter := With(s.inviter, Some(s.joiner.id), flag, publishing, Connection(HaveLocalOffer(Offer0()), [op], 1, [], [])),
                  toInviter := []);
    assert [] + [op] == [op] && [op][1..] == [] && [] + [First()] == [First()];
    AppendNothing(s0.toJoiner);
    acts' := Then(s, acts, s0, Deliver(Inviter), s1);
    acts' := Then(s, acts', s1, Finished(Inviter), s0.(inviter := InviterApplied(s, flag, publishing), toInviter := []));
  }

  /**
   * The answer to the inviter's offer arrives before its publish has resolved, is
   * applied, and then the joiner's next offer arrives: the flag is still up, nothing
   * is under way any more, and the joiner waits for an answer that nobody will send.
   */
  lemma EarlyAnswerStrands(s: System) returns (acts: seq<Action>)
    requires Initial(s)
    ensures acts == [Needed(Inviter), Finished(Inviter)] + [Deliver(Joiner)] + [Finished(Joiner)] + [Finished(Joiner)]
                    + [Deliver(Inviter)] + [Finished(Inviter)] + [Needed(Joiner)] + [Finished(Joiner)] + [Deliver(Inviter)]
    ensures Possible(s, acts) && Forgotten(s, Final(s, acts))
  {
    acts := OffersFirst(s, false);
    acts := JoinerAnswersFirst(s, acts, false);
    acts := AnswerIsApplied(s, acts, AfterAnswer(s, false), true, 1);
    var s0 := AfterAnswer(s, false).(inviter := InviterApplied(s, true, 1), toInviter := []);
    acts := JoinerOffersNext(s, acts, s0);
    FlagIsUp(s, Final(s, acts));
    acts := Then(s, acts, Final(s, acts), Deliver(Inviter), OfferForgotten(s));
  }

  function OfferForgotten(s: System): System {
    System(InviterApplied(s, true, 1).(ignoreOffer := true, ignored := [Offer1()]), JoinerWaits(s), [], [])
  }

  lemma FlagIsUp(s: System, s0: System)
    requires Initial(s)
    requires s0 == System(InviterApplied(s, true, 1), JoinerWaits(s), [], [] + [OfferSignal(s.joiner.id, Offer1())])
    ensures Enabled(s0, Deliver(Inviter)) && Next(s0, Deliver(Inviter)) == OfferForgotten(s)
  {
    assert s0.toInviter[1..] == [] && [] + [Offer1()] == [Offer1()];
  }

  /**
   * The joiner answers and negotiates again before the inviter looks, as when both
   * messages travel in one bundle or one reply. Although the publish was prompt, the
   * inviter decides about the offer while the answer is still being applied, and
   * ignores it.
   */
  lemma AnswerAndOfferTogetherStrand(s: System) returns (acts: seq<Action>)
    requires Initial(s)
    ensures acts == [Needed(Inviter), Finished(Inviter)] + [Published(Inviter)] + [Deliver(Joiner)] + [Finished(Joiner)] + [Finished(Joiner)]
                    + [Needed(Joiner)] + [Finished(Joiner)] + [Deliver(Inviter)] + [Deliver(Inviter)] + [Finished(Inviter)]
    ensures Possible(s, acts) && PromptRun(s, acts) && Forgotten(s, Final(s, acts))
  {
    acts := OffersFirst(s, true);
    acts := JoinerAnswersFirst(s, acts, true);
    var s0 := AfterAnswer(s, true);
    acts := JoinerOffersNext(s, acts, s0);
    acts := TakesBoth(s, acts);
  }

  /** The inviter has been given the answer. */
  function AnswerGiven(s: System): System {
    var op := RemoteAnswer(AnswerSdp(Offer0()));
    System(With(s.inviter, Some(s.joiner.id), false, 0, Connection(HaveLocalOffer(Offer0()), [op], 1, [], [])),
           JoinerWaits(s), [], [OfferSignal(s.joiner.id, Offer1())])
  }

  /** Then the offer too. */
  function BothGiven(s: System): System {
    AnswerGiven(s).(inviter := AnswerGiven(s).inviter.(ignoreOffer := true, ignored := [Offer1()]), toInviter := [])
  }

  function BothDone(s: System): System {
    BothGiven(s).(inviter := BothGiven(s).inviter.(pc := Some(Connection(Stable, [], 1, [First()], []))))
  }

  lemma GivesAnswer(s: System, s0: System)
    requires Initial(s)
    requires s0 == System(AfterOffer(s, true).inviter, JoinerWaits(s), [],
                          [Answer(s.joiner.id, s.inviter.id, Offer0())] + [OfferSignal(s.joiner.id, Offer1())])
    ensures Enabled(s0, Deliver(Inviter)) && Prompt(s0, Deliver(Inviter)) && Next(s0, Deliver(Inviter)) == AnswerGiven(s)
  {
    var op := RemoteAnswer(AnswerSdp(Offer0()));
    assert [] + [op] == [op] && s0.toInviter[1..] == AnswerGiven(s).toInviter;
  }

  lemma GivesOffer(s: System)
    requires Initial(s)
    ensures Enabled(AnswerGiven(s), Deliver(Inviter)) && Prompt(AnswerGiven(s), Deliver(Inviter))
    ensures Next(AnswerGiven(s), Deliver(Inviter)) == BothGiven(s)
  {
    assert AnswerGiven(s).toInviter[1..] == [] && [] + [Offer1()] == [Offer1()];
  }

  lemma AppliesLate(s: System)
    requires Initial(s)
    ensures Enabled(BothGiven(s), Finished(Inviter)) && Next(BothGiven(s), Finished(Inviter)) == BothDone(s)
  {
    assert BothGiven(s).inviter.pc.value.chain[1..] == [] && [] + [First()] == [First()];
  }

  lemma TakesBoth(s: System, acts: seq<Action>) returns (acts': seq<Action>)
    requires Initial(s) && Possible(s, acts) && PromptRun(s, acts)
    requires
      var s0 := AfterAnswer(s, true);
      Final(s, acts) == s0.(joiner := JoinerWaits(s), toInviter := s0.toInviter + [OfferSignal(s.joiner.id, Offer1())])
    ensures acts' == acts + [Deliver(Inviter)] + [Deliver(Inviter)] + [Finished(Inviter)]
    ensures Possible(s, acts') && PromptRun(s, acts') && Forgotten(s, Final(s, acts'))
  {
    GivesAnswer(s, Final(s, acts));
    acts' := Then(s, acts, Final(s, acts), Deliver(Inviter), AnswerGiven(s));
    GivesOffer(s);
    acts' := Then(s, acts', AnswerGiven(s), Deliver(Inviter), BothGiven(s));
    AppliesLate(s);
    acts' := Then(s, acts', BothGiven(s), Finished(Inviter), BothDone(s));
  }

  // ----- a clash

  function Offer2(): Offer {
    Offer(Inviter, 1)
  }

  /** The inviter's peer while its second offer is being made. */
  function MakingSecond(s: System, flag: bool, publishing: nat): Peer {
    With(s.inviter, Some(s.joiner.id), flag, publishing, Connection(Stable, [LocalOffer], 1, [First()], []))
  }

  lemma FlagComesDown(s: System, acts: seq<Action>, s0: System) returns (acts': seq<Action>)
    requires Initial(s) && Possible(s, acts) && Final(s, acts) == s0 && s0.inviter == InviterApplied(s, true, 1)
    ensures acts' == acts + [Needed(Inviter)] + [Published(Inviter)]
    ensures Possible(s, acts') && Final(s, acts') == s0.(inviter := MakingSecond(s, false, 0))
  {
    assert [] + [LocalOffer] == [LocalOffer];
    AppendNothing(s0.toJoiner);
    acts' := Then(s, acts, s0, Needed(Inviter), s0.(inviter := MakingSecond(s, true, 1)));
    acts' := Then(s, acts', s0.(inviter := MakingSecond(s, true, 1)), Published(Inviter), s0.(inviter := MakingSecond(s, false, 0)));
  }

  function Second(o: Offer): Exchange {
    Exchange(o, o)
  }

  /** The inviter has made its second offer, rolled it back and answered the joiner's. */
  function InviterTurned(s: System): System {
    System(With(s.inviter, Some(s.joiner.id), false, 1, Connection(Stable, [], 2, [First(), Second(Offer1())], [Offer2()])),
           JoinerWaits(s), [OfferSignal(s.inviter.id, Offer2()), Answer(s.inviter.id, s.joiner.id, Offer1())], [])
  }

  /** The inviter has accepted the joiner's offer behind its own. */
  function Clashed(s: System): System {
    System(With(s.inviter, Some(s.joiner.id), false, 0, Connection(Stable, [LocalOffer, RemoteOffer(Offer1())], 1, [First()], [])),
           JoinerWaits(s), [], [])
  }

  lemma InviterClashes(s: System, acts: seq<Action>) returns (acts': seq<Action>)
    requires Initial(s) && Possible(s, acts)
    requires Final(s, acts) == System(MakingSecond(s, false, 0), JoinerWaits(s), [], [OfferSignal(s.joiner.id, Offer1())])
    ensures acts' == acts + [Deliver(Inviter)]
    ensures Possible(s, acts') && Final(s, acts') == Clashed(s)
  {
    var m, op := OfferSignal(s.joiner.id, Offer1()), RemoteOffer(Offer1());
    assert [m][1..] == [] && [LocalOffer] + [op] == [LocalOffer, op];
    acts' := Then(s, acts, System(MakingSecond(s, false, 0), JoinerWaits(s), [], [m]), Deliver(Inviter), Clashed(s));
  }

  lemma Delivers(s: System, m: Signal, rest: seq<Signal>, p: Peer)
    requires s.toJoiner == [m] + rest && Handle(s.joiner, m) == Reaction(p, [])
    ensures Enabled(s, Deliver(Joiner)) && Next(s, Deliver(Joiner)) == s.(joiner := p, toJoiner := rest)
  {
    assert s.toJoiner[1..] == rest;
    AppendNothing(s.toInviter);
  }

  /** The inviter's offer has gone out although the joiner's has been accepted. */
  function SentAnyway(s: System): System {
    Clashed(s).(inviter := With(s.inviter, Some(s.joiner.id), false, 1,
                                Connection(HaveLocalOffer(Offer2()), [RemoteOffer(Offer1())], 2, [First()], [])),
                toJoiner := [OfferSignal(s.inviter.id, Offer2())])
  }

  /** It is rolled back. */
  function TakenBack(s: System): System {
    SentAnyway(s).(inviter := With(s.inviter, Some(s.joiner.id), false, 1,
                                   Connection(HaveRemoteOffer(Offer1()), [LocalAnswer], 2, [First()], [Offer2()])))
  }

  lemma SendsAnyway(s: System)
    requires Initial(s)
    ensures Enabled(Clashed(s), Finished(Inviter)) && Next(Clashed(s), Finished(Inviter)) == SentAnyway(s)
  {
    var op, out := RemoteOffer(Offer1()), OfferSignal(s.inviter.id, Offer2());
    assert [LocalOffer, op][1..] == [op] && [] + [out] == [out];
  }

  lemma TakesBack(s: System)
    requires Initial(s)
    ensures Enabled(SentAnyway(s), Finished(Inviter)) && Next(SentAnyway(s), Finished(Inviter)) == TakenBack(s)
  {
    var op := RemoteOffer(Offer1());
    assert [op][1..] == [] && [] + [LocalAnswer] == [LocalAnswer] && [] + [Offer2()] == [Offer2()];
    AppendNothing(SentAnyway(s).toJoiner);
  }

  lemma AnswersInstead(s: System)
    requires Initial(s)
    ensures Enabled(TakenBack(s), Finished(Inviter)) && Next(TakenBack(s), Finished(Inviter)) == InviterTurned(s)
  {
    var out1, out2 := OfferSignal(s.inviter.id, Offer2()), Answer(s.inviter.id, s.joiner.id, Offer1());
    assert [LocalAnswer][1..] == [] && [out1] + [out2] == [out1, out2];
    assert [First()] + [Second(Offer1())] == [First(), Second(Offer1())];
  }

  lemma InviterTurns(s: System, acts: seq<Action>) returns (acts': seq<Action>)
    requires Initial(s) && Possible(s, acts) && Final(s, acts) == Clashed(s)
    ensures acts' == acts + [Finished(Inviter)] + [Finished(Inviter)] + [Finished(Inviter)]
    ensures Possible(s, acts') && Final(s, acts') == InviterTurned(s)
  {
    SendsAnyway(s);
    TakesBack(s);
    AnswersInstead(s);
    acts' := Then(s, acts, Clashed(s), Finished(Inviter), SentAnyway(s));
    acts' := Then(s, acts', SentAnyway(s), Finished(Inviter), TakenBack(s));
    acts' := Then(s, acts', TakenBack(s), Finished(Inviter), InviterTurned(s));
  }

  /** The joiner's peer on its way to giving up its own offer. */
  function JoinerAt(s: System, errors: nat, pc: Connection): Peer {
    With(s.joiner, Some(s.inviter.id), true, 1, pc).(errors := errors)
  }

  /** The joiner has rolled its offer back for the one that the inviter gave up, and has answered that. */
  function JoinerTurned(s: System): System {
    InviterTurned(s).(joiner := JoinerAt(s, 1, Connection(Stable, [], 1, [First(), Second(Offer2())], [Offer1()])),
                      toJoiner := [], toInviter := [Answer(s.joiner.id, s.inviter.id, Offer2())])
  }

  /** The joiner has been given the offer, and then the answer too. */
  function OneTaken(s: System): System {
    InviterTurned(s).(joiner := JoinerAt(s, 0, Connection(HaveLocalOffer(Offer1()), [RemoteOffer(Offer2())], 1, [First()], [])),
                      toJoiner := [Answer(s.inviter.id, s.joiner.id, Offer1())])
  }

  function BothTaken(s: System): System {
    OneTaken(s).(joiner := JoinerAt(s, 0, Connection(HaveLocalOffer(Offer1()), [RemoteOffer(Offer2()), RemoteAnswer(AnswerSdp(Offer1()))],
                                                     1, [First()], [])),
                 toJoiner := [])
  }

  /** The offer has been applied, and then the answer has been refused. */
  function JoinerYielded(s: System): System {
    BothTaken(s).(joiner := JoinerAt(s, 0, Connection(HaveRemoteOffer(Offer2()), [RemoteAnswer(AnswerSdp(Offer1())), LocalAnswer],
                                                      1, [First()], [Offer1()])))
  }

  function AnswerRefused(s: System): System {
    BothTaken(s).(joiner := JoinerAt(s, 1, Connection(HaveRemoteOffer(Offer2()), [LocalAnswer], 1, [First()], [Offer1()])))
  }

  lemma TakesOffer(s: System)
    requires Initial(s)
    ensures Enabled(InviterTurned(s), Deliver(Joiner)) && Next(InviterTurned(s), Deliver(Joiner)) == OneTaken(s)
  {
    var m, rest, op := OfferSignal(s.inviter.id, Offer2()), OneTaken(s).toJoiner, RemoteOffer(Offer2());
    assert [] + [op] == [op];
    assert InviterTurned(s).toJoiner == [m] + rest;
    Delivers(InviterTurned(s), m, rest, OneTaken(s).joiner);
  }

  lemma TakesAnswer(s: System)
    requires Initial(s)
    ensures Enabled(OneTaken(s), Deliver(Joiner)) && Next(OneTaken(s), Deliver(Joiner)) == BothTaken(s)
  {
    var m, op, op' := Answer(s.inviter.id, s.joiner.id, Offer1()), RemoteOffer(Offer2()), RemoteAnswer(AnswerSdp(Offer1()));
    assert [op] + [op'] == [op, op'];
    assert OneTaken(s).toJoiner == [m] + [];
    Delivers(OneTaken(s), m, [], BothTaken(s).joiner);
  }

  lemma YieldsLate(s: System)
    requires Initial(s)
    ensures Enabled(BothTaken(s), Finished(Joiner)) && Next(BothTaken(s), Finished(Joiner)) == JoinerYielded(s)
  {
    var op, op' := RemoteOffer(Offer2()), RemoteAnswer(AnswerSdp(Offer1()));
    assert [op, op'][1..] == [op'] && [op'] + [LocalAnswer] == [op', LocalAnswer] && [] + [Offer1()] == [Offer1()];
    AppendNothing(BothTaken(s).toInviter);
  }

  lemma RefusesAnswer(s: System)
    requires Initial(s)
    ensures Enabled(JoinerYielded(s), Finished(Joiner)) && Next(JoinerYielded(s), Finished(Joiner)) == AnswerRefused(s)
  {
    var op' := RemoteAnswer(AnswerSdp(Offer1()));
    assert [op', LocalAnswer][1..] == [LocalAnswer];
    AppendNothing(JoinerYielded(s).toInviter);
  }

  lemma AnswersTheWrongOne(s: System)
    requires Initial(s)
    ensures Enabled(AnswerRefused(s), Finished(Joiner)) && Next(AnswerRefused(s), Finished(Joiner)) == JoinerTurned(s)
  {
    var out := Answer(s.joiner.id, s.inviter.id, Offer2());
    assert [LocalAnswer][1..] == [] && [] + [out] == [out];
    assert [First()] + [Second(Offer2())] == [First(), Second(Offer2())];
  }

  lemma JoinerTurns(s: System, acts: seq<Action>) returns (acts': seq<Action>)
    requires Initial(s) && Possible(s, acts) && Final(s, acts) == InviterTurned(s)
    ensures acts' == acts + [Deliver(Joiner)] + [Deliver(Joiner)] + [Finished(Joiner)] + [Finished(Joiner)] + [Finished(Joiner)]
    ensures Possible(s, acts') && Final(s, acts') == JoinerTurned(s)
  {
    TakesOffer(s);
    acts' := Then(s, acts, InviterTurned(s), Deliver(Joiner), OneTaken(s));
    TakesAnswer(s);
    acts' := Then(s, acts', OneTaken(s), Deliver(Joiner), BothTaken(s));
    YieldsLate(s);
    acts' := Then(s, acts', BothTaken(s), Finished(Joiner), JoinerYielded(s));
    RefusesAnswer(s);
    acts' := Then(s, acts', JoinerYielded(s), Finished(Joiner), AnswerRefused(s));
    AnswersTheWrongOne(s);
    acts' := Then(s, acts', AnswerRefused(s), Finished(Joiner), JoinerTurned(s));
  }

  /** Both peers are stable and nothing is under way, but they have agreed on different offers. */
  ghost predicate Diverged(s: System) {
    && NothingUnderWay(s) && StableAt(s.inviter) && StableAt(s.joiner)
    && s.inviter.errors > 0 && s.joiner.errors > 0
    && !PrefixRelated(s.inviter.pc.value.history, s.joiner.pc.value.history)
  }

  function LastAnswerGiven(s: System): System {
    var p := JoinerTurned(s).inviter;
    JoinerTurned(s).(inviter := p.(pc := Some(p.pc.value.(chain := [RemoteAnswer(AnswerSdp(Offer2()))]))), toInviter := [])
  }

  function LastAnswerRefused(s: System): System {
    JoinerTurned(s).(inviter := JoinerTurned(s).inviter.(errors := 1), toInviter := [])
  }

  lemma GivesLastAnswer(s: System)
    requires Initial(s)
    ensures Enabled(JoinerTurned(s), Deliver(Inviter)) && Next(JoinerTurned(s), Deliver(Inviter)) == LastAnswerGiven(s)
  {
    var op := RemoteAnswer(AnswerSdp(Offer2()));
    assert [] + [op] == [op] && JoinerTurned(s).toInviter[1..] == [];
  }

  lemma RefusesLastAnswer(s: System)
    requires Initial(s)
    ensures Enabled(LastAnswerGiven(s), Finished(Inviter)) && Next(LastAnswerGiven(s), Finished(Inviter)) == LastAnswerRefused(s)
    ensures Diverged(LastAnswerRefused(s))
  {
    assert LastAnswerGiven(s).inviter.pc.value.chain[1..] == [];
    var s' := LastAnswerRefused(s);
    assert s'.inviter.pc.value.history[1] != s'.joiner.pc.value.history[1];
  }

  lemma LastAnswerFails(s: System, acts: seq<Action>) returns (acts': seq<Action>)
    requires Initial(s) && Possible(s, acts) && Final(s, acts) == JoinerTurned(s)
    ensures acts' == acts + [Deliver(Inviter)] + [Finished(Inviter)]
    ensures Possible(s, acts') && Diverged(Final(s, acts'))
  {
    GivesLastAnswer(s);
    acts' := Then(s, acts, JoinerTurned(s), Deliver(Inviter), LastAnswerGiven(s));
    RefusesLastAnswer(s);
    acts' := Then(s, acts', LastAnswerGiven(s), Finished(Inviter), LastAnswerRefused(s));
  }

  /**
   * The publish of one offer resolves while the next offer is being made and takes
   * the flag down with it. The inviter accepts the joiner's offer that arrives then,
   * rolls its own back although it has been sent, and the two end up stable on
   * different exchanges.
   */
  lemma LateResolveDiverges(s: System) returns (acts: seq<Action>)
    requires Initial(s)
    ensures Possible(s, acts) && Diverged(Final(s, acts))
  {
    acts := OffersFirst(s, false);
    acts := JoinerAnswersFirst(s, acts, false);
    acts := AnswerIsApplied(s, acts, AfterAnswer(s, false), true, 1);
    var s0 := AfterAnswer(s, false).(inviter := InviterApplied(s, true, 1), toInviter := []);
    acts := FlagComesDown(s, acts, s0);
    acts := JoinerOffersNext(s, acts, s0.(inviter := MakingSecond(s, false, 0)));
    var m := OfferSignal(s.joiner.id, Offer1());
    assert [] + [m] == [m];
    acts := InviterClashes(s, acts);
    acts := InviterTurns(s, acts);
    acts := JoinerTurns(s, acts);
    acts := LastAnswerFails(s, acts);
  }
}
