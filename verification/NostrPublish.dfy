/**
 * Publishing one event to several relays: a loop that reaches the relays one after
 * the other, answers and send failures that are counted while it runs and after
 * it, and a timer. Every order in which these can happen is a run.
 */
module NostrPublish {
  import opened Common

  datatype Reason = Nacked(message: Option<string>) | AckTimeout | NoReachableRelay

  /** The inner promise, which `publish` awaits at its end. */
  datatype Ack = AckPending | Resolved | Rejected(reason: Reason)

  /** What the caller of `publish` gets. */
  datatype Result = Running | Published | Failed(reason: Reason)

  /**
   * The variables of one call. The last five are records: how often the promise was
   * settled, which relays were reached, which were sent the event, whether a
   * positive answer was taken, and whose negative answers were counted.
   */
  datatype Call = Call(relays: nat, next: nat, relayCount: nat, loopFinalized: bool, thrown: bool,
                       settled: bool, nacked: nat, lastNack: Option<string>, registered: bool, timerSet: bool, ack: Ack,
                       settlements: nat, reached: set<nat>, asked: set<nat>, confirmed: bool, nackers: seq<nat>) {
    function Result(): Result {
      if thrown then Failed(NoReachableRelay)
      else if !loopFinalized then Running
      else
        match ack
        case AckPending => Running
        case Resolved => Published
        case Rejected(reason) => Failed(reason)
    }
  }

  function Begin(relays: nat): Call {
    Call(relays, 0, 0, false, false, false, 0, None, true, true, AckPending, 0, {}, {}, false, [])
  }

  function Settle(c: Call, ack: Ack): Call {
    c.(settled := true, registered := false, timerSet := false, ack := ack, settlements := c.settlements + 1)
  }

  function TryReject(c: Call): Call {
    if c.settled || !c.loopFinalized || c.nacked < c.relayCount then c
    else Settle(c, Rejected(Nacked(c.lastNack)))
  }

  /** The acknowledgement callback, when it is still registered. */
  function Finish(c: Call, relay: nat, ok: bool, message: Option<string>): Call {
    if !c.registered || c.settled then c
    else if ok then Settle(c.(confirmed := true), Resolved)
    else
      TryReject(c.(nacked := c.nacked + 1, nackers := c.nackers + [relay],
                   lastNack := if message.Some? then message else c.lastNack))
  }

  datatype Action =
    | Skip
    | Reach(sent: bool)
    | EndLoop
    | Answer(relay: nat, ok: bool, message: Option<string>)
    | Timeout

  predicate Looping(c: Call) {
    !c.loopFinalized && !c.thrown
  }

  /** Only relays that were sent the event answer, as often as they like; a timer fires once unless it is cleared. */
  predicate Enabled(c: Call, a: Action) {
    match a
    case Skip => Looping(c) && c.next < c.relays
    case Reach(_) => Looping(c) && c.next < c.relays
    case EndLoop => Looping(c) && c.next == c.relays
    case Answer(relay, _, _) => relay in c.asked
    case Timeout => c.timerSet
  }

  /** The timer is given up without settling the promise. */
  function Cancel(c: Call): Call {
    if c.settled then c else c.(settled := true, timerSet := false)
  }

  function Next(c: Call, a: Action): Call
    requires Enabled(c, a)
  {
    match a
    case Skip => c.(next := c.next + 1)
    case Reach(sent) =>
      var c' := c.(next := c.next + 1, relayCount := c.relayCount + 1, reached := c.reached + {c.next});
      if sent then c'.(asked := c.asked + {c.next}) else Finish(c', c.next, false, Some("send failed"))
    case EndLoop =>
      if c.relayCount == 0 then Cancel(c).(registered := false, thrown := true)
      else TryReject(c.(loopFinalized := true))
    case Answer(relay, ok, message) => Finish(c, relay, ok, message)
    case Timeout => if c.settled then c.(timerSet := false) else Settle(c, Rejected(AckTimeout))
  }

  // ----- the call as it is written

  class PublishCall {
    const relays: nat
    var next: nat
    var relayCount: nat
    var loopFinalized: bool
    var thrown: bool
    var settled: bool
    var nacked: nat
    var lastNackMsg: Option<string>
    /** Whether `pendingAcks` has the entry of this event. */
    var registered: bool
    var timerSet: bool
    var ack: Ack
    ghost var settlements: nat
    ghost var reached: set<nat>
    ghost var asked: set<nat>
    ghost var confirmed: bool
    ghost var nackers: seq<nat>

    ghost function View(): Call
      reads this
    {
      Call(relays, next, relayCount, loopFinalized, thrown, settled, nacked, lastNackMsg, registered, timerSet, ack,
           settlements, reached, asked, confirmed, nackers)
    }

    constructor (relays: nat)
      ensures View() == Begin(relays)
    {
      this.relays, next, relayCount, loopFinalized, thrown := relays, 0, 0, false, false;
      settled, nacked, lastNackMsg, registered, timerSet, ack := false, 0, None, true, true, AckPending;
      settlements, reached, asked, confirmed, nackers := 0, {}, {}, false, [];
    }

    method SettleAck(result: Ack)
      modifies this
      ensures View() == Settle(old(View()), result)
    {
      settled, timerSet, registered, ack := true, false, false, result;
      settlements := settlements + 1;
    }

    method TryRejectAck()
      modifies this
      ensures View() == TryReject(old(View()))
    {
      if settled {
        return;
      }
      if !loopFinalized || nacked < relayCount {
        return;
      }
      SettleAck(Rejected(Nacked(lastNackMsg)));
    }

    method FinishAck(relay: nat, ok: bool, message: Option<string>)
      modifies this
      ensures View() == Finish(old(View()), relay, ok, message)
    {
      if !registered || settled {
        return;
      }
      if ok {
        confirmed := true;
        SettleAck(Resolved);
      } else {
        nacked, nackers := nacked + 1, nackers + [relay];
        if message.Some? {
          lastNackMsg := message;
        }
        TryRejectAck();
      }
    }

    /** One round of the loop over the relays, for a relay that may be reachable and take the event. */
    method TryRelay(reachable: bool, sent: bool)
      requires Looping(View()) && next < relays
      modifies this
      ensures View() == Next(old(View()), if reachable then Reach(sent) else Skip)
    {
      next := next + 1;
      if !reachable {
        return;
      }
      relayCount, reached := relayCount + 1, reached + {next - 1};
      if sent {
        asked := asked + {next - 1};
      } else {
        FinishAck(next - 1, false, Some("send failed"));
      }
    }

    method AfterLoop()
      requires Looping(View()) && next == relays
      modifies this
      ensures View() == Next(old(View()), EndLoop)
    {
      if relayCount == 0 {
        CancelAckTimeout();
        registered := false;
        thrown := true;
      } else {
        loopFinalized := true;
        TryRejectAck();
      }
    }

    method CancelAckTimeout()
      modifies this
      ensures View() == Cancel(old(View()))
    {
      if settled {
        return;
      }
      settled, timerSet := true, false;
    }

    method OnTimeout()
      requires timerSet
      modifies this
      ensures View() == Next(old(View()), Timeout)
    {
      timerSet := false;
      if settled {
        return;
      }
      SettleAck(Rejected(AckTimeout));
    }

    method OnOk(relay: nat, ok: bool, message: Option<string>)
      requires relay in asked
      modifies this
      ensures View() == Next(old(View()), Answer(relay, ok, message))
    {
      FinishAck(relay, ok, message);
    }
  }

  // ----- the invariant

  ghost predicate Counted(c: Call) {
    && c.next <= c.relays && c.relayCount == |c.reached| && c.nacked == |c.nackers|
    && (forall r :: r in c.reached ==> r < c.next)
    && c.asked <= c.reached
    && (forall r :: r in c.nackers ==> r in c.reached)
    && (c.loopFinalized || c.thrown ==> c.next == c.relays)
    && (c.loopFinalized ==> c.relayCount > 0)
  }

  /** What the promise's state says about how it got there. */
  ghost predicate Settled(c: Call) {
    && c.settlements == (if c.ack.AckPending? then 0 else 1)
    && (c.settled <==> !c.ack.AckPending? || c.thrown)
    && (c.registered <==> !c.settled) && (c.timerSet <==> !c.settled)
    && (c.ack.Resolved? <==> c.confirmed)
    && match c.ack
       case AckPending => c.loopFinalized ==> c.nacked < c.relayCount
       case Resolved => true
       case Rejected(Nacked(_)) => c.loopFinalized && c.relayCount <= c.nacked
       case Rejected(AckTimeout) => true
       case Rejected(NoReachableRelay) => false
  }

  ghost predicate Inv(c: Call) {
    Counted(c) && Settled(c) && !(c.thrown && (c.loopFinalized || c.relayCount > 0))
  }

  lemma FinishKeeps(c: Call, relay: nat, ok: bool, message: Option<string>)
    requires Inv(c) && relay in c.reached
    ensures Inv(Finish(c, relay, ok, message))
  {
  }

  lemma ReachKeeps(c: Call, sent: bool)
    requires Inv(c) && Enabled(c, Reach(sent))
    ensures Inv(Next(c, Reach(sent)))
  {
    assert c.next !in c.reached;
    var c' := c.(next := c.next + 1, relayCount := c.relayCount + 1, reached := c.reached + {c.next});
    assert Inv(c');
    if !sent {
      FinishKeeps(c', c.next, false, Some("send failed"));
    }
  }

  lemma StepKeeps(c: Call, a: Action)
    requires Inv(c) && Enabled(c, a)
    ensures Inv(Next(c, a))
  {
    match a
    case Reach(sent) => ReachKeeps(c, sent);
    case Answer(relay, ok, message) => FinishKeeps(c, relay, ok, message);
    case _ =>
  }

  // ----- runs

  predicate Possible(c: Call, acts: seq<Action>)
    decreases acts
  {
    acts == [] || (Enabled(c, acts[0]) && Possible(Next(c, acts[0]), acts[1..]))
  }

  function Final(c: Call, acts: seq<Action>): Call
    requires Possible(c, acts)
    decreases acts
  {
    if acts == [] then c else Final(Next(c, acts[0]), acts[1..])
  }

  lemma {:induction false} InvAfter(c: Call, acts: seq<Action>)
    requires Inv(c) && Possible(c, acts)
    ensures Inv(Final(c, acts)) && Final(c, acts).relays == c.relays
    decreases acts
  {
    if acts != [] {
      StepKeeps(c, acts[0]);
      InvAfter(Next(c, acts[0]), acts[1..]);
    }
  }

  /**
   * Whatever the order of sends, answers, failures and the timeout: the promise is
   * settled at most once, publishing succeeds only on a positive answer, is rejected
   * as nacked only after every relay was tried, leaves no entry behind, and while it
   * still waits the timer is armed and some reached relay has not been counted.
   */
  lemma PublishSafe(relays: nat, acts: seq<Action>)
    requires Possible(Begin(relays), acts)
    ensures
      var c := Final(Begin(relays), acts);
      && c.settlements <= 1
      && (c.Result().Published? ==> c.confirmed)
      && (c.Result().Failed? && c.Result().reason.Nacked? ==>
            c.next == relays && 0 < |c.reached| <= |c.nackers| && !c.confirmed)
      && (!c.Result().Running? ==> !c.registered && !c.timerSet)
      && (c.Result().Running? && c.loopFinalized ==> c.registered && c.timerSet && |c.nackers| < |c.reached|)
  {
    InvAfter(Begin(relays), acts);
  }

  // ----- relays that answer once

  /** No relay answers twice. */
  predicate AnsweredOnce(acts: seq<Action>) {
    forall i, j :: 0 <= i < j < |acts| ==> !SameRelay(acts[i], acts[j])
  }

  predicate SameRelay(a: Action, b: Action) {
    a.Answer? && b.Answer? && a.relay == b.relay
  }

  /** The counted relays are distinct, and none of them can answer any more. */
  ghost predicate CountedOnce(c: Call, acts: seq<Action>) {
    && NoDuplicates(c.nackers)
    && forall i :: 0 <= i < |acts| && acts[i].Answer? && acts[i].relay in c.asked ==> acts[i].relay !in c.nackers
  }

  lemma FinishCountsOnce(c: Call, relay: nat, ok: bool, message: Option<string>, acts: seq<Action>)
    requires Inv(c) && relay in c.reached && CountedOnce(c, acts) && relay !in c.nackers
    requires forall i :: 0 <= i < |acts| && acts[i].Answer? && acts[i].relay in c.asked ==> acts[i].relay != relay
    ensures CountedOnce(Finish(c, relay, ok, message), acts)
  {
  }

  lemma ReachCountsOnce(c: Call, sent: bool, acts: seq<Action>)
    requires Inv(c) && Enabled(c, Reach(sent)) && CountedOnce(c, acts)
    ensures CountedOnce(Next(c, Reach(sent)), acts)
  {
    assert c.next !in c.reached;
    var c' := c.(next := c.next + 1, relayCount := c.relayCount + 1, reached := c.reached + {c.next});
    if !sent {
      assert CountedOnce(c', acts);
      FinishCountsOnce(c', c.next, false, Some("send failed"), acts);
    }
  }

  lemma AnswerCountsOnce(c: Call, acts: seq<Action>)
    requires Inv(c) && acts != [] && acts[0].Answer? && Enabled(c, acts[0]) && AnsweredOnce(acts) && CountedOnce(c, acts)
    ensures CountedOnce(Next(c, acts[0]), acts[1..])
  {
    var a, rest := acts[0], acts[1..];
    forall i | 0 <= i < |rest| && rest[i].Answer? ensures rest[i].relay != a.relay {
      assert !SameRelay(acts[0], acts[i + 1]);
    }
    assert CountedOnce(c, rest) by {
      assert forall i :: 0 <= i < |rest| ==> rest[i] == acts[i + 1];
    }
    FinishCountsOnce(c, a.relay, a.ok, a.message, rest);
  }

  lemma CountedOnceStep(c: Call, acts: seq<Action>)
    requires Inv(c) && acts != [] && Enabled(c, acts[0]) && AnsweredOnce(acts) && CountedOnce(c, acts)
    ensures AnsweredOnce(acts[1..]) && CountedOnce(Next(c, acts[0]), acts[1..])
  {
    var rest := acts[1..];
    forall i, j | 0 <= i < j < |rest| ensures !SameRelay(rest[i], rest[j]) {
      assert !SameRelay(acts[i + 1], acts[j + 1]);
    }
    if acts[0].Answer? {
      AnswerCountsOnce(c, acts);
    } else {
      assert CountedOnce(c, rest) by {
        assert forall i :: 0 <= i < |rest| ==> rest[i] == acts[i + 1];
      }
      if acts[0].Reach? {
        ReachCountsOnce(c, acts[0].sent, rest);
      }
    }
  }

  lemma {:induction false} CountedOnceAfter(c: Call, acts: seq<Action>)
    requires Inv(c) && Possible(c, acts) && AnsweredOnce(acts) && CountedOnce(c, acts)
    ensures NoDuplicates(Final(c, acts).nackers)
    decreases acts
  {
    if acts != [] {
      CountedOnceStep(c, acts);
      StepKeeps(c, acts[0]);
      CountedOnceAfter(Next(c, acts[0]), acts[1..]);
    }
  }

  function Members(s: seq<nat>): (m: set<nat>)
    ensures forall x :: x in m <==> x in s
  {
    if s == [] then {}
    else
      assert s == s[..|s| - 1] + [s[|s| - 1]];
      Members(s[..|s| - 1]) + {s[|s| - 1]}
  }

  lemma {:induction false} DistinctCount(s: seq<nat>)
    requires NoDuplicates(s)
    ensures |Members(s)| == |s|
  {
    if s != [] {
      var n := |s| - 1;
      DistinctCount(s[..n]);
      assert s[n] !in s[..n];
    }
  }

  lemma SameSizeSubset(a: set<nat>, b: set<nat>)
    requires a <= b && |b| <= |a|
    ensures a == b
  {
    assert b == a + (b - a);
    assert |b| == |a| + |b - a|;
  }

  /**
   * When no relay answers twice the counting is exact: publishing fails as nacked
   * only if every reached relay has nacked, and once every relay was tried and every
   * reached one has nacked it does not go on waiting.
   */
  lemma NackedMeansAll(relays: nat, acts: seq<Action>)
    requires Possible(Begin(relays), acts) && AnsweredOnce(acts)
    ensures
      var c := Final(Begin(relays), acts);
      && (c.Result().Failed? && c.Result().reason.Nacked? ==> forall r :: r in c.reached ==> r in c.nackers)
      && (c.loopFinalized && (forall r :: r in c.reached ==> r in c.nackers) ==> !c.Result().Running?)
  {
    InvAfter(Begin(relays), acts);
    CountedOnceAfter(Begin(relays), acts);
    var c := Final(Begin(relays), acts);
    var nackers := Members(c.nackers);
    DistinctCount(c.nackers);
    if |c.reached| <= |c.nackers| {
      SameSizeSubset(nackers, c.reached);
    } else if forall r :: r in c.reached ==> r in c.nackers {
      assert c.reached == nackers;
    }
  }

  // ----- relays that answer more than once

  /** The loop is through and the call waits for answers. */
  predicate Waiting(c: Call) {
    c.loopFinalized && c.ack.AckPending?
  }

  /** The call has failed as nacked although this reached relay has not nacked. */
  predicate Misled(c: Call, silent: nat) {
    c.Result().Failed? && c.Result().reason.Nacked? && silent in c.reached && silent !in c.nackers
  }

  ghost predicate CanBeMisled(c: Call) {
    exists more, silent :: Possible(c, more) && Misled(Final(c, more), silent)
  }

  /** One relay repeats its negative answer until the call gives up. */
  lemma {:induction false} RepeatedNack(c: Call, r: nat) returns (more: seq<Action>)
    requires Inv(c) && Waiting(c) && r in c.asked
    ensures Possible(c, more) && forall i :: 0 <= i < |more| ==> more[i] == Answer(r, false, None)
    ensures
      var end := Final(c, more);
      && end.Result().Failed? && end.Result().reason.Nacked? && end.reached == c.reached
      && forall x :: x in end.nackers ==> x in c.nackers || x == r
    decreases c.relayCount - c.nacked
  {
    var a := Answer(r, false, None);
    var c' := Next(c, a);
    StepKeeps(c, a);
    var rest := [];
    if Waiting(c') {
      rest := RepeatedNack(c', r);
    }
    more := [a] + rest;
    assert more[1..] == rest;
  }

  /** Negative answers that are counted after the loop come from relays that were sent the event. */
  lemma {:induction false} LaterNackers(c: Call, more: seq<Action>)
    requires Inv(c) && c.loopFinalized && Possible(c, more)
    ensures
      var end := Final(c, more);
      && end.loopFinalized && end.reached == c.reached && end.asked == c.asked && end.relayCount == c.relayCount
      && c.nackers <= end.nackers
      && forall i :: |c.nackers| <= i < |end.nackers| ==> end.nackers[i] in c.asked
    decreases more
  {
    if more != [] {
      StepKeeps(c, more[0]);
      LaterNackers(Next(c, more[0]), more[1..]);
    }
  }

  /** From every reachable state in which the call waits, any one relay that was sent the event can make it fail alone. */
  lemma DuplicateNackOutvotes(relays: nat, acts: seq<Action>, r: nat) returns (more: seq<Action>)
    requires Possible(Begin(relays), acts) && Waiting(Final(Begin(relays), acts)) && r in Final(Begin(relays), acts).asked
    ensures
      var c := Final(Begin(relays), acts);
      && Possible(c, more) && (forall i :: 0 <= i < |more| ==> more[i] == Answer(r, false, None))
      && forall silent :: silent in c.reached && silent !in c.nackers && silent != r ==> Misled(Final(c, more), silent)
  {
    InvAfter(Begin(relays), acts);
    more := RepeatedNack(Final(Begin(relays), acts), r);
  }

  /**
   * Without the restriction to one answer the count is wrong exactly as follows: a
   * waiting call can still fail as nacked before every reached relay has nacked if
   * and only if, beside a reached relay that has not nacked yet, some other relay was
   * sent the event.
   */
  lemma MisledExactly(relays: nat, acts: seq<Action>)
    requires Possible(Begin(relays), acts) && Waiting(Final(Begin(relays), acts))
    ensures
      var c := Final(Begin(relays), acts);
      CanBeMisled(c) <==> exists r, silent :: r in c.asked && silent in c.reached && silent !in c.nackers && silent != r
  {
    InvAfter(Begin(relays), acts);
    var c := Final(Begin(relays), acts);
    if CanBeMisled(c) {
      var more, silent :| Possible(c, more) && Misled(Final(c, more), silent);
      InvAfter(c, more);
      LaterNackers(c, more);
      var r := Final(c, more).nackers[|c.nackers|];
      assert r in c.asked && r in Final(c, more).nackers;
    }
    if r, silent :| r in c.asked && silent in c.reached && silent !in c.nackers && silent != r {
      var more := RepeatedNack(c, r);
      assert Misled(Final(c, more), silent);
    }
  }

  // ----- a promise that nobody awaits

  lemma {:induction false} FinalizedStays(c: Call, acts: seq<Action>)
    requires Possible(c, acts) && c.loopFinalized
    ensures Final(c, acts).loopFinalized
    decreases acts
  {
    if acts != [] {
      FinalizedStays(Next(c, acts[0]), acts[1..]);
    }
  }

  lemma {:induction false} LeakFrom(c: Call, acts: seq<Action>)
    requires Inv(c) && Possible(c, acts) && !Final(c, acts).loopFinalized
    ensures Final(c, acts).ack.Rejected? <==> c.ack.Rejected? || Timeout in acts
    decreases acts
  {
    if acts != [] {
      var a, c' := acts[0], Next(c, acts[0]);
      StepKeeps(c, a);
      if c'.loopFinalized {
        FinalizedStays(c', acts[1..]);
      }
      assert c'.ack.Rejected? <==> c.ack.Rejected? || a == Timeout;
      LeakFrom(c', acts[1..]);
      assert acts == [a] + acts[1..];
    }
  }

  /**
   * The inner promise is awaited only once the loop is through, which waiting for
   * sockets can delay beyond the timeout. While the loop runs, and when the call
   * fails because no relay could be reached, the promise is rejected with nobody
   * awaiting it exactly when the timeout has fired.
   */
  lemma UnawaitedRejectionExactly(relays: nat, acts: seq<Action>)
    requires Possible(Begin(relays), acts) && !Final(Begin(relays), acts).loopFinalized
    ensures Final(Begin(relays), acts).ack.Rejected? <==> Timeout in acts
    ensures Final(Begin(relays), acts).Result() ==
              if Final(Begin(relays), acts).thrown then Failed(NoReachableRelay) else Running
  {
    LeakFrom(Begin(relays), acts);
  }

  // ----- receiving

  /** Events of one room in the order in which relays sent them: each is dispatched at its first arrival. */
  function FirstArrivals(ids: seq<string>): (out: seq<string>)
    ensures NoDuplicates(out)
    ensures forall id :: id in out <==> id in ids
  {
    if ids == [] then []
    else
      var front, last := FirstArrivals(ids[..|ids| - 1]), ids[|ids| - 1];
      assert ids == ids[..|ids| - 1] + [last];
      if last in front then front else front + [last]
  }

  class EventRoom {
    const subId: string
    var delivered: set<string>
    var dispatched: seq<string>
    ghost var arrived: seq<string>

    ghost predicate Valid()
      reads this
    {
      dispatched == FirstArrivals(arrived) && forall id :: id in delivered <==> id in arrived
    }

    constructor (subId: string)
      ensures Valid() && dispatched == [] && this.subId == subId
    {
      this.subId := subId;
      delivered, dispatched, arrived := {}, [], [];
    }

    /** An event of another kind, or for another subscription, is ignored. */
    method HandleEvent(sub: string, rightKind: bool, id: string)
      requires Valid()
      modifies this
      ensures Valid()
      ensures arrived == if rightKind && sub == subId then old(arrived) + [id] else old(arrived)
      ensures dispatched == FirstArrivals(arrived)
    {
      if !rightKind || sub != subId {
        return;
      }
      assert (arrived + [id])[..|arrived|] == arrived;
      arrived := arrived + [id];
      if id in delivered {
        return;
      }
      delivered := delivered + {id};
      dispatched := dispatched + [id];
    }
  }
}
