/**
 * What becomes of a publish call, read off its history alone: which positive
 * answers, negative answers, send failures and timeouts there were and in what
 * order, without the variables of the call.
 */
module NostrHistory {
  import opened Common
  import opened NostrPublish

  function ReachedIn(acts: seq<Action>): nat {
    if acts == [] then 0 else ReachedIn(acts[..|acts| - 1]) + if acts[|acts| - 1].Reach? then 1 else 0
  }

  predicate Negative(a: Action) {
    (a.Answer? && !a.ok) || (a.Reach? && !a.sent)
  }

  predicate Positive(a: Action) {
    a.Answer? && a.ok
  }

  /** The negative answers, a send that failed being one. */
  function NegativesIn(acts: seq<Action>): nat {
    if acts == [] then 0 else NegativesIn(acts[..|acts| - 1]) + if Negative(acts[|acts| - 1]) then 1 else 0
  }

  /** The text of the last negative answer that has one. */
  function LastText(acts: seq<Action>): Option<string> {
    if acts == [] then None
    else
      var last := acts[|acts| - 1];
      if last == Reach(false) then Some("send failed")
      else if last.Answer? && !last.ok && last.message.Some? then last.message
      else LastText(acts[..|acts| - 1])
  }

  /** The loop is through and there are as many negative answers as relays were reached. */
  predicate AllNegative(acts: seq<Action>) {
    EndLoop in acts && 0 < ReachedIn(acts) <= NegativesIn(acts)
  }

  /** The first of the three decisive events decides. */
  function Verdict(acts: seq<Action>): Ack {
    if acts == [] then AckPending
    else
      var before, last := Verdict(acts[..|acts| - 1]), acts[|acts| - 1];
      if !before.AckPending? then before
      else if Positive(last) then Resolved
      else if last == Timeout then Rejected(AckTimeout)
      else if AllNegative(acts) then Rejected(Nacked(LastText(acts)))
      else AckPending
  }

  lemma {:induction false} FinalSnoc(c: Call, acts: seq<Action>, a: Action)
    requires Possible(c, acts + [a])
    ensures Possible(c, acts) && Enabled(Final(c, acts), a) && Final(c, acts + [a]) == Next(Final(c, acts), a)
    decreases acts
  {
    if acts == [] {
      assert acts + [a] == [a] && [a][1..] == [];
    } else {
      assert (acts + [a])[0] == acts[0] && (acts + [a])[1..] == acts[1..] + [a];
      FinalSnoc(Next(c, acts[0]), acts[1..], a);
    }
  }

  /** The variables of the call are what the history says. */
  ghost predicate Tracks(c: Call, acts: seq<Action>) {
    && c.relayCount == ReachedIn(acts)
    && (c.loopFinalized <==> EndLoop in acts && ReachedIn(acts) > 0)
    && (c.thrown <==> EndLoop in acts && ReachedIn(acts) == 0)
    && c.ack == Verdict(acts)
    && (c.registered ==> c.nacked == NegativesIn(acts) && c.lastNack == LastText(acts))
  }

  lemma SnocCounts(acts: seq<Action>, a: Action)
    ensures ReachedIn(acts + [a]) == ReachedIn(acts) + if a.Reach? then 1 else 0
    ensures NegativesIn(acts + [a]) == NegativesIn(acts) + if Negative(a) then 1 else 0
    ensures LastText(acts + [a]) ==
              if a == Reach(false) then Some("send failed")
              else if a.Answer? && !a.ok && a.message.Some? then a.message else LastText(acts)
    ensures EndLoop in acts + [a] <==> EndLoop in acts || a == EndLoop
    ensures Verdict(acts + [a]) ==
              if !Verdict(acts).AckPending? then Verdict(acts)
              else if Positive(a) then Resolved
              else if a == Timeout then Rejected(AckTimeout)
              else if AllNegative(acts + [a]) then Rejected(Nacked(LastText(acts + [a])))
              else AckPending
  {
    assert (acts + [a])[..|acts|] == acts;
  }

  lemma TracksStep(c: Call, acts: seq<Action>, a: Action)
    requires Inv(c) && Tracks(c, acts) && Enabled(c, a)
    ensures Tracks(Next(c, a), acts + [a])
  {
    SnocCounts(acts, a);
  }

  lemma {:induction false} TracksRun(relays: nat, acts: seq<Action>)
    requires Possible(Begin(relays), acts)
    ensures Tracks(Final(Begin(relays), acts), acts)
  {
    if acts != [] {
      var front, last := acts[..|acts| - 1], acts[|acts| - 1];
      assert acts == front + [last];
      FinalSnoc(Begin(relays), front, last);
      TracksRun(relays, front);
      InvAfter(Begin(relays), front);
      TracksStep(Final(Begin(relays), front), front, last);
    }
  }

  // ----- which event decides

  /** No positive answer, no timeout, and never as many negative answers as relays reached at the end of the loop. */
  predicate Undecided(acts: seq<Action>) {
    && (forall k :: 0 <= k < |acts| ==> !Positive(acts[k]) && acts[k] != Timeout)
    && forall k :: 0 <= k <= |acts| ==> !AllNegative(acts[..k])
  }

  /** A positive answer comes while nothing has decided yet. */
  predicate ConfirmedAt(acts: seq<Action>, k: nat) {
    k < |acts| && Undecided(acts[..k]) && Positive(acts[k])
  }

  predicate TimedOutAt(acts: seq<Action>, k: nat) {
    k < |acts| && Undecided(acts[..k]) && acts[k] == Timeout
  }

  predicate OutvotedAt(acts: seq<Action>, k: nat) {
    && k < |acts| && Undecided(acts[..k]) && !Positive(acts[k]) && acts[k] != Timeout
    && AllNegative(acts[..k + 1])
  }

  lemma UndecidedSnoc(acts: seq<Action>, a: Action)
    ensures Undecided(acts + [a]) <==> Undecided(acts) && !Positive(a) && a != Timeout && !AllNegative(acts + [a])
  {
    var all := acts + [a];
    assert forall k :: 0 <= k <= |acts| ==> all[..k] == acts[..k];
    assert all[..|all|] == all;
    if Undecided(all) {
      forall k | 0 <= k < |acts| ensures !Positive(acts[k]) && acts[k] != Timeout {
        assert all[k] == acts[k];
      }
      forall k | 0 <= k <= |acts| ensures !AllNegative(acts[..k]) {
        assert !AllNegative(all[..k]);
      }
      assert all[|acts|] == a;
      assert !AllNegative(all[..|all|]);
    }
    if Undecided(acts) && !Positive(a) && a != Timeout && !AllNegative(all) {
      forall k | 0 <= k <= |all| ensures !AllNegative(all[..k]) {
        assert k <= |acts| ==> !AllNegative(acts[..k]);
      }
    }
  }

  lemma {:induction false} PendingExactly(acts: seq<Action>)
    ensures Verdict(acts).AckPending? <==> Undecided(acts)
  {
    if acts != [] {
      var front, last := acts[..|acts| - 1], acts[|acts| - 1];
      assert acts == front + [last];
      PendingExactly(front);
      UndecidedSnoc(front, last);
      SnocCounts(front, last);
    } else {
      assert acts[..0] == [];
    }
  }

  lemma {:induction false} VerdictStays(acts: seq<Action>, n: nat)
    requires n <= |acts| && !Verdict(acts[..n]).AckPending?
    ensures Verdict(acts) == Verdict(acts[..n])
  {
    if n < |acts| {
      var front := acts[..|acts| - 1];
      assert front[..n] == acts[..n];
      VerdictStays(front, n);
    } else {
      assert acts[..n] == acts;
    }
  }

  /** The decisive event, which there is when the verdict is out. */
  lemma {:induction false} DecidedAt(acts: seq<Action>) returns (k: nat)
    requires !Verdict(acts).AckPending?
    ensures k < |acts| && Verdict(acts[..k]).AckPending? && Verdict(acts[..k + 1]) == Verdict(acts)
  {
    var front := acts[..|acts| - 1];
    if Verdict(front).AckPending? {
      k := |acts| - 1;
      assert acts[..k + 1] == acts;
    } else {
      k := DecidedAt(front);
      assert front[..k] == acts[..k] && front[..k + 1] == acts[..k + 1];
    }
  }

  lemma VerdictAt(acts: seq<Action>, k: nat)
    requires k < |acts| && Undecided(acts[..k])
    ensures Positive(acts[k]) ==> Verdict(acts) == Resolved
    ensures acts[k] == Timeout ==> Verdict(acts) == Rejected(AckTimeout)
    ensures OutvotedAt(acts, k) ==> Verdict(acts) == Rejected(Nacked(LastText(acts[..k + 1])))
  {
    PendingExactly(acts[..k]);
    assert acts[..k + 1] == acts[..k] + [acts[k]];
    SnocCounts(acts[..k], acts[k]);
    if !Verdict(acts[..k + 1]).AckPending? {
      VerdictStays(acts, k + 1);
    }
  }

  lemma DecisiveEvent(acts: seq<Action>) returns (k: nat)
    requires !Verdict(acts).AckPending?
    ensures ConfirmedAt(acts, k) || TimedOutAt(acts, k) || OutvotedAt(acts, k)
  {
    k := DecidedAt(acts);
    PendingExactly(acts[..k]);
    assert acts[..k + 1] == acts[..k] + [acts[k]];
    SnocCounts(acts[..k], acts[k]);
  }

  /** The verdict, by the first decisive event. */
  lemma VerdictExactly(acts: seq<Action>)
    ensures Verdict(acts).AckPending? <==> Undecided(acts)
    ensures Verdict(acts).Resolved? <==> exists k :: ConfirmedAt(acts, k)
    ensures Verdict(acts) == Rejected(AckTimeout) <==> exists k :: TimedOutAt(acts, k)
    ensures forall text :: Verdict(acts) == Rejected(Nacked(text)) <==> exists k :: OutvotedAt(acts, k) && text == LastText(acts[..k + 1])
  {
    PendingExactly(acts);
    forall k | ConfirmedAt(acts, k) || TimedOutAt(acts, k) || OutvotedAt(acts, k)
      ensures ConfirmedAt(acts, k) ==> Verdict(acts) == Resolved
      ensures TimedOutAt(acts, k) ==> Verdict(acts) == Rejected(AckTimeout)
      ensures OutvotedAt(acts, k) ==> Verdict(acts) == Rejected(Nacked(LastText(acts[..k + 1])))
    {
      VerdictAt(acts, k);
    }
    if !Verdict(acts).AckPending? {
      var k := DecisiveEvent(acts);
    }
  }

  /** The loop is through with at least one relay reached. */
  predicate Finalized(acts: seq<Action>) {
    EndLoop in acts && ReachedIn(acts) > 0
  }

  /** The loop is through and no relay could be reached. */
  predicate Unreachable(acts: seq<Action>) {
    EndLoop in acts && ReachedIn(acts) == 0
  }

  /**
   * The outcome of every call, exactly: its promise is resolved if and only if a
   * positive answer comes before the timeout and before the negative answers, counted
   * at the end of the loop or later, are as many as the relays reached; it is rejected
   * as timed out, or as nacked with the last text, when that comes first. The caller
   * learns it once the loop is through, unless no relay was reached.
   */
  lemma OutcomeExactly(relays: nat, acts: seq<Action>)
    requires Possible(Begin(relays), acts)
    ensures
      var c := Final(Begin(relays), acts);
      && (c.ack.AckPending? <==> Undecided(acts))
      && (c.ack.Resolved? <==> exists k :: ConfirmedAt(acts, k))
      && (c.ack == Rejected(AckTimeout) <==> exists k :: TimedOutAt(acts, k))
      && (forall text :: c.ack == Rejected(Nacked(text)) <==> exists k :: OutvotedAt(acts, k) && text == LastText(acts[..k + 1]))
    ensures
      var c := Final(Begin(relays), acts);
      && (c.Result() == Published <==> Finalized(acts) && c.ack.Resolved?)
      && (c.Result() == Failed(NoReachableRelay) <==> Unreachable(acts))
      && (forall reason :: reason != NoReachableRelay ==> (c.Result() == Failed(reason) <==> Finalized(acts) && c.ack == Rejected(reason)))
  {
    TracksRun(relays, acts);
    VerdictExactly(acts);
    InvAfter(Begin(relays), acts);
  }

  /** While the event is registered, any positive answer resolves the promise, whatever came before. */
  lemma PositiveResolves(relays: nat, acts: seq<Action>, relay: nat, message: Option<string>)
    requires Possible(Begin(relays), acts) && Final(Begin(relays), acts).registered && relay in Final(Begin(relays), acts).asked
    ensures
      var c := Final(Begin(relays), acts);
      var c' := Next(c, Answer(relay, true, message));
      && c'.ack == Resolved && !c'.registered && !c'.timerSet && c'.settlements == c.settlements + 1
      && c'.Result() == if c.loopFinalized then Published else Running
  {
    InvAfter(Begin(relays), acts);
  }

  // ----- events

  /** Events are dispatched in the order of their first arrivals. */
  lemma FirstArrivalsGrow(ids: seq<string>, id: string)
    ensures FirstArrivals([]) == []
    ensures FirstArrivals(ids + [id]) == FirstArrivals(ids) + if id in ids then [] else [id]
  {
    assert (ids + [id])[..|ids|] == ids;
    assert FirstArrivals(ids) + [] == FirstArrivals(ids);
  }
}
