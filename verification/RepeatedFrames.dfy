/**
 * Frames that arrive more than once: as long as their message is unfinished, the
 * receiver reports exactly what it would report without the repeats.
 */
module RepeatedFrames {
  import opened Common
  import opened Reassembly
  import opened ReassemblyRuns
  import opened ReassemblySteps
  import opened EndToEnd

  /** The item is a frame of an unfinished message that is among the first `k` items of the trace. */
  ghost predicate Repeated(sends: seq<Sending>, tr: seq<Item>, k: nat, x: Item)
    requires Trace(sends, tr) && k <= |tr|
  {
    && x.Part? && Possible(sends, x) && sends[x.m].Multi()
    && Prog(sends, tr, k)[x.m].InFlight() && Prog(sends, tr, k)[x.m].seen[x.q]
  }

  /**
   * `ys` is the trace with repeats put in anywhere; `kept[n]` is how many of the first
   * `n` items are not repeats.
   */
  ghost predicate WithRepeats(sends: seq<Sending>, tr: seq<Item>, ys: seq<Item>, kept: seq<nat>)
    requires Trace(sends, tr)
  {
    && |kept| == |ys| + 1 && kept[0] == 0 && kept[|ys|] == |tr|
    && forall n :: 0 <= n < |ys| ==> NextKept(sends, tr, ys[n], kept[n], kept[n + 1])
  }

  ghost predicate NextKept(sends: seq<Sending>, tr: seq<Item>, y: Item, k: nat, k': nat)
    requires Trace(sends, tr)
  {
    || (k < |tr| && y == tr[k] && k' == k + 1)
    || (k <= |tr| && Repeated(sends, tr, k, y) && k' == k)
  }

  lemma AllPossible(sends: seq<Sending>, tr: seq<Item>, ys: seq<Item>, kept: seq<nat>)
    requires Trace(sends, tr) && WithRepeats(sends, tr, ys, kept)
    ensures forall n :: 0 <= n < |ys| ==> Possible(sends, ys[n])
  {
    forall n | 0 <= n < |ys| ensures Possible(sends, ys[n]) {
      assert NextKept(sends, tr, ys[n], kept[n], kept[n + 1]);
    }
  }

  ghost function LooseInputs(sends: seq<Sending>, ys: seq<Item>): seq<Input>
    requires forall n :: 0 <= n < |ys| ==> Possible(sends, ys[n])
  {
    seq(|ys|, n requires 0 <= n < |ys| => InputOf(sends, ys[n]))
  }

  /** The slot of an unfinished message has the frames that have arrived. */
  lemma SlotHas(sends: seq<Sending>, ps: seq<Progress>, t: Table, m: nat, q: nat, now: int)
    requires Fitting(sends, ps) && Mirrors(sends, ps, t)
    requires m < |sends| && sends[m].Multi() && q < sends[m].Total() && ps[m].InFlight() && ps[m].seen[q]
    ensures IsRepeat(t, Arrival(Chunked(ChunkOf(sends[m], q)), now))
  {
    assert HasSlot(sends, ps, t, m);
    var s := SlotOf(sends[m], ps[m]);
    assert s in t && Belongs(ChunkOf(sends[m], q), s);
    assert s.At(q as real) == Frames(sends[m], ps[m])[q];
  }

  lemma RepeatInTable(sends: seq<Sending>, tr: seq<Item>, k: nat, x: Item, t: Table)
    requires Sendable(sends) && Trace(sends, tr) && k <= |tr| && SafeUntil(sends, tr, k)
    requires Repeated(sends, tr, k, x) && t == After(Inputs(sends, tr), k)
    ensures IsRepeat(t, InputOf(sends, x))
  {
    var ps, t' := MirrorsRun(sends, tr, k);
    InputOfPart(sends, x);
    SlotHas(sends, ps, t, x.m, x.q, x.now);
  }

  /** One item of the loose run, and what it is in the trace. */
  lemma NextLoose(sends: seq<Sending>, tr: seq<Item>, xs: seq<Input>, ys: seq<Input>, y: Item, n: nat, n': nat, k: nat, k': nat)
    requires Sendable(sends) && Trace(sends, tr) && xs == Inputs(sends, tr) && SafeUntil(sends, tr, |tr|)
    requires n < |ys| && n' == n + 1 && NextKept(sends, tr, y, k, k') && Possible(sends, y) && ys[n] == InputOf(sends, y)
    requires After(ys, n) == After(xs, k)
    ensures k' <= |tr| && After(ys, n') == After(xs, k')
    ensures k' == k ==> EventsAt(ys, n) == []
    ensures k' == k + 1 ==> EventsAt(ys, n) == EventsAt(xs, k)
  {
    if k' == k {
      RepeatInTable(sends, tr, k, y, After(xs, k));
      RepeatAt(ys, n, n', After(xs, k));
    } else {
      NextAgree(ys, n, n', xs, k, k');
      EventsAgree(ys, n, xs, k);
    }
  }

  lemma {:induction false} SameTables(sends: seq<Sending>, tr: seq<Item>, ys: seq<Item>, kept: seq<nat>, n: nat)
    requires Sendable(sends) && Trace(sends, tr) && WithRepeats(sends, tr, ys, kept) && SafeUntil(sends, tr, |tr|)
    requires n <= |ys| && forall j :: 0 <= j < |ys| ==> Possible(sends, ys[j])
    ensures kept[n] <= |tr| && After(LooseInputs(sends, ys), n) == After(Inputs(sends, tr), kept[n])
  {
    if n > 0 {
      var before := n - 1;
      SameTables(sends, tr, ys, kept, before);
      assert NextKept(sends, tr, ys[before], kept[before], kept[before + 1]);
      NextLoose(sends, tr, Inputs(sends, tr), LooseInputs(sends, ys), ys[before], before, n, kept[before], kept[n]);
    }
  }

  /**
   * With room and time for the trace, frames of unfinished messages may be repeated
   * anywhere and any number of times: a repeat reports nothing, and every other item
   * reports what it reports without the repeats.
   */
  lemma RepeatsIgnored(sends: seq<Sending>, tr: seq<Item>, ys: seq<Item>, kept: seq<nat>, n: nat)
    requires Sendable(sends) && Trace(sends, tr) && WithRepeats(sends, tr, ys, kept) && SafeUntil(sends, tr, |tr|)
    requires n < |ys|
    ensures forall j :: 0 <= j < |ys| ==> Possible(sends, ys[j])
    ensures kept[n] <= |tr| && kept[n] <= kept[n + 1] <= kept[n] + 1
    ensures kept[n + 1] == kept[n] ==> EventsAt(LooseInputs(sends, ys), n) == []
    ensures kept[n + 1] == kept[n] + 1 ==>
              kept[n] < |tr| && EventsAt(LooseInputs(sends, ys), n) == EventsAt(Inputs(sends, tr), kept[n])
  {
    AllPossible(sends, tr, ys, kept);
    SameTables(sends, tr, ys, kept, n);
    assert NextKept(sends, tr, ys[n], kept[n], kept[n + 1]);
    NextLoose(sends, tr, Inputs(sends, tr), LooseInputs(sends, ys), ys[n], n, n + 1, kept[n], kept[n + 1]);
  }

  /** Every item of the trace has its place in the loose run. */
  lemma {:induction false} KeptAt(sends: seq<Sending>, tr: seq<Item>, ys: seq<Item>, kept: seq<nat>, k: nat, upTo: nat) returns (n: nat)
    requires Trace(sends, tr) && WithRepeats(sends, tr, ys, kept) && upTo <= |ys| && k < kept[upTo]
    ensures n < upTo && kept[n] == k && kept[n + 1] == k + 1 && k < |tr| && ys[n] == tr[k]
  {
    assert NextKept(sends, tr, ys[upTo - 1], kept[upTo - 1], kept[upTo - 1 + 1]);
    if k < kept[upTo - 1] {
      n := KeptAt(sends, tr, ys, kept, k, upTo - 1);
    } else {
      n := upTo - 1;
    }
  }

  /** Every message is delivered, repeats or not, when each frame has arrived and there was room and time. */
  lemma DeliveredDespiteRepeats(sends: seq<Sending>, tr: seq<Item>, ys: seq<Item>, kept: seq<nat>, m: nat) returns (n: nat)
    requires Sendable(sends) && Trace(sends, tr) && WithRepeats(sends, tr, ys, kept)
    requires NoneMissing(sends, tr) && SafeUntil(sends, tr, |tr|) && m < |sends|
    ensures n < |ys| && forall j :: 0 <= j < |ys| ==> Possible(sends, ys[j])
    ensures ys[n].Part? && ys[n].m == m && Report(sends[m]) in EventsAt(LooseInputs(sends, ys), n)
  {
    DeliveredAtLast(sends, tr, m);
    var k :| 0 <= k < |tr| && DeliveredAt(sends, tr, m, k);
    n := KeptAt(sends, tr, ys, kept, k, |ys|);
    RepeatsIgnored(sends, tr, ys, kept, n);
  }
}
