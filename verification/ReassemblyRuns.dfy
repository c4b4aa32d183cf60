/**
 * Whole runs of the receiver: what a delivered message can consist of, whatever
 * frames arrive, and how long an unfinished one can stay.
 */
module ReassemblyRuns {
  import opened Common
  import opened Reassembly
  import opened ReassemblyInvariant
  import opened BinarySender

  /** The table after the first `n` inputs. */
  ghost function After(xs: seq<Input>, n: nat): (t: Table)
    requires n <= |xs|
    ensures WellFormed(t)
  {
    if n == 0 then []
    else
      StepKeepsWellFormed(After(xs, n - 1), xs[n - 1]);
      Step(After(xs, n - 1), xs[n - 1]).table
  }

  /**
   * After any inputs at all, every resident slot is incomplete, holds a frame and
   * is within the message cap, and all of them together are within the budget.
   */
  lemma {:induction false} RunHealthy(xs: seq<Input>, n: nat)
    requires n <= |xs|
    ensures Healthy(After(xs, n))
  {
    if n > 0 {
      RunHealthy(xs, n - 1);
      StepKeepsHealthy(After(xs, n - 1), xs[n - 1]);
    }
  }

  ghost function EventsAt(xs: seq<Input>, n: nat): seq<Event>
    requires n < |xs|
  {
    Step(After(xs, n), xs[n]).events
  }

  // ----- deliveries

  /** The slot that an input completes, if it does. */
  ghost function Completed(t: Table, x: Input): Option<Slot>
    requires WellFormed(t)
  {
    if x.Arrival? && x.parsed.Chunked? && InRange(x.parsed.chunk) && Place(t, x.parsed.chunk).Placed? then
      var c := x.parsed.chunk;
      var grown, i := Grow(t, c, x.now), Find(t, MessageKey(c.addon, c.id));
      if grown[i].At(c.seqNo).Some? then None
      else
        var slot := Fill(grown, i, c)[i];
        if slot.Bytes() <= MESSAGE_MAX_BYTES && slot.Complete() then Some(slot) else None
    else None
  }

  /** The events hold one message, last and that of the slot, or none when there is no slot. */
  ghost predicate Reports(events: seq<Event>, completed: Option<Slot>) {
    match completed
    case None => forall e :: e in events ==> !e.Binary?
    case Some(s) =>
      && events != [] && events[|events| - 1] == Binary(s.addon, s.mime, s.Message())
      && forall e :: e in events[..|events| - 1] ==> !e.Binary?
  }

  /** A chunk step reports a message exactly when it completes a slot. */
  lemma CompletedDelivers(t: Table, x: Input)
    requires WellFormed(t) && x.Arrival? && x.parsed.Chunked?
    ensures Reports(Step(t, x).events, Completed(t, x))
  {
    var c := x.parsed.chunk;
    if InRange(c) && Place(t, c).Placed? {
      var grown, i := Grow(t, c, x.now), Find(t, MessageKey(c.addon, c.id));
      if grown[i].At(c.seqNo).None? {
        var filled := Fill(grown, i, c);
        NoBinaryFaults(Evict(filled, filled[i].key).dropped);
      }
    }
  }

  lemma {:induction false} NoBinaryFaults(dropped: seq<Slot>)
    ensures forall e :: e in OverflowFaults(dropped) ==> !e.Binary?
  {
    if dropped != [] {
      NoBinaryFaults(dropped[..|dropped| - 1]);
    }
  }

  /** `log` gives, for each of the first inputs of a run, the slot whose message it delivered. */
  ghost predicate DeliveryLog(xs: seq<Input>, log: seq<Option<Slot>>) {
    && |log| <= |xs|
    && forall d :: 0 <= d < |log| ==> log[d] == Completed(After(xs, d), xs[d])
  }

  // ----- where delivered bytes come from

  predicate IsFrame(xs: seq<Input>, a: nat, key: string, total: nat, mime: string, number: real) {
    && a < |xs| && xs[a].Arrival? && xs[a].parsed.Chunked?
    && var c := xs[a].parsed.chunk;
       MessageKey(c.addon, c.id) == key && c.total == total as real && c.mime == mime && c.seqNo == number
  }

  function ChunkAt(xs: seq<Input>, a: nat): Chunk
    requires a < |xs| && xs[a].Arrival? && xs[a].parsed.Chunked?
  {
    xs[a].parsed.chunk
  }

  /** For each number of a stored frame, the arrival that carried the frame. */
  type Sources = map<real, nat>

  predicate NamesAddon(xs: seq<Input>, a: nat, addon: string) {
    a < |xs| && xs[a].Arrival? && xs[a].parsed.Chunked? && ChunkAt(xs, a).addon == addon
  }

  /** Arrival `a`, among the first `n`, carried the frame that the slot has under number `x`. */
  ghost predicate CarriedBy(xs: seq<Input>, n: nat, s: Slot, x: real, a: nat) {
    a < n && IsFrame(xs, a, s.key, s.total, s.mime, x) && s.At(x) == Some(ChunkAt(xs, a).body)
  }

  /**
   * `src` names, for each frame that the slot has and for nothing else, an arrival
   * among the first `n` that carried it, with the key, total and mime of the slot;
   * the add-on of the slot is the one named by one of them.
   */
  ghost predicate SourcesOf(xs: seq<Input>, n: nat, s: Slot, src: Sources) {
    && |src| == s.Received()
    && (forall x :: x in src <==> s.At(x).Some?)
    && (forall x :: x in src ==> CarriedBy(xs, n, s, x, src[x]))
    && exists x :: x in src && NamesAddon(xs, src[x], s.addon)
  }

  ghost predicate OddOnes(s: Slot) {
    |s.frames| == s.total && forall j :: 0 <= j < |s.odd| ==> !Integral(s.odd[j].number)
  }

  /**
   * The slot `s` that was delivered at input `d` had as many frames as its total
   * says, each of them an arrival of its own with the key, total and mime of the slot.
   */
  ghost predicate Accounted(xs: seq<Input>, d: nat, s: Slot, src: Sources) {
    s.Complete() && OddOnes(s) && SourcesOf(xs, d + 1, s, src)
  }

  /** Every delivery of the log is accounted for, and no arrival is used by two of them. */
  ghost predicate Accounts(xs: seq<Input>, log: seq<Option<Slot>>, spent: map<nat, Sources>) {
    && (forall d: nat :: d in spent <==> d < |log| && log[d].Some?)
    && (forall d :: d in spent ==> Accounted(xs, d, log[d].value, spent[d]))
    && (forall d, e :: d in spent && e in spent && d != e ==> Disjoint(spent[d], spent[e]))
  }

  /** The arrivals whose frames a resident slot holds, none of them used yet. */
  ghost predicate Holds(xs: seq<Input>, n: nat, s: Slot, held: Sources, spent: map<nat, Sources>)
  {
    && OddOnes(s) && SourcesOf(xs, n, s, held)
    && forall x :: x in held ==> Unspent(held[x], spent)
  }

  ghost predicate Uses(src: Sources, a: nat) {
    exists x :: x in src && src[x] == a
  }

  ghost predicate Disjoint(src: Sources, other: Sources) {
    forall x :: x in src ==> !Uses(other, src[x])
  }

  ghost predicate Unspent(a: nat, spent: map<nat, Sources>) {
    forall d :: d in spent ==> !Uses(spent[d], a)
  }

  ghost predicate HoldsAll(xs: seq<Input>, n: nat, t: Table, held: map<string, Sources>, spent: map<nat, Sources>) {
    forall s :: s in t ==> s.key in held && Holds(xs, n, s, held[s.key], spent)
  }

  lemma {:induction false} AssembleBodies(frames: seq<Option<Bytes>>, bodies: seq<Bytes>)
    requires |frames| == |bodies|
    requires forall q :: 0 <= q < |frames| ==> frames[q] == Some(bodies[q])
    ensures Assemble(frames) == Flatten(bodies)
  {
    if frames != [] {
      AssembleBodies(frames[..|frames| - 1], bodies[..|bodies| - 1]);
    }
  }

  // ----- what a step does to the slots

  ghost predicate Stores(t: Table, x: Input)
    requires WellFormed(t)
  {
    && x.Arrival? && x.parsed.Chunked? && InRange(x.parsed.chunk) && Place(t, x.parsed.chunk).Placed?
    && var c := x.parsed.chunk;
       Grow(t, c, x.now)[Find(t, MessageKey(c.addon, c.id))].At(c.seqNo).None?
  }

  lemma NonStoringShrinks(t: Table, x: Input)
    requires WellFormed(t) && !Stores(t, x)
    ensures forall s :: s in Step(t, x).table ==> s in t
    ensures Completed(t, x).None?
  {
    if x.Tick? {
      CollectMembers(t, x.now);
    }
  }

  /** The slot a storing step fills, before anything is dropped or delivered. */
  ghost function Filled(t: Table, x: Input): Slot
    requires WellFormed(t) && Stores(t, x)
  {
    var c := x.parsed.chunk;
    var i := Find(t, MessageKey(c.addon, c.id));
    Fill(Grow(t, c, x.now), i, c)[i]
  }

  lemma OthersInTable(t: Table, c: Chunk, now: int)
    requires WellFormed(t) && c.total >= 0.0
    ensures
      var i, grown := Find(t, MessageKey(c.addon, c.id)), Grow(t, c, now);
      && WellFormed(grown) && i < |grown|
      && (forall j :: 0 <= j < |grown| && j != i ==> grown[j] in t && grown[j].key != grown[i].key)
      && (grown[i] in t || grown[i] == NewSlot(c, now))
  {
    if Find(t, MessageKey(c.addon, c.id)) == |t| {
      GrownWellFormed(t, c, now);
    }
  }

  lemma GrownSlot(t: Table, x: Input)
    requires WellFormed(t) && Stores(t, x)
    ensures
      var c := x.parsed.chunk;
      var i, grown := Find(t, MessageKey(c.addon, c.id)), Grow(t, c, x.now);
      && WellFormed(grown) && i < |grown|
      && grown[i].key == MessageKey(c.addon, c.id) && grown[i].total as real == c.total && grown[i].mime == c.mime
      && NumberFits(c, grown[i]) && Filled(t, x) == grown[i].With(c.seqNo, c.body)
      && (forall j :: 0 <= j < |grown| && j != i ==> grown[j] in t && grown[j].key != grown[i].key)
      && (grown[i] in t || grown[i] == NewSlot(c, x.now))
  {
    OthersInTable(t, x.parsed.chunk, x.now);
  }

  lemma OthersUnchanged(grown: Table, i: nat, c: Chunk, after: Table)
    requires WellFormed(grown) && i < |grown| && NumberFits(c, grown[i])
    requires after == Store(grown, i, c).table
    ensures forall s :: s in after && s != Fill(grown, i, c)[i] ==> s in grown && s != grown[i] && s.key != grown[i].key
    ensures grown[i].key in Gone(grown, i, c) ==> Fill(grown, i, c)[i] !in after
  {
    var filled := Fill(grown, i, c);
    StoreDrops(grown, i, c);
    DroppingMembers(filled, Gone(grown, i, c));
    forall s | s in after && s != filled[i] ensures s in grown && s != grown[i] && s.key != grown[i].key {
      var j :| 0 <= j < |filled| && filled[j] == s;
      assert filled[j] == grown[j];
    }
  }

  lemma StoringFills(t: Table, x: Input)
    requires WellFormed(t) && Stores(t, x)
    ensures forall s :: s in Step(t, x).table && s != Filled(t, x) ==> s in t && s.key != Filled(t, x).key
    ensures Completed(t, x).Some? ==> Completed(t, x).value == Filled(t, x) && Filled(t, x) !in Step(t, x).table
  {
    var c := x.parsed.chunk;
    var i, grown := Find(t, MessageKey(c.addon, c.id)), Grow(t, c, x.now);
    GrownSlot(t, x);
    StoreDrops(grown, i, c);
    OthersUnchanged(grown, i, c, Step(t, x).table);
  }

  // ----- the account grows by one step

  lemma HoldsLater(xs: seq<Input>, n: nat, s: Slot, held: Sources, spent: map<nat, Sources>)
    requires Holds(xs, n, s, held, spent)
    ensures Holds(xs, n + 1, s, held, spent)
  {
  }

  lemma FrameStays(xs: seq<Input>, n: nat, n': nat, was: Slot, s: Slot, number: real, body: Bytes, x: real, a: nat)
    requires n' == n + 1 && 0.0 <= number < |was.frames| as real && s == was.With(number, body)
    requires CarriedBy(xs, n, was, x, a) && x != number
    ensures CarriedBy(xs, n', s, x, a)
  {
    WithAt(was, number, body);
  }

  lemma FrameTaken(xs: seq<Input>, n: nat, n': nat, was: Slot, c: Chunk, s: Slot)
    requires n < |xs| && n' == n + 1 && xs[n].Arrival? && xs[n].parsed == Chunked(c)
    requires NumberFits(c, was) && s == was.With(c.seqNo, c.body)
    requires was.key == MessageKey(c.addon, c.id) && was.total as real == c.total && was.mime == c.mime
    ensures CarriedBy(xs, n', s, c.seqNo, n)
  {
    WithAt(was, c.seqNo, c.body);
  }

  /** The sources of a slot with one more frame, whose add-on is still that of one of them. */
  lemma FilledSources(xs: seq<Input>, n: nat, n': nat, was: Slot, c: Chunk, s: Slot, before: Sources, held: Sources)
    requires n < |xs| && n' == n + 1 && xs[n].Arrival? && xs[n].parsed == Chunked(c)
    requires NumberFits(c, was) && was.At(c.seqNo).None? && s == was.With(c.seqNo, c.body)
    requires was.key == MessageKey(c.addon, c.id) && was.total as real == c.total && was.mime == c.mime
    requires |before| == was.Received() && forall x :: x in before <==> was.At(x).Some?
    requires forall x :: x in before ==> CarriedBy(xs, n, was, x, before[x])
    requires held == before[c.seqNo := n]
    requires exists x :: x in held && NamesAddon(xs, held[x], s.addon)
    ensures SourcesOf(xs, n', s, held)
  {
    WithAt(was, c.seqNo, c.body);
    WithCounts(was, c.seqNo, c.body);
    FrameTaken(xs, n, n', was, c, s);
    forall x | x in held ensures CarriedBy(xs, n', s, x, held[x]) {
      if x != c.seqNo {
        FrameStays(xs, n, n', was, s, c.seqNo, c.body, x, before[x]);
      }
    }
  }

  /** What the filled slot holds once arrival `n` is in it. */
  lemma FilledHolds(xs: seq<Input>, n: nat, n': nat, t: Table, before: Sources, spent: map<nat, Sources>) returns (held: Sources)
    requires n < |xs| && n' == n + 1 && WellFormed(t) && Stores(t, xs[n])
    requires forall d :: d in spent ==> forall x :: x in spent[d] ==> spent[d][x] < n
    requires forall s :: s in t && s.key == Filled(t, xs[n]).key ==> Holds(xs, n, s, before, spent)
    ensures Holds(xs, n', Filled(t, xs[n]), held, spent)
  {
    var c := xs[n].parsed.chunk;
    var i, grown := Find(t, MessageKey(c.addon, c.id)), Grow(t, c, xs[n].now);
    GrownSlot(t, xs[n]);
    assert Unspent(n, spent);
    held := FilledSlotHolds(xs, n, n', grown[i] in t, grown[i], c, Filled(t, xs[n]), before, spent);
  }

  lemma FilledSlotHolds(xs: seq<Input>, n: nat, n': nat, there: bool, was: Slot, c: Chunk, s: Slot, before: Sources, spent: map<nat, Sources>)
    returns (held: Sources)
    requires n < |xs| && n' == n + 1 && xs[n].Arrival? && xs[n].parsed == Chunked(c)
    requires NumberFits(c, was) && was.At(c.seqNo).None? && s == was.With(c.seqNo, c.body)
    requires was.key == MessageKey(c.addon, c.id) && was.total as real == c.total && was.mime == c.mime
    requires if there then Holds(xs, n, was, before, spent) else was == NewSlot(c, xs[n].now)
    requires Unspent(n, spent)
    ensures Holds(xs, n', s, held, spent)
  {
    var first := if there then before else map[];
    held := first[c.seqNo := n];
    if there {
      StillNamed(xs, was, before, c.seqNo, n, held);
    } else {
      NewSlotEmpty(c, xs[n].now);
      assert NamesAddon(xs, held[c.seqNo], s.addon);
    }
    FilledSources(xs, n, n', was, c, s, first, held);
    HeldUnspent(before, c.seqNo, n, held, spent, there);
  }

  lemma StillNamed(xs: seq<Input>, was: Slot, before: Sources, number: real, n: nat, held: Sources)
    requires held == before[number := n] && number !in before
    requires exists x :: x in before && NamesAddon(xs, before[x], was.addon)
    ensures exists x :: x in held && NamesAddon(xs, held[x], was.addon)
  {
    var x :| x in before && NamesAddon(xs, before[x], was.addon);
    assert held[x] == before[x];
  }

  lemma HeldUnspent(before: Sources, number: real, n: nat, held: Sources, spent: map<nat, Sources>, there: bool)
    requires held == (if there then before else map[])[number := n] && Unspent(n, spent)
    requires there ==> forall x :: x in before ==> Unspent(before[x], spent)
    ensures forall x :: x in held ==> Unspent(held[x], spent)
  {
  }

  lemma SpentEarlier(xs: seq<Input>, log: seq<Option<Slot>>, spent: map<nat, Sources>)
    requires Accounts(xs, log, spent)
    ensures forall d :: d in spent ==> forall x :: x in spent[d] ==> spent[d][x] < |log|
  {
    forall d, x | d in spent && x in spent[d] ensures spent[d][x] < |log| {
      assert Accounted(xs, d, log[d].value, spent[d]);
      assert CarriedBy(xs, d + 1, log[d].value, x, spent[d][x]);
    }
  }

  lemma AccountIdle(xs: seq<Input>, log: seq<Option<Slot>>, spent: map<nat, Sources>)
    requires Accounts(xs, log, spent)
    ensures Accounts(xs, log + [None], spent)
  {
  }

  lemma AccountDelivery(xs: seq<Input>, n: nat, n': nat, s: Slot, spent: map<nat, Sources>, held: Sources)
    requires n' == n + 1 && Holds(xs, n', s, held, spent) && s.Complete()
    ensures Accounted(xs, n, s, held)
    ensures forall d :: d in spent ==> Disjoint(spent[d], held)
  {
    forall d | d in spent ensures Disjoint(spent[d], held) {
      assert forall x :: x in held ==> Unspent(held[x], spent);
    }
  }

  lemma DisjointBothWays(src: Sources, other: Sources)
    requires Disjoint(src, other)
    ensures Disjoint(other, src)
  {
    forall y | y in other ensures !Uses(src, other[y]) {
      if x :| x in src && src[x] == other[y] {
        assert Uses(other, src[x]);
      }
    }
  }

  lemma ApartFromNew(spent: map<nat, Sources>, n: nat, src: Sources, spent': map<nat, Sources>, d: nat, e: nat)
    requires n !in spent && spent' == spent[n := src] && d in spent' && e in spent' && d != e
    requires forall k :: k in spent ==> Disjoint(spent[k], src)
    requires forall k, l :: k in spent && l in spent && k != l ==> Disjoint(spent[k], spent[l])
    ensures Disjoint(spent'[d], spent'[e])
  {
    if d == n {
      DisjointBothWays(spent[e], src);
    }
  }

  lemma AllApart(spent: map<nat, Sources>, n: nat, src: Sources, spent': map<nat, Sources>)
    requires n !in spent && spent' == spent[n := src] && forall k :: k in spent ==> Disjoint(spent[k], src)
    requires forall k, l :: k in spent && l in spent && k != l ==> Disjoint(spent[k], spent[l])
    ensures forall d, e :: d in spent' && e in spent' && d != e ==> Disjoint(spent'[d], spent'[e])
  {
    forall d, e | d in spent' && e in spent' && d != e ensures Disjoint(spent'[d], spent'[e]) {
      ApartFromNew(spent, n, src, spent', d, e);
    }
  }

  lemma AllAccounted(xs: seq<Input>, log: seq<Option<Slot>>, log': seq<Option<Slot>>, s: Slot, spent: map<nat, Sources>, src: Sources,
                     n: nat, spent': map<nat, Sources>)
    requires n == |log| && log' == log + [Some(s)] && spent' == spent[n := src] && Accounted(xs, n, s, src)
    requires forall d: nat :: d in spent <==> d < |log| && log[d].Some?
    requires forall d :: d in spent ==> Accounted(xs, d, log[d].value, spent[d])
    ensures forall d: nat :: d in spent' <==> d < |log'| && log'[d].Some?
    ensures forall d :: d in spent' ==> Accounted(xs, d, log'[d].value, spent'[d])
  {
    forall d: nat ensures d in spent' <==> d < |log'| && log'[d].Some? {
      if d < n {
        assert log'[d] == log[d];
      }
    }
    forall d | d in spent' ensures Accounted(xs, d, log'[d].value, spent'[d]) {
      if d != n {
        assert d in spent && log'[d] == log[d];
      }
    }
  }

  lemma AccountExtends(xs: seq<Input>, log: seq<Option<Slot>>, s: Slot, spent: map<nat, Sources>, src: Sources,
                       log': seq<Option<Slot>>, spent': map<nat, Sources>)
    requires Accounts(xs, log, spent) && Accounted(xs, |log|, s, src)
    requires forall d :: d in spent ==> Disjoint(spent[d], src)
    requires log' == log + [Some(s)] && spent' == spent[|log| := src]
    ensures Accounts(xs, log', spent')
  {
    AllApart(spent, |log|, src, spent');
    AllAccounted(xs, log, log', s, spent, src, |log|, spent');
  }

  /** Spending what one slot holds leaves the holdings of the other slots unspent. */
  lemma OthersUnspent(xs: seq<Input>, n: nat, r: Slot, held: Sources, s: Slot, mine: Sources,
                      spent: map<nat, Sources>, spent': map<nat, Sources>)
    requires n > 0 && r.key != s.key
    requires Holds(xs, n, r, held, spent) && Holds(xs, n, s, mine, spent)
    requires spent' == spent || (s.Complete() && spent' == spent[n - 1 := mine])
    ensures Holds(xs, n, r, held, spent')
  {
    forall x | x in held ensures Unspent(held[x], spent') {
      assert CarriedBy(xs, n, r, x, held[x]);
      assert forall y :: y in mine ==> CarriedBy(xs, n, s, y, mine[y]);
      assert Unspent(held[x], spent);
    }
  }

  lemma IdleStep(xs: seq<Input>, n: nat, t: Table, log: seq<Option<Slot>>, held: map<string, Sources>, spent: map<nat, Sources>)
    requires n < |xs| && n == |log| && WellFormed(t) && !Stores(t, xs[n])
    requires Accounts(xs, log, spent) && HoldsAll(xs, n, t, held, spent)
    ensures Accounts(xs, log + [Completed(t, xs[n])], spent)
    ensures HoldsAll(xs, n + 1, Step(t, xs[n]).table, held, spent)
  {
    NonStoringShrinks(t, xs[n]);
    AccountIdle(xs, log, spent);
    forall s | s in Step(t, xs[n]).table ensures s.key in held && Holds(xs, n + 1, s, held[s.key], spent) {
      HoldsLater(xs, n, s, held[s.key], spent);
    }
  }

  /** The deliveries stay accounted for, a completed slot being paid for with what it holds. */
  lemma StoreAccounts(xs: seq<Input>, log: seq<Option<Slot>>, c: Option<Slot>, s: Slot, mine: Sources, spent: map<nat, Sources>)
    returns (spent': map<nat, Sources>)
    requires Accounts(xs, log, spent) && Holds(xs, |log| + 1, s, mine, spent)
    requires c == None || (c == Some(s) && s.Complete())
    ensures spent' == if c.Some? then spent[|log| := mine] else spent
    ensures Accounts(xs, log + [c], spent')
  {
    if c.Some? {
      spent' := spent[|log| := mine];
      AccountDelivery(xs, |log|, |log| + 1, s, spent, mine);
      AccountExtends(xs, log, s, spent, mine, log + [c], spent');
    } else {
      spent' := spent;
      AccountIdle(xs, log, spent);
    }
  }

  /** The slots other than the filled one hold what they held. */
  lemma OthersHold(xs: seq<Input>, n: nat, n': nat, t: Table, t': Table, s: Slot, mine: Sources,
                   held: map<string, Sources>, spent: map<nat, Sources>, spent': map<nat, Sources>)
    requires n' == n + 1 && HoldsAll(xs, n, t, held, spent) && Holds(xs, n', s, mine, spent)
    requires spent' == spent || (s.Complete() && spent' == spent[n := mine])
    requires forall r :: r in t' && r != s ==> r in t && r.key != s.key
    ensures forall r :: r in t' && r != s ==> r.key != s.key && r.key in held && Holds(xs, n', r, held[r.key], spent')
  {
    forall r | r in t' && r != s ensures r.key != s.key && r.key in held && Holds(xs, n', r, held[r.key], spent') {
      HoldsLater(xs, n, r, held[r.key], spent);
      OthersUnspent(xs, n', r, held[r.key], s, mine, spent, spent');
    }
  }

  lemma AllHold(xs: seq<Input>, n: nat, t: Table, s: Slot, mine: Sources, held: map<string, Sources>, spent: map<nat, Sources>)
    requires s in t ==> Holds(xs, n, s, mine, spent)
    requires forall r :: r in t && r != s ==> r.key != s.key && r.key in held && Holds(xs, n, r, held[r.key], spent)
    ensures HoldsAll(xs, n, t, held[s.key := mine], spent)
  {
  }

  /** What the slot that is filled with arrival `n` holds afterwards. */
  lemma HoldFilled(xs: seq<Input>, n: nat, n': nat, t: Table, log: seq<Option<Slot>>, held: map<string, Sources>, spent: map<nat, Sources>)
    returns (mine: Sources)
    requires n < |xs| && n == |log| && n' == n + 1 && WellFormed(t) && Stores(t, xs[n])
    requires Accounts(xs, log, spent) && HoldsAll(xs, n, t, held, spent)
    ensures Holds(xs, n', Filled(t, xs[n]), mine, spent)
  {
    var s := Filled(t, xs[n]);
    SpentEarlier(xs, log, spent);
    mine := FilledHolds(xs, n, n', t, if s.key in held then held[s.key] else map[], spent);
  }

  lemma StoreStep(xs: seq<Input>, n: nat, n': nat, t: Table, log: seq<Option<Slot>>, held: map<string, Sources>, spent: map<nat, Sources>)
    returns (held': map<string, Sources>, spent': map<nat, Sources>)
    requires n < |xs| && n == |log| && n' == n + 1 && WellFormed(t) && Stores(t, xs[n])
    requires Accounts(xs, log, spent) && HoldsAll(xs, n, t, held, spent)
    ensures Accounts(xs, log + [Completed(t, xs[n])], spent')
    ensures HoldsAll(xs, n', Step(t, xs[n]).table, held', spent')
  {
    var s, t', c := Filled(t, xs[n]), Step(t, xs[n]).table, Completed(t, xs[n]);
    var mine := HoldFilled(xs, n, n', t, log, held, spent);
    StoringFills(t, xs[n]);
    spent' := StoreAccounts(xs, log, c, s, mine, spent);
    OthersHold(xs, n, n', t, t', s, mine, held, spent, spent');
    AllHold(xs, n', t', s, mine, held, spent');
    held' := held[s.key := mine];
  }

  lemma {:induction false} Ledger(xs: seq<Input>, n: nat)
    returns (log: seq<Option<Slot>>, held: map<string, Sources>, spent: map<nat, Sources>)
    requires n <= |xs|
    ensures |log| == n && DeliveryLog(xs, log)
    ensures Accounts(xs, log, spent) && HoldsAll(xs, n, After(xs, n), held, spent)
  {
    if n == 0 {
      log, held, spent := [], map[], map[];
    } else {
      log, held, spent := Ledger(xs, n - 1);
      log, held, spent := LedgerStep(xs, log, held, spent);
    }
  }

  lemma LedgerStep(xs: seq<Input>, log: seq<Option<Slot>>, held: map<string, Sources>, spent: map<nat, Sources>)
    returns (log': seq<Option<Slot>>, held': map<string, Sources>, spent': map<nat, Sources>)
    requires DeliveryLog(xs, log) && |log| < |xs|
    requires Accounts(xs, log, spent) && HoldsAll(xs, |log|, After(xs, |log|), held, spent)
    ensures |log'| == |log| + 1 && DeliveryLog(xs, log')
    ensures Accounts(xs, log', spent') && HoldsAll(xs, |log'|, After(xs, |log'|), held', spent')
  {
    AfterStep(xs, |log|);
    log' := LogSnoc(xs, log);
    held', spent' := AnyStep(xs, |log|, |log'|, After(xs, |log|), log, held, spent);
  }

  lemma AnyStep(xs: seq<Input>, n: nat, n': nat, t: Table, log: seq<Option<Slot>>, held: map<string, Sources>, spent: map<nat, Sources>)
    returns (held': map<string, Sources>, spent': map<nat, Sources>)
    requires n < |xs| && n == |log| && n' == n + 1 && WellFormed(t)
    requires Accounts(xs, log, spent) && HoldsAll(xs, n, t, held, spent)
    ensures Accounts(xs, log + [Completed(t, xs[n])], spent')
    ensures HoldsAll(xs, n', Step(t, xs[n]).table, held', spent')
  {
    if Stores(t, xs[n]) {
      held', spent' := StoreStep(xs, n, n', t, log, held, spent);
    } else {
      held', spent' := held, spent;
      IdleStep(xs, n, t, log, held, spent);
    }
  }

  lemma AfterStep(xs: seq<Input>, n: nat)
    requires n < |xs|
    ensures After(xs, n + 1) == Step(After(xs, n), xs[n]).table
  {
  }

  lemma LogSnoc(xs: seq<Input>, log: seq<Option<Slot>>) returns (log': seq<Option<Slot>>)
    requires DeliveryLog(xs, log) && |log| < |xs|
    ensures log' == log + [Completed(After(xs, |log|), xs[|log|])] && DeliveryLog(xs, log')
  {
    log' := log + [Completed(After(xs, |log|), xs[|log|])];
    forall d | 0 <= d < |log'| ensures log'[d] == Completed(After(xs, d), xs[d]) {
      if d < |log| {
        assert log'[d] == log[d];
      }
    }
  }

  /**
   * Nothing is fabricated and nothing is counted twice: for any frames at all,
   * in any order, with duplicates, mismatches, evictions and timeouts, every
   * delivery of the run can be accounted for.
   */
  lemma NoFabrication(xs: seq<Input>)
    ensures exists log, spent :: |log| == |xs| && DeliveryLog(xs, log) && Accounts(xs, log, spent)
  {
    var log, held, spent := Ledger(xs, |xs|);
  }

  predicate Names(src: Sources, q: nat) {
    q as real in src
  }

  predicate Gapless(s: Slot, src: Sources) {
    forall q :: 0 <= q < s.total ==> Names(src, q)
  }

  ghost function Bodies(xs: seq<Input>, n: nat, s: Slot, src: Sources): seq<Bytes>
    requires SourcesOf(xs, n, s, src) && Gapless(s, src)
  {
    seq(s.total, q requires 0 <= q < s.total && Names(src, q) => ChunkAt(xs, src[q as real]).body)
  }

  /** The message is the bodies of one arrived frame for each number below the total, in that order. */
  ghost predicate Concatenated(xs: seq<Input>, d: nat, s: Slot, src: Sources)
    requires Accounted(xs, d, s, src)
  {
    && Gapless(s, src)
    && s.Message() == Flatten(Bodies(xs, d + 1, s, src))
  }

  lemma OddHeld(xs: seq<Input>, n: nat, s: Slot, src: Sources)
    requires OddOnes(s) && SourcesOf(xs, n, s, src) && s.odd != []
    ensures exists x :: x in src && !Integral(x)
  {
    var last := s.odd[|s.odd| - 1];
    assert s.At(last.number).Some?;
  }

  /**
   * A delivered message is the concatenation of its frames exactly when none of
   * them came under a fractional number.
   */
  lemma ConcatenatedExactly(xs: seq<Input>, d: nat, s: Slot, src: Sources)
    requires Accounted(xs, d, s, src)
    ensures Concatenated(xs, d, s, src) <==> forall x :: x in src ==> Integral(x)
  {
    CountBounds(s.frames);
    if s.odd == [] {
      forall q: nat | q < s.total ensures q as real in src && Some(ChunkAt(xs, src[q as real]).body) == s.frames[q] {
        assert s.At(q as real) == s.frames[q];
      }
      AssembleBodies(s.frames, Bodies(xs, d + 1, s, src));
      forall x | x in src ensures Integral(x) {
        assert s.At(x).Some?;
      }
    } else {
      OddHeld(xs, d + 1, s, src);
      assert exists q :: 0 <= q < |s.frames| && s.frames[q].None?;
      var q :| 0 <= q < |s.frames| && s.frames[q].None?;
      assert s.At(q as real).None?;
    }
  }

  lemma SettleAlone(s: Slot)
    requires s.Bytes() <= MESSAGE_MAX_BYTES
    ensures Settle([s], 0) ==
              if s.Complete() then Outcome([], [Binary(s.addon, s.mime, s.Message())], false) else Outcome([s], [], false)
  {
    TableBytesOne(s);
    assert Evict([s], s.key) == Purge([s], []);
    assert RemoveAt([s], 0) == [];
    assert OverflowFaults([]) == [] && Find([s], s.key) == 0;
  }

  lemma {:induction false} NothingAssembled(frames: seq<Option<Bytes>>)
    requires forall q :: 0 <= q < |frames| ==> frames[q].None?
    ensures Assemble(frames) == []
  {
    if frames != [] {
      NothingAssembled(frames[..|frames| - 1]);
    }
  }

  lemma StoreFraction(t: Table, s: Slot, c: Chunk, now: int) returns (s': Slot)
    requires WellFormed(t) && InRange(c) && Place(t, c).Placed? && Grow(t, c, now) == [s]
    requires Find(t, MessageKey(c.addon, c.id)) == 0 && NumberFits(c, s) && !Integral(c.seqNo) && s.At(c.seqNo).None?
    ensures s' == s.With(c.seqNo, c.body) && s'.frames == s.frames
    ensures s'.Bytes() == s.Bytes() + |c.body| && s'.Received() == s.Received() + 1
    ensures HandleChunk(t, c, now) == Settle([s'], 0)
  {
    s' := s.With(c.seqNo, c.body);
    WithCounts(s, c.seqNo, c.body);
    assert Fill([s], 0, c) == [s'];
  }

  lemma FirstSlot(c: Chunk, now: int)
    requires c.seqNo == 0.25 && c.total == 2.0
    ensures InRange(c) && Find([], MessageKey(c.addon, c.id)) == 0 && Place([], c).Placed?
    ensures Grow([], c, now) == [NewSlot(c, now)] && NewSlot(c, now).total == 2
  {
  }

  /** One of the two frames of the slot has come, under a fractional number other than 0.5. */
  ghost predicate HalfThere(s: Slot, c: Chunk) {
    && WellFormed([s]) && s.key == MessageKey(c.addon, c.id) && s.addon == c.addon && s.mime == c.mime && s.total == 2
    && (forall q :: 0 <= q < |s.frames| ==> s.frames[q].None?)
    && s.Bytes() == |c.body| && s.Received() == 1 && s.At(0.5).None?
  }

  lemma FirstFraction(c: Chunk, now: int, empty: Table, s: Slot) returns (s': Slot)
    requires c.seqNo == 0.25 && c.total == 2.0 && |c.body| <= MESSAGE_MAX_BYTES
    requires empty == [] && s == NewSlot(c, now)
    ensures HandleChunk(empty, c, now).table == [s']
    ensures HalfThere(s', c)
  {
    FirstSlot(c, now);
    NewSlotEmpty(c, now);
    s' := StoreFraction(empty, s, c, now);
    WithAt(s, 0.25, c.body);
    SettleAlone(s');
  }

  lemma ZerosOnly(s: Slot)
    requires forall q :: 0 <= q < |s.frames| ==> s.frames[q].None?
    ensures s.Message() == Zeros(s.Bytes())
  {
    NothingAssembled(s.frames);
    NoFramesNoBytes(s.frames);
  }

  lemma OnlySlot(s: Slot, c: Chunk, now: int)
    requires s.key == MessageKey(c.addon, c.id) && s.mime == c.mime && s.total as real == c.total
    ensures Find([s], s.key) == 0 && Place([s], c).Placed? && Grow([s], c, now) == [s]
  {
    assert [s][0].key == s.key;
  }

  lemma SecondFraction(s: Slot, first: Chunk, c: Chunk, now: int)
    requires HalfThere(s, first) && c == first.(seqNo := 0.5, body := c.body) && c.total == 2.0
    requires |first.body| + |c.body| <= MESSAGE_MAX_BYTES
    ensures WellFormed([s])
    ensures HandleChunk([s], c, now).events == [Binary(c.addon, c.mime, Zeros(|first.body| + |c.body|))]
  {
    OnlySlot(s, c, now);
    var s' := StoreFraction([s], s, c, now);
    SettleAlone(s');
    ZerosOnly(s');
  }

  /**
   * Two frames of a message of two, numbered 0.25 and 0.5, make the receiver report
   * a message of zeros as long as both together, whatever they carried.
   */
  lemma FractionsDeliverZeros(xs: seq<Input>, c: Chunk, c': Chunk, now: int, now': int)
    requires xs == [Arrival(Chunked(c), now), Arrival(Chunked(c'), now')]
    requires c.seqNo == 0.25 && c.total == 2.0 && c' == c.(seqNo := 0.5, body := c'.body)
    requires |c.body| + |c'.body| <= MESSAGE_MAX_BYTES
    ensures EventsAt(xs, 1) == [Binary(c.addon, c.mime, Zeros(|c.body| + |c'.body|))]
  {
    var s := FirstFraction(c, now, [], NewSlot(c, now));
    TwoChunks(xs, c, c', now, now', [s]);
    SecondFraction(s, c, c', now');
  }

  lemma TwoChunks(xs: seq<Input>, c: Chunk, c': Chunk, now: int, now': int, t: Table)
    requires xs == [Arrival(Chunked(c), now), Arrival(Chunked(c'), now')]
    requires t == HandleChunk([], c, now).table
    ensures WellFormed(t) && EventsAt(xs, 1) == HandleChunk(t, c', now').events
  {
    assert After(xs, 0) == [];
    assert After(xs, 1) == t;
  }

  /** The log is what was emitted: a chunk reported a reassembled message exactly when the log has one. */
  lemma LogReported(xs: seq<Input>, log: seq<Option<Slot>>, d: nat)
    requires DeliveryLog(xs, log) && d < |log| && xs[d].Arrival? && xs[d].parsed.Chunked?
    ensures Reports(EventsAt(xs, d), log[d])
  {
    CompletedDelivers(After(xs, d), xs[d]);
  }

  /**
   * When no id that arrived contains a unit separator, which no generated id does,
   * all frames of a delivered message name the same add-on and the same id.
   */
  lemma OneMessagePerDelivery(xs: seq<Input>, d: nat, s: Slot, src: Sources, p: real, q: real)
    requires Accounted(xs, d, s, src) && p in src && q in src
    requires forall a :: 0 <= a < |xs| && xs[a].Arrival? && xs[a].parsed.Chunked? ==> UNIT_SEPARATOR !in ChunkAt(xs, a).id
    ensures ChunkAt(xs, src[p]).addon == ChunkAt(xs, src[q]).addon == s.addon
    ensures ChunkAt(xs, src[p]).id == ChunkAt(xs, src[q]).id
  {
    var r :| r in src && NamesAddon(xs, src[r], s.addon);
    var a, b, c := ChunkAt(xs, src[p]), ChunkAt(xs, src[q]), ChunkAt(xs, src[r]);
    assert forall x :: x in src ==> CarriedBy(xs, d + 1, s, x, src[x]);
    KeyInjective(a.addon, a.id, b.addon, b.id);
    KeyInjective(a.addon, a.id, c.addon, c.id);
  }

  // ----- how long an unfinished message stays

  const GC_PERIOD_MS: int := 5_000

  /** When the timer next fires: it starts with the first slot and stops with the last. */
  function NextDue(due: Option<int>, t: Table, x: Input, t': Table): Option<int> {
    if t' == [] then None
    else if t == [] || due.None? then Some(x.now + GC_PERIOD_MS)
    else if x.Tick? then Some(due.value + GC_PERIOD_MS)
    else due
  }

  ghost function Due(xs: seq<Input>, n: nat): Option<int>
    requires n <= |xs|
  {
    if n == 0 then None else NextDue(Due(xs, n - 1), After(xs, n - 1), xs[n - 1], After(xs, n))
  }

  /** Time does not run backwards, and a running timer fires on time and only then. */
  ghost predicate Punctual(xs: seq<Input>) {
    forall n :: 0 <= n < |xs| ==> PunctualAt(xs, n)
  }

  ghost predicate PunctualAt(xs: seq<Input>, n: nat)
    requires n < |xs|
  {
    && (n > 0 ==> xs[n - 1].now <= xs[n].now)
    && (Due(xs, n).Some? ==> xs[n].now <= Due(xs, n).value)
    && (xs[n].Tick? ==> Due(xs, n) == Some(xs[n].now))
  }

  /** All slots will be younger than the timeout plus one period when the timer next fires. */
  ghost predicate Young(due: Option<int>, t: Table) {
    forall s :: s in t ==> due.Some? && due.value - s.firstSeenAt < TIMEOUT_MS + GC_PERIOD_MS
  }

  lemma StepSlots(t: Table, x: Input)
    requires WellFormed(t)
    ensures forall s :: s in Step(t, x).table ==>
              (exists r :: r in t && r.firstSeenAt == s.firstSeenAt && (x.Tick? ==> !Stale(r, x.now))) || (x.Arrival? && s.firstSeenAt == x.now)
  {
    if x.Tick? {
      CollectMembers(t, x.now);
    } else if Stores(t, x) {
      StoringFills(t, x);
      GrownSlot(t, x);
    } else {
      NonStoringShrinks(t, x);
    }
  }

  lemma YoungStep(due: Option<int>, t: Table, x: Input)
    requires WellFormed(t) && Young(due, t)
    requires due.Some? ==> x.now <= due.value <= x.now + GC_PERIOD_MS
    requires x.Tick? ==> due == Some(x.now)
    ensures Young(NextDue(due, t, x, Step(t, x).table), Step(t, x).table)
    ensures NextDue(due, t, x, Step(t, x).table).Some? ==>
              x.now <= NextDue(due, t, x, Step(t, x).table).value <= x.now + GC_PERIOD_MS
  {
    StepSlots(t, x);
    var t' := Step(t, x).table;
    forall s | s in t'
      ensures NextDue(due, t, x, t').Some? && NextDue(due, t, x, t').value - s.firstSeenAt < TIMEOUT_MS + GC_PERIOD_MS
    {
      if !(x.Arrival? && s.firstSeenAt == x.now) {
        var r :| r in t && r.firstSeenAt == s.firstSeenAt && (x.Tick? ==> !Stale(r, x.now));
      }
    }
  }

  lemma {:induction false} YoungRun(xs: seq<Input>, n: nat)
    requires n <= |xs| && Punctual(xs)
    ensures Young(Due(xs, n), After(xs, n))
    ensures n > 0 && Due(xs, n).Some? ==> xs[n - 1].now <= Due(xs, n).value <= xs[n - 1].now + GC_PERIOD_MS
  {
    if n > 0 {
      var before := n - 1;
      YoungRun(xs, before);
      YoungNext(xs, before, n, After(xs, before));
    }
  }

  lemma YoungNext(xs: seq<Input>, n: nat, n': nat, t: Table)
    requires n < |xs| && n' == n + 1 && Punctual(xs) && t == After(xs, n) && WellFormed(t) && Young(Due(xs, n), t)
    requires n > 0 && Due(xs, n).Some? ==> xs[n - 1].now <= Due(xs, n).value <= xs[n - 1].now + GC_PERIOD_MS
    ensures Young(Due(xs, n'), After(xs, n'))
    ensures Due(xs, n').Some? ==> xs[n].now <= Due(xs, n').value <= xs[n].now + GC_PERIOD_MS
  {
    AfterStep(xs, n);
    DueInTime(xs, n);
    YoungStep(Due(xs, n), t, xs[n]);
  }

  /** The timer is due now or within a period. */
  lemma DueInTime(xs: seq<Input>, n: nat)
    requires n < |xs| && Punctual(xs)
    requires n > 0 && Due(xs, n).Some? ==> xs[n - 1].now <= Due(xs, n).value <= xs[n - 1].now + GC_PERIOD_MS
    ensures Due(xs, n).Some? ==> xs[n].now <= Due(xs, n).value <= xs[n].now + GC_PERIOD_MS
    ensures xs[n].Tick? ==> Due(xs, n) == Some(xs[n].now)
  {
    assert PunctualAt(xs, n);
  }

  /**
   * With a punctual timer no unfinished message is resident 65 seconds after its
   * first frame: whenever anything happens, every resident slot is younger. And
   * what a tick drops is at least 60 seconds old, what it keeps is younger.
   */
  lemma BoundedLifetime(xs: seq<Input>, n: nat)
    requires n < |xs| && Punctual(xs)
    ensures forall s :: s in After(xs, n) ==> xs[n].now - s.firstSeenAt < TIMEOUT_MS + GC_PERIOD_MS
    ensures xs[n].Tick? ==> forall s :: s in After(xs, n + 1) <==> s in After(xs, n) && xs[n].now - s.firstSeenAt < TIMEOUT_MS
  {
    YoungRun(xs, n);
    assert PunctualAt(xs, n);
    if xs[n].Tick? {
      CollectMembers(After(xs, n), xs[n].now);
    }
  }
}
