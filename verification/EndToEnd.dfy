/**
 * Sender and receiver together: any set of messages, their frames interleaved in
 * any way and each message's frames in any order, with the timer firing in between.
 */
module EndToEnd {
  import opened Common
  import opened Reassembly
  import opened ReassemblyInvariant
  import opened FrameCodec
  import opened BinarySender
  import opened ReassemblyRuns

  datatype Sending = Sending(m: Message, id: string) {
    function Total(): nat {
      FrameCount(|m.bytes|)
    }

    predicate Multi() {
      Total() > 1
    }

    function Key(): string {
      MessageKey(m.addon, id)
    }

    function Piece(q: nat): Bytes
      requires q < Total()
    {
      Slice(m.bytes, q)
    }
  }

  /** Messages within the cap; those of several frames have keys of their own. */
  ghost predicate Sendable(sends: seq<Sending>) {
    && (forall i :: 0 <= i < |sends| ==> |sends[i].m.bytes| <= MESSAGE_MAX_BYTES)
    && (forall i, j :: 0 <= i < j < |sends| && sends[i].Multi() && sends[j].Multi() ==> sends[i].Key() != sends[j].Key())
  }

  /** What happens at the receiver: frame `q` of message `m` arrives, or the timer fires. */
  datatype Item = Part(m: nat, q: nat, now: int) | Fire(now: int)

  predicate Possible(sends: seq<Sending>, x: Item) {
    x.Part? ==> x.m < |sends| && x.q < sends[x.m].Total()
  }

  function InputOf(sends: seq<Sending>, x: Item): Input
    requires Possible(sends, x)
  {
    match x
    case Part(m, q, now) => Arrival(Meaning(FrameAt(sends[m].m, sends[m].id, q)), now)
    case Fire(now) => Tick(now)
  }

  // ----- how far each message has got

  /** Which frames of one message have arrived, and when the first did. */
  datatype Progress = Progress(seen: seq<bool>, first: int) {
    predicate Untouched() {
      forall q :: 0 <= q < |seen| ==> !seen[q]
    }

    predicate Finished() {
      forall q :: 0 <= q < |seen| ==> seen[q]
    }

    predicate InFlight() {
      !Untouched() && !Finished()
    }
  }

  function Start(sends: seq<Sending>): seq<Progress> {
    seq(|sends|, m requires 0 <= m < |sends| => Progress(seq(sends[m].Total(), _ => false), 0))
  }

  function Mark(p: Progress, q: nat, now: int): Progress
    requires q < |p.seen|
  {
    Progress(p.seen[q := true], if p.Untouched() then now else p.first)
  }

  predicate Fitting(sends: seq<Sending>, ps: seq<Progress>) {
    && |ps| == |sends|
    && forall m :: 0 <= m < |sends| ==> |ps[m].seen| == sends[m].Total()
  }

  function Advance(sends: seq<Sending>, ps: seq<Progress>, x: Item): seq<Progress>
    requires Fitting(sends, ps) && Possible(sends, x)
  {
    if x.Part? then ps[x.m := Mark(ps[x.m], x.q, x.now)] else ps
  }

  function Frames(s: Sending, p: Progress): seq<Option<Bytes>>
    requires |p.seen| == s.Total()
  {
    seq(s.Total(), q requires 0 <= q < s.Total() => if p.seen[q] then Some(s.Piece(q)) else None)
  }

  function SlotOf(s: Sending, p: Progress): Slot
    requires |p.seen| == s.Total()
  {
    Slot(s.Key(), s.id, s.m.addon, s.m.mime, s.Total(), Frames(s, p), [], p.first)
  }

  /** The bytes a message occupies while some of its frames, but not all, are there. */
  function Occupied(s: Sending, p: Progress): nat
    requires |p.seen| == s.Total()
  {
    if s.Multi() && p.InFlight() then FramesBytes(Frames(s, p)) else 0
  }

  /** The bytes in flight: those of all unfinished messages. */
  function Load(sends: seq<Sending>, ps: seq<Progress>): nat
    requires Fitting(sends, ps)
    decreases |sends|
  {
    if sends == [] then 0
    else Load(sends[..|sends| - 1], ps[..|ps| - 1]) + Occupied(sends[|sends| - 1], ps[|ps| - 1])
  }

  /**
   * The receiver has room and time for the next step: the arriving frame fits into
   * the budget with what is in flight, or, when the timer fires, every unfinished
   * message is younger than the timeout.
   */
  ghost predicate Safe(sends: seq<Sending>, ps: seq<Progress>, x: Item)
    requires Fitting(sends, ps) && Possible(sends, x)
  {
    match x
    case Part(m, q, _) => sends[m].Multi() ==> Load(sends, ps) + |sends[m].Piece(q)| <= BUDGET_BYTES
    case Fire(now) => forall m :: 0 <= m < |sends| && sends[m].Multi() && ps[m].InFlight() ==> now - ps[m].first < TIMEOUT_MS
  }

  predicate Finishes(sends: seq<Sending>, ps: seq<Progress>, x: Item)
    requires Fitting(sends, ps) && Possible(sends, x)
  {
    x.Part? && Mark(ps[x.m], x.q, x.now).Finished()
  }

  function Report(s: Sending): Event {
    Binary(s.m.addon, s.m.mime, s.m.bytes)
  }

  /** The events of a step when all goes well: the message, at its last missing frame. */
  function Expected(sends: seq<Sending>, ps: seq<Progress>, x: Item): seq<Event>
    requires Fitting(sends, ps) && Possible(sends, x)
  {
    if Finishes(sends, ps, x) then [Report(sends[x.m])] else []
  }

  // ----- the table mirrors the messages in flight

  /** The slot is that of message `m`, which is unfinished. */
  predicate SlotFor(sends: seq<Sending>, ps: seq<Progress>, s: Slot, m: nat)
    requires Fitting(sends, ps)
  {
    m < |sends| && sends[m].Multi() && ps[m].InFlight() && s == SlotOf(sends[m], ps[m])
  }

  ghost predicate HasMessage(sends: seq<Sending>, ps: seq<Progress>, s: Slot)
    requires Fitting(sends, ps)
  {
    exists m :: SlotFor(sends, ps, s, m)
  }

  predicate HasSlot(sends: seq<Sending>, ps: seq<Progress>, t: Table, m: nat)
    requires Fitting(sends, ps) && m < |sends|
  {
    sends[m].Multi() && ps[m].InFlight() ==> SlotOf(sends[m], ps[m]) in t
  }

  /** Every slot is that of an unfinished message. */
  ghost predicate SlotsMirrored(sends: seq<Sending>, ps: seq<Progress>, t: Table)
    requires Fitting(sends, ps)
  {
    forall s :: s in t ==> HasMessage(sends, ps, s)
  }

  /** Every unfinished message has its slot. */
  ghost predicate MessagesMirrored(sends: seq<Sending>, ps: seq<Progress>, t: Table)
    requires Fitting(sends, ps)
  {
    forall m: nat :: m < |sends| ==> HasSlot(sends, ps, t, m)
  }

  ghost predicate Mirrors(sends: seq<Sending>, ps: seq<Progress>, t: Table)
    requires Fitting(sends, ps)
  {
    SlotsMirrored(sends, ps, t) && MessagesMirrored(sends, ps, t) && TableBytes(t) == Load(sends, ps)
  }

  // ----- bytes

  lemma {:induction false} FramesUpTo(s: Sending, p: Progress, k: nat)
    requires |p.seen| == s.Total() && k <= s.Total()
    ensures FramesBytes(Frames(s, p)[..k]) <= End(s.m.bytes, k)
    ensures (forall q :: 0 <= q < k ==> p.seen[q]) ==>
              Assemble(Frames(s, p)[..k]) == s.m.bytes[..End(s.m.bytes, k)]
  {
    if k > 0 {
      var fs := Frames(s, p)[..k];
      FramesUpTo(s, p, k - 1);
      assert fs[..k - 1] == Frames(s, p)[..k - 1];
      SliceExtends(s.m.bytes, k - 1);
      assert |s.m.bytes[..End(s.m.bytes, k - 1)] + s.Piece(k - 1)| == End(s.m.bytes, k);
    }
  }

  lemma FramesFit(s: Sending, p: Progress)
    requires |p.seen| == s.Total()
    ensures FramesBytes(Frames(s, p)) <= |s.m.bytes|
    ensures p.Finished() ==> SlotOf(s, p).Message() == s.m.bytes && FramesBytes(Frames(s, p)) == |s.m.bytes|
  {
    FrameCountBounds(|s.m.bytes|);
    FramesUpTo(s, p, s.Total());
    assert Frames(s, p)[..s.Total()] == Frames(s, p);
    AssembleLength(Frames(s, p));
  }

  lemma FramesMark(s: Sending, p: Progress, q: nat, now: int)
    requires |p.seen| == s.Total() && q < s.Total() && !p.seen[q]
    ensures Frames(s, Mark(p, q, now)) == Frames(s, p)[q := Some(s.Piece(q))]
    ensures FramesBytes(Frames(s, Mark(p, q, now))) == FramesBytes(Frames(s, p)) + |s.Piece(q)|
    ensures p.Untouched() ==> FramesBytes(Frames(s, p)) == 0
  {
    assert Frames(s, Mark(p, q, now)) == Frames(s, p)[q := Some(s.Piece(q))];
    FillCounts(Frames(s, p), q, s.Piece(q));
    if p.Untouched() {
      NoFramesNoBytes(Frames(s, p));
    }
  }

  lemma {:induction false} LoadUpdate(sends: seq<Sending>, ps: seq<Progress>, m: nat, p: Progress)
    requires Fitting(sends, ps) && m < |sends| && |p.seen| == sends[m].Total()
    ensures Fitting(sends, ps[m := p])
    ensures Load(sends, ps[m := p]) == Load(sends, ps) - Occupied(sends[m], ps[m]) + Occupied(sends[m], p)
    decreases |sends|
  {
    var n := |sends| - 1;
    if m == n {
      assert ps[m := p][..n] == ps[..n];
    } else {
      LoadUpdate(sends[..n], ps[..n], m, p);
      assert ps[m := p][..n] == ps[..n][m := p] && ps[m := p][n] == ps[n];
    }
  }

  // ----- one frame arrives

  function ChunkOf(s: Sending, q: nat): Chunk
    requires q < s.Total()
  {
    Chunk(s.m.addon, s.m.mime, s.id, q as real, s.Total() as real, s.Piece(q))
  }

  lemma InputOfPart(sends: seq<Sending>, x: Item)
    requires Possible(sends, x) && x.Part?
    ensures sends[x.m].Multi() ==> InputOf(sends, x) == Arrival(Chunked(ChunkOf(sends[x.m], x.q)), x.now)
    ensures !sends[x.m].Multi() ==>
              InputOf(sends, x) == Arrival(Whole(sends[x.m].m.addon, sends[x.m].m.mime, sends[x.m].m.bytes), x.now)
  {
    var bytes := sends[x.m].m.bytes;
    FrameCountBounds(|bytes|);
    if !sends[x.m].Multi() {
      assert Slice(bytes, 0) == bytes;
    }
  }

  lemma FindPresent(t: Table, s: Slot)
    requires s in t
    ensures Find(t, s.key) < |t|
  {
  }

  /** Where the slot of a message is, given that its frame `q` is still missing. */
  lemma Locate(sends: seq<Sending>, ps: seq<Progress>, t: Table, m: nat, q: nat)
    requires Sendable(sends) && Fitting(sends, ps) && Mirrors(sends, ps, t)
    requires m < |sends| && sends[m].Multi() && q < sends[m].Total() && !ps[m].seen[q]
    ensures
      var i := Find(t, sends[m].Key());
      if ps[m].Untouched() then i == |t| else i < |t| && t[i] == SlotOf(sends[m], ps[m])
  {
    var i := Find(t, sends[m].Key());
    if i < |t| {
      assert t[i] in t;
      assert HasMessage(sends, ps, t[i]);
      var m' :| SlotFor(sends, ps, t[i], m');
      assert m' == m;
    } else if !ps[m].Untouched() {
      assert HasSlot(sends, ps, t, m);
      FindPresent(t, SlotOf(sends[m], ps[m]));
    }
  }

  /** The slot at `i` of `filled` is the message's, one frame further; the others are those of `t`. */
  ghost predicate FilledFrom(sends: seq<Sending>, ps: seq<Progress>, t: Table, m: nat, p: Progress, filled: Table, i: nat)
    requires m < |sends| && |p.seen| == sends[m].Total()
  {
    && WellFormed(filled) && i < |filled|
    && filled[i] == SlotOf(sends[m], p)
    && (forall s :: s in filled && s != filled[i] ==> s in t && s.key != sends[m].Key())
    && (forall s :: s in t && s.key != sends[m].Key() ==> s in filled)
  }

  lemma FilledOthersOld(t: Table, c: Chunk, now: int, i: nat)
    requires WellFormed(t) && InRange(c) && i == Find(t, MessageKey(c.addon, c.id)) < |Grow(t, c, now)|
    requires NumberFits(c, Grow(t, c, now)[i])
    ensures
      var filled := Fill(Grow(t, c, now), i, c);
      forall s :: s in filled && s != filled[i] ==> s in t && s.key != MessageKey(c.addon, c.id)
  {
    var grown := Grow(t, c, now);
    var filled := Fill(grown, i, c);
    OthersInTable(t, c, now);
    forall s | s in filled && s != filled[i] ensures s in t && s.key != MessageKey(c.addon, c.id) {
      var j :| 0 <= j < |filled| && filled[j] == s;
      assert grown[j] == s && j != i;
    }
  }

  lemma OldOthersFilled(t: Table, c: Chunk, now: int, i: nat)
    requires WellFormed(t) && InRange(c) && i == Find(t, MessageKey(c.addon, c.id)) < |Grow(t, c, now)|
    requires NumberFits(c, Grow(t, c, now)[i])
    ensures
      var filled := Fill(Grow(t, c, now), i, c);
      forall s :: s in t && s.key != MessageKey(c.addon, c.id) ==> s in filled
  {
    var filled := Fill(Grow(t, c, now), i, c);
    forall s | s in t && s.key != MessageKey(c.addon, c.id) ensures s in filled {
      var j :| 0 <= j < |t| && t[j] == s;
      assert filled[j] == s;
    }
  }

  lemma FillMembers(t: Table, c: Chunk, now: int, i: nat)
    requires WellFormed(t) && InRange(c) && i == Find(t, MessageKey(c.addon, c.id))
    requires i < |t| ==> t[i].total as real == c.total
    requires var grown := Grow(t, c, now); i < |grown| && NumberFits(c, grown[i]) && grown[i].At(c.seqNo).None?
    ensures
      var filled := Fill(Grow(t, c, now), i, c);
      && WellFormed(filled) && i < |filled|
      && (forall s :: s in filled && s != filled[i] ==> s in t && s.key != MessageKey(c.addon, c.id))
      && (forall s :: s in t && s.key != MessageKey(c.addon, c.id) ==> s in filled)
  {
    OthersInTable(t, c, now);
    FillAdds(Grow(t, c, now), i, c);
    FilledOthersOld(t, c, now, i);
    OldOthersFilled(t, c, now, i);
  }

  /** The slot of a message as it is before frame `q`, a new one when there was none. */
  predicate SlotBefore(s: Sending, p: Progress, was: Slot, now: int)
    requires |p.seen| == s.Total()
  {
    was == SlotOf(s, p).(firstSeenAt := if p.Untouched() then now else p.first)
  }

  lemma SlotTakes(s: Sending, p: Progress, was: Slot, q: nat, now: int)
    requires |p.seen| == s.Total() && q < s.Total() && !p.seen[q] && SlotBefore(s, p, was, now)
    ensures NumberFits(ChunkOf(s, q), was) && was.At(q as real).None?
    ensures was.With(q as real, s.Piece(q)) == SlotOf(s, Mark(p, q, now))
  {
    FramesMark(s, p, q, now);
  }

  lemma NewBefore(s: Sending, p: Progress, q: nat, now: int)
    requires |p.seen| == s.Total() && q < s.Total() && p.Untouched()
    ensures SlotBefore(s, p, NewSlot(ChunkOf(s, q), now), now)
  {
    assert NewSlot(ChunkOf(s, q), now).frames == Frames(s, p);
  }

  /** The slot that frame `q` goes to, found or made, and what it is after taking the frame. */
  lemma FillSlot(sends: seq<Sending>, ps: seq<Progress>, t: Table, m: nat, q: nat, now: int)
    requires Sendable(sends) && Fitting(sends, ps) && Mirrors(sends, ps, t) && WellFormed(t)
    requires m < |sends| && sends[m].Multi() && q < sends[m].Total() && !ps[m].seen[q]
    ensures
      var c, i := ChunkOf(sends[m], q), Find(t, sends[m].Key());
      var grown := Grow(t, c, now);
      && i < |grown| && NumberFits(c, grown[i]) && grown[i].At(c.seqNo).None?
      && (i < |t| ==> t[i].total as real == c.total && t[i].mime == c.mime)
      && grown[i].frames == Frames(sends[m], ps[m])
      && Fill(grown, i, c)[i] == SlotOf(sends[m], Mark(ps[m], q, now))
  {
    Locate(sends, ps, t, m, q);
    if ps[m].Untouched() {
      NewBefore(sends[m], ps[m], q, now);
    }
    SlotTakes(sends[m], ps[m], Grow(t, ChunkOf(sends[m], q), now)[Find(t, sends[m].Key())], q, now);
  }

  lemma FillBytes(t: Table, c: Chunk, now: int, i: nat)
    requires WellFormed(t) && InRange(c) && i == Find(t, MessageKey(c.addon, c.id))
    requires var grown := Grow(t, c, now); NumberFits(c, grown[i]) && grown[i].At(c.seqNo).None?
    ensures TableBytes(Fill(Grow(t, c, now), i, c)) == TableBytes(t) + |c.body|
  {
    if i == |t| {
      GrownWellFormed(t, c, now);
    }
    FillAdds(Grow(t, c, now), i, c);
  }

  lemma FillOne(sends: seq<Sending>, ps: seq<Progress>, t: Table, m: nat, q: nat, now: int)
    requires Sendable(sends) && Fitting(sends, ps) && Mirrors(sends, ps, t) && WellFormed(t)
    requires m < |sends| && sends[m].Multi() && q < sends[m].Total() && !ps[m].seen[q]
    ensures
      var c, i := ChunkOf(sends[m], q), Find(t, sends[m].Key());
      var grown := Grow(t, c, now);
      && i < |grown| && NumberFits(c, grown[i]) && grown[i].At(c.seqNo).None?
      && (i < |t| ==> t[i].total as real == c.total && t[i].mime == c.mime)
      && FilledFrom(sends, ps, t, m, Mark(ps[m], q, now), Fill(grown, i, c), i)
      && TableBytes(Fill(grown, i, c)) == Load(sends, ps) + |sends[m].Piece(q)|
  {
    var c, i := ChunkOf(sends[m], q), Find(t, sends[m].Key());
    FillSlot(sends, ps, t, m, q, now);
    FillMembers(t, c, now, i);
    FillBytes(t, c, now, i);
  }

  /** A step with room for the frame: nothing is dropped, and a finished message is delivered. */
  lemma SettleWithRoom(filled: Table, i: nat)
    requires WellFormed(filled) && i < |filled|
    requires filled[i].Bytes() <= MESSAGE_MAX_BYTES && TableBytes(filled) <= BUDGET_BYTES
    ensures
      var s := filled[i];
      Settle(filled, i) ==
        if s.Complete() then Outcome(RemoveAt(filled, i), [Binary(s.addon, s.mime, s.Message())], false)
        else Outcome(filled, [], false)
  {
    assert Evict(filled, filled[i].key) == Purge(filled, []);
    assert Find(filled, filled[i].key) == i;
  }

  lemma FinishedComplete(s: Sending, p: Progress)
    requires |p.seen| == s.Total()
    ensures SlotOf(s, p).Complete() <==> p.Finished()
  {
    CountBounds(Frames(s, p));
    if SlotOf(s, p).Complete() {
      forall q | 0 <= q < |p.seen| ensures p.seen[q] {
        assert Frames(s, p)[q].Some?;
      }
    }
  }

  lemma SettledMembers(filled: Table, i: nat, gone: bool, t': Table)
    requires WellFormed(filled) && i < |filled| && t' == if gone then RemoveAt(filled, i) else filled
    ensures forall s :: s in t' <==> s in filled && (s != filled[i] || !gone)
    ensures TableBytes(t') == TableBytes(filled) - if gone then filled[i].Bytes() else 0
  {
    if gone {
      TableBytesSplit(filled, i);
      WithoutDrops(filled, i);
      DroppingMembers(filled, {filled[i].key});
      forall s | s in filled && s != filled[i] ensures s.key != filled[i].key {
        var j :| 0 <= j < |filled| && filled[j] == s;
      }
    }
  }

  lemma MirroredSlots(sends: seq<Sending>, ps: seq<Progress>, t: Table, m: nat, p: Progress, filled: Table, i: nat, t': Table)
    requires Fitting(sends, ps) && Mirrors(sends, ps, t)
    requires m < |sends| && sends[m].Multi() && |p.seen| == sends[m].Total() && !p.Untouched()
    requires FilledFrom(sends, ps, t, m, p, filled, i)
    requires forall s :: s in t' ==> s in filled && (s != filled[i] || !p.Finished())
    ensures Fitting(sends, ps[m := p]) && SlotsMirrored(sends, ps[m := p], t')
  {
    var ps' := ps[m := p];
    forall s | s in t' ensures HasMessage(sends, ps', s) {
      if s == filled[i] {
        assert SlotFor(sends, ps', s, m);
      } else {
        assert HasMessage(sends, ps, s);
        var k :| SlotFor(sends, ps, s, k);
        assert k != m && SlotFor(sends, ps', s, k);
      }
    }
  }

  lemma MirroredMessages(sends: seq<Sending>, ps: seq<Progress>, t: Table, m: nat, p: Progress, filled: Table, i: nat, t': Table)
    requires Sendable(sends) && Fitting(sends, ps) && Mirrors(sends, ps, t)
    requires m < |sends| && sends[m].Multi() && |p.seen| == sends[m].Total()
    requires FilledFrom(sends, ps, t, m, p, filled, i)
    requires forall s :: s in filled && (s != filled[i] || !p.Finished()) ==> s in t'
    ensures Fitting(sends, ps[m := p]) && MessagesMirrored(sends, ps[m := p], t')
  {
    var ps' := ps[m := p];
    forall k: nat | k < |sends| ensures HasSlot(sends, ps', t', k) {
      if k != m && sends[k].Multi() && ps[k].InFlight() {
        assert HasSlot(sends, ps, t, k);
        var s := SlotOf(sends[k], ps[k]);
        assert s in t && s.key != sends[m].Key();
        assert s in filled && s != filled[i];
      }
    }
  }

  lemma LoadAfterFill(sends: seq<Sending>, ps: seq<Progress>, m: nat, p: Progress, filled: Table, i: nat, t': Table)
    requires Fitting(sends, ps) && m < |sends| && sends[m].Multi() && |p.seen| == sends[m].Total() && !p.Untouched()
    requires WellFormed(filled) && i < |filled| && filled[i] == SlotOf(sends[m], p)
    requires TableBytes(filled) == Load(sends, ps) - Occupied(sends[m], ps[m]) + FramesBytes(Frames(sends[m], p))
    requires t' == if p.Finished() then RemoveAt(filled, i) else filled
    ensures Fitting(sends, ps[m := p]) && TableBytes(t') == Load(sends, ps[m := p])
  {
    LoadUpdate(sends, ps, m, p);
    if p.Finished() {
      TableBytesSplit(filled, i);
    }
  }

  lemma MirrorsAfterFill(sends: seq<Sending>, ps: seq<Progress>, t: Table, m: nat, p: Progress, filled: Table, i: nat, t': Table)
    requires Sendable(sends) && Fitting(sends, ps) && Mirrors(sends, ps, t)
    requires m < |sends| && sends[m].Multi() && |p.seen| == sends[m].Total() && !p.Untouched()
    requires FilledFrom(sends, ps, t, m, p, filled, i)
    requires TableBytes(filled) == Load(sends, ps) - Occupied(sends[m], ps[m]) + FramesBytes(Frames(sends[m], p))
    requires t' == if p.Finished() then RemoveAt(filled, i) else filled
    ensures Fitting(sends, ps[m := p]) && Mirrors(sends, ps[m := p], t')
  {
    LoadAfterFill(sends, ps, m, p, filled, i, t');
    SettledMembers(filled, i, p.Finished(), t');
    MirroredSlots(sends, ps, t, m, p, filled, i, t');
    MirroredMessages(sends, ps, t, m, p, filled, i, t');
  }

  // ----- one step with room and time

  predicate Unseen(ps: seq<Progress>, x: Item) {
    x.Part? ==> x.m < |ps| && x.q < |ps[x.m].seen| && !ps[x.m].seen[x.q]
  }

  lemma FrameStored(sends: seq<Sending>, ps: seq<Progress>, t: Table, m: nat, q: nat, now: int)
    requires Sendable(sends) && Fitting(sends, ps) && Mirrors(sends, ps, t) && WellFormed(t)
    requires m < |sends| && sends[m].Multi() && q < sends[m].Total() && !ps[m].seen[q]
    ensures
      var c, i := ChunkOf(sends[m], q), Find(t, sends[m].Key());
      var grown := Grow(t, c, now);
      && i < |grown| && NumberFits(c, grown[i])
      && HandleChunk(t, c, now) == Settle(Fill(grown, i, c), i)
  {
    FillOne(sends, ps, t, m, q, now);
    SlicesPartition(sends[m].m.bytes);
    HandleStores(t, ChunkOf(sends[m], q), now);
  }

  /** A chunk that finds or makes a slot without its frame is stored. */
  lemma HandleStores(t: Table, c: Chunk, now: int)
    requires WellFormed(t) && InRange(c) && Makeable(c.total)
    requires
      var i, grown := Find(t, MessageKey(c.addon, c.id)), Grow(t, c, now);
      && (i < |t| ==> t[i].total as real == c.total && t[i].mime == c.mime)
      && i < |grown| && NumberFits(c, grown[i]) && grown[i].At(c.seqNo).None?
    ensures
      var i := Find(t, MessageKey(c.addon, c.id));
      HandleChunk(t, c, now) == Settle(Fill(Grow(t, c, now), i, c), i)
  {
  }

  lemma OccupiedMark(s: Sending, p: Progress, q: nat, now: int)
    requires |p.seen| == s.Total() && s.Multi() && q < s.Total() && !p.seen[q]
    ensures FramesBytes(Frames(s, Mark(p, q, now))) == Occupied(s, p) + |s.Piece(q)|
    ensures !Mark(p, q, now).Untouched()
  {
    FramesMark(s, p, q, now);
    assert Mark(p, q, now).seen[q];
  }

  lemma SafeFrame(sends: seq<Sending>, ps: seq<Progress>, t: Table, m: nat, q: nat, now: int)
    requires Sendable(sends) && Fitting(sends, ps) && Mirrors(sends, ps, t) && WellFormed(t)
    requires m < |sends| && sends[m].Multi() && q < sends[m].Total() && !ps[m].seen[q]
    requires Load(sends, ps) + |sends[m].Piece(q)| <= BUDGET_BYTES
    ensures
      var o, p := HandleChunk(t, ChunkOf(sends[m], q), now), Mark(ps[m], q, now);
      && o.events == (if p.Finished() then [Report(sends[m])] else [])
      && Fitting(sends, ps[m := p]) && Mirrors(sends, ps[m := p], o.table)
  {
    var c, i, p := ChunkOf(sends[m], q), Find(t, sends[m].Key()), Mark(ps[m], q, now);
    FrameStored(sends, ps, t, m, q, now);
    FillOne(sends, ps, t, m, q, now);
    OccupiedMark(sends[m], ps[m], q, now);
    FramesFit(sends[m], p);
    FinishedComplete(sends[m], p);
    var filled := Fill(Grow(t, c, now), i, c);
    SettleWithRoom(filled, i);
    MirrorsAfterFill(sends, ps, t, m, p, filled, i, Settle(filled, i).table);
  }

  lemma SafeWhole(sends: seq<Sending>, ps: seq<Progress>, t: Table, m: nat, p: Progress)
    requires Fitting(sends, ps) && Mirrors(sends, ps, t)
    requires m < |sends| && !sends[m].Multi() && |p.seen| == sends[m].Total()
    ensures Fitting(sends, ps[m := p]) && Mirrors(sends, ps[m := p], t)
  {
    LoadUpdate(sends, ps, m, p);
    var ps' := ps[m := p];
    forall s | s in t ensures HasMessage(sends, ps', s) {
      assert HasMessage(sends, ps, s);
      var k :| SlotFor(sends, ps, s, k);
      assert SlotFor(sends, ps', s, k);
    }
    forall k: nat | k < |sends| ensures HasSlot(sends, ps', t, k) {
      assert HasSlot(sends, ps, t, k);
    }
  }

  lemma SafeFire(sends: seq<Sending>, ps: seq<Progress>, t: Table, now: int)
    requires Fitting(sends, ps) && Mirrors(sends, ps, t)
    requires Safe(sends, ps, Fire(now))
    ensures Collect(t, now) == Purge(t, [])
  {
    forall i | 0 <= i < |t| ensures !Stale(t[i], now) {
      assert t[i] in t && HasMessage(sends, ps, t[i]);
      var m :| SlotFor(sends, ps, t[i], m);
    }
    CollectFresh(t, now);
  }

  ghost predicate AsExpected(sends: seq<Sending>, ps: seq<Progress>, x: Item, o: Outcome)
    requires Fitting(sends, ps) && Possible(sends, x)
  {
    && o.events == Expected(sends, ps, x)
    && Fitting(sends, Advance(sends, ps, x))
    && Mirrors(sends, Advance(sends, ps, x), o.table)
  }

  lemma SafePart(sends: seq<Sending>, ps: seq<Progress>, t: Table, x: Item)
    requires Sendable(sends) && Fitting(sends, ps) && Mirrors(sends, ps, t) && WellFormed(t)
    requires x.Part? && Possible(sends, x) && Unseen(ps, x) && Safe(sends, ps, x)
    requires sends[x.m].Multi()
    ensures AsExpected(sends, ps, x, HandleChunk(t, ChunkOf(sends[x.m], x.q), x.now))
  {
    SafeFrame(sends, ps, t, x.m, x.q, x.now);
  }

  lemma SafeSingle(sends: seq<Sending>, ps: seq<Progress>, t: Table, x: Item)
    requires Fitting(sends, ps) && Mirrors(sends, ps, t)
    requires x.Part? && Possible(sends, x) && !sends[x.m].Multi()
    ensures AsExpected(sends, ps, x, Outcome(t, [Report(sends[x.m])], false))
  {
    SafeWhole(sends, ps, t, x.m, Mark(ps[x.m], x.q, x.now));
  }

  /**
   * While there is room and time, a step reports exactly the message it completes
   * and the table goes on mirroring the messages in flight.
   */
  lemma SafeStep(sends: seq<Sending>, ps: seq<Progress>, t: Table, x: Item)
    requires Sendable(sends) && Fitting(sends, ps) && Mirrors(sends, ps, t) && WellFormed(t)
    requires Possible(sends, x) && Unseen(ps, x) && Safe(sends, ps, x)
    ensures AsExpected(sends, ps, x, Step(t, InputOf(sends, x)))
  {
    if x.Fire? {
      SafeFire(sends, ps, t, x.now);
    } else {
      InputOfPart(sends, x);
      if sends[x.m].Multi() {
        SafePart(sends, ps, t, x);
      } else {
        SafeSingle(sends, ps, t, x);
      }
    }
  }

  // ----- whole runs

  /** A run: every item is a frame of one of the messages or a timer tick, and no frame arrives twice. */
  ghost predicate Trace(sends: seq<Sending>, tr: seq<Item>) {
    && (forall n :: 0 <= n < |tr| ==> Possible(sends, tr[n]))
    && (forall i, j :: 0 <= i < j < |tr| ==> !SameFrame(tr[i], tr[j]))
  }

  predicate SameFrame(x: Item, y: Item) {
    x.Part? && y.Part? && x.m == y.m && x.q == y.q
  }

  predicate Carries(x: Item, m: nat, q: nat) {
    x.Part? && x.m == m && x.q == q
  }

  /** Frame `q` of message `m` is among the first `n` items. */
  ghost predicate Arrived(tr: seq<Item>, m: nat, q: nat, n: nat)
    requires n <= |tr|
  {
    exists k :: 0 <= k < n && Carries(tr[k], m, q)
  }

  /** All frames of message `m` are among the first `n` items. */
  ghost predicate AllArrived(sends: seq<Sending>, tr: seq<Item>, m: nat, n: nat)
    requires m < |sends| && n <= |tr|
  {
    forall q: nat :: q < sends[m].Total() ==> Arrived(tr, m, q, n)
  }

  /** Every frame of every message arrives. */
  ghost predicate NoneMissing(sends: seq<Sending>, tr: seq<Item>) {
    forall m: nat :: m < |sends| ==> AllArrived(sends, tr, m, |tr|)
  }

  ghost function Prog(sends: seq<Sending>, tr: seq<Item>, n: nat): (ps: seq<Progress>)
    requires Trace(sends, tr) && n <= |tr|
    ensures Fitting(sends, ps)
  {
    if n == 0 then Start(sends) else Advance(sends, Prog(sends, tr, n - 1), tr[n - 1])
  }

  ghost function Inputs(sends: seq<Sending>, tr: seq<Item>): seq<Input>
    requires Trace(sends, tr)
  {
    seq(|tr|, n requires 0 <= n < |tr| => InputOf(sends, tr[n]))
  }

  /** There is room and time for step `n`. */
  ghost predicate SafeAt(sends: seq<Sending>, tr: seq<Item>, n: nat)
    requires Trace(sends, tr) && n < |tr|
  {
    Safe(sends, Prog(sends, tr, n), tr[n])
  }

  /** There is room and time up to step `n`. */
  ghost predicate SafeUntil(sends: seq<Sending>, tr: seq<Item>, n: nat)
    requires Trace(sends, tr) && n <= |tr|
  {
    forall k: nat :: k < n ==> SafeAt(sends, tr, k)
  }

  /** A frame of the message arrives at step `n` and the message is reported there. */
  ghost predicate DeliveredAt(sends: seq<Sending>, tr: seq<Item>, m: nat, n: nat)
    requires Trace(sends, tr) && m < |sends| && n < |tr|
  {
    tr[n].Part? && tr[n].m == m && Report(sends[m]) in EventsAt(Inputs(sends, tr), n)
  }

  ghost predicate Delivered(sends: seq<Sending>, tr: seq<Item>, m: nat)
    requires Trace(sends, tr) && m < |sends|
  {
    exists n :: 0 <= n < |tr| && DeliveredAt(sends, tr, m, n)
  }

  lemma {:induction false} SeenArrived(sends: seq<Sending>, tr: seq<Item>, n: nat, m: nat, q: nat)
    requires Trace(sends, tr) && n <= |tr| && m < |sends| && q < sends[m].Total()
    ensures Prog(sends, tr, n)[m].seen[q] <==> Arrived(tr, m, q, n)
  {
    if n > 0 {
      SeenArrived(sends, tr, n - 1, m, q);
      assert Prog(sends, tr, n)[m].seen[q] <==> Prog(sends, tr, n - 1)[m].seen[q] || Carries(tr[n - 1], m, q);
    }
  }

  lemma NextUnseen(sends: seq<Sending>, tr: seq<Item>, n: nat)
    requires Trace(sends, tr) && n < |tr|
    ensures Unseen(Prog(sends, tr, n), tr[n])
  {
    if tr[n].Part? {
      SeenArrived(sends, tr, n, tr[n].m, tr[n].q);
      assert forall k :: 0 <= k < n ==> !SameFrame(tr[k], tr[n]);
    }
  }

  lemma {:induction false} StartEmpty(sends: seq<Sending>)
    ensures Fitting(sends, Start(sends)) && Load(sends, Start(sends)) == 0
  {
    if sends != [] {
      StartEmpty(sends[..|sends| - 1]);
      assert Start(sends)[..|sends| - 1] == Start(sends[..|sends| - 1]);
    }
  }

  lemma ProgNext(sends: seq<Sending>, tr: seq<Item>, n: nat)
    requires Trace(sends, tr) && n < |tr|
    ensures Prog(sends, tr, n + 1) == Advance(sends, Prog(sends, tr, n), tr[n])
  {
  }

  lemma RunNext(sends: seq<Sending>, tr: seq<Item>, n: nat, t: Table)
    requires Trace(sends, tr) && n < |tr| && t == After(Inputs(sends, tr), n)
    ensures After(Inputs(sends, tr), n + 1) == Step(t, InputOf(sends, tr[n])).table
    ensures EventsAt(Inputs(sends, tr), n) == Step(t, InputOf(sends, tr[n])).events
  {
  }

  lemma SafeNext(sends: seq<Sending>, tr: seq<Item>, n: nat, ps: seq<Progress>, t: Table)
    requires Sendable(sends) && Trace(sends, tr) && n < |tr| && ps == Prog(sends, tr, n)
    requires Mirrors(sends, ps, t) && WellFormed(t) && Safe(sends, ps, tr[n])
    ensures AsExpected(sends, ps, tr[n], Step(t, InputOf(sends, tr[n])))
  {
    NextUnseen(sends, tr, n);
    SafeStep(sends, ps, t, tr[n]);
  }

  lemma MirrorsNext(sends: seq<Sending>, ps: seq<Progress>, x: Item, o: Outcome, ps': seq<Progress>, t': Table)
    requires Fitting(sends, ps) && Possible(sends, x) && AsExpected(sends, ps, x, o)
    requires ps' == Advance(sends, ps, x) && t' == o.table
    ensures Fitting(sends, ps') && Mirrors(sends, ps', t')
  {
  }

  lemma MirrorsStart(sends: seq<Sending>)
    ensures Fitting(sends, Start(sends)) && Mirrors(sends, Start(sends), [])
  {
    var ps := Start(sends);
    StartEmpty(sends);
    forall m: nat | m < |sends| ensures HasSlot(sends, ps, [], m) {
      assert ps[m].Untouched();
    }
  }

  /** The progress and the table after `n` items. */
  ghost predicate At(sends: seq<Sending>, tr: seq<Item>, n: nat, ps: seq<Progress>, t: Table) {
    && Trace(sends, tr) && n <= |tr|
    && ps == Prog(sends, tr, n) && t == After(Inputs(sends, tr), n)
  }

  lemma MirrorsBase(sends: seq<Sending>, tr: seq<Item>) returns (ps: seq<Progress>, t: Table)
    requires Trace(sends, tr)
    ensures At(sends, tr, 0, ps, t) && Fitting(sends, ps) && Mirrors(sends, ps, t)
  {
    ps, t := Start(sends), [];
    MirrorsStart(sends);
  }

  lemma MirrorsStep(sends: seq<Sending>, tr: seq<Item>, n: nat, ps: seq<Progress>, t: Table, n': nat)
    returns (ps': seq<Progress>, t': Table)
    requires Sendable(sends) && At(sends, tr, n, ps, t) && Fitting(sends, ps) && Mirrors(sends, ps, t)
    requires n < |tr| && SafeAt(sends, tr, n) && n' == n + 1
    ensures At(sends, tr, n', ps', t') && Fitting(sends, ps') && Mirrors(sends, ps', t')
  {
    SafeNext(sends, tr, n, ps, t);
    ProgNext(sends, tr, n);
    RunNext(sends, tr, n, t);
    ps', t' := Advance(sends, ps, tr[n]), Step(t, InputOf(sends, tr[n])).table;
    MirrorsNext(sends, ps, tr[n], Step(t, InputOf(sends, tr[n])), ps', t');
  }

  lemma SafeBefore(sends: seq<Sending>, tr: seq<Item>, n: nat)
    requires Trace(sends, tr) && n < |tr| && SafeUntil(sends, tr, n + 1)
    ensures SafeUntil(sends, tr, n) && SafeAt(sends, tr, n)
  {
  }

  /** With room and time up to step `n`, the table mirrors the messages in flight. */
  lemma {:induction false} MirrorsRun(sends: seq<Sending>, tr: seq<Item>, n: nat) returns (ps: seq<Progress>, t: Table)
    requires Sendable(sends) && Trace(sends, tr) && n <= |tr| && SafeUntil(sends, tr, n)
    ensures At(sends, tr, n, ps, t) && Fitting(sends, ps) && Mirrors(sends, ps, t)
  {
    if n == 0 {
      ps, t := MirrorsBase(sends, tr);
    } else {
      SafeBefore(sends, tr, n - 1);
      ps, t := MirrorsRun(sends, tr, n - 1);
      ps, t := MirrorsStep(sends, tr, n - 1, ps, t, n);
    }
  }

  lemma EventsExpected(sends: seq<Sending>, tr: seq<Item>, n: nat)
    requires Sendable(sends) && Trace(sends, tr) && n < |tr| && SafeUntil(sends, tr, n + 1)
    ensures EventsAt(Inputs(sends, tr), n) == Expected(sends, Prog(sends, tr, n), tr[n])
  {
    var ps, t := MirrorsRun(sends, tr, n);
    assert SafeAt(sends, tr, n);
    SafeNext(sends, tr, n, ps, t);
    RunNext(sends, tr, n, t);
  }

  lemma ProgStep(sends: seq<Sending>, tr: seq<Item>, n: nat)
    requires Trace(sends, tr) && n < |tr| && tr[n].Part?
    ensures Finishes(sends, Prog(sends, tr, n), tr[n]) <==> Prog(sends, tr, n + 1)[tr[n].m].Finished()
  {
  }

  lemma StartUnfinished(sends: seq<Sending>, m: nat)
    requires m < |sends|
    ensures !Start(sends)[m].Finished()
  {
    assert !Start(sends)[m].seen[0];
  }

  lemma {:induction false} FinishingStep(sends: seq<Sending>, tr: seq<Item>, m: nat, n: nat) returns (k: nat)
    requires Trace(sends, tr) && n <= |tr| && m < |sends| && Prog(sends, tr, n)[m].Finished()
    ensures k < n && tr[k].Part? && tr[k].m == m && Finishes(sends, Prog(sends, tr, k), tr[k])
  {
    if n == 0 {
      StartUnfinished(sends, m);
      assert false;
    } else if Prog(sends, tr, n - 1)[m].Finished() {
      k := FinishingStep(sends, tr, m, n - 1);
    } else {
      k := n - 1;
    }
  }

  /**
   * As long as there is room and time, each step reports exactly the message whose
   * last missing frame it brings, byte for byte, and nothing else.
   */
  lemma ReportedAtLastFrame(sends: seq<Sending>, tr: seq<Item>, n: nat)
    requires Sendable(sends) && Trace(sends, tr) && n < |tr| && SafeUntil(sends, tr, n + 1)
    ensures EventsAt(Inputs(sends, tr), n)
         == if tr[n].Part? && AllArrived(sends, tr, tr[n].m, n + 1) then [Report(sends[tr[n].m])] else []
  {
    EventsExpected(sends, tr, n);
    if tr[n].Part? {
      ProgStep(sends, tr, n);
      FinishedArrived(sends, tr, tr[n].m, n + 1);
    }
  }

  lemma FinishedArrived(sends: seq<Sending>, tr: seq<Item>, m: nat, n: nat)
    requires Trace(sends, tr) && n <= |tr| && m < |sends|
    ensures Prog(sends, tr, n)[m].Finished() <==> AllArrived(sends, tr, m, n)
  {
    forall q: nat | q < sends[m].Total() ensures Prog(sends, tr, n)[m].seen[q] <==> Arrived(tr, m, q, n) {
      SeenArrived(sends, tr, n, m, q);
    }
  }

  // ----- what happens without room or time

  /** No slot has this key. */
  predicate Absent(t: Table, key: string) {
    Find(t, key) == |t|
  }

  /** A step without room or time drops an unfinished message other than the arriving one. */
  ghost predicate Drops(sends: seq<Sending>, ps: seq<Progress>, x: Item, t': Table, m: nat)
    requires Fitting(sends, ps)
  {
    && m < |sends| && sends[m].Multi() && ps[m].InFlight() && !(x.Part? && x.m == m)
    && Absent(t', sends[m].Key())
  }

  lemma NoRoomDrops(sends: seq<Sending>, ps: seq<Progress>, t: Table, m: nat, q: nat, now: int) returns (s: Slot)
    requires Sendable(sends) && Fitting(sends, ps) && Mirrors(sends, ps, t) && WellFormed(t)
    requires m < |sends| && sends[m].Multi() && q < sends[m].Total() && !ps[m].seen[q]
    requires Load(sends, ps) + |sends[m].Piece(q)| > BUDGET_BYTES
    ensures s in t && s.key != sends[m].Key()
    ensures Absent(HandleChunk(t, ChunkOf(sends[m], q), now).table, s.key)
  {
    var c, i, p := ChunkOf(sends[m], q), Find(t, sends[m].Key()), Mark(ps[m], q, now);
    FrameStored(sends, ps, t, m, q, now);
    FillOne(sends, ps, t, m, q, now);
    FramesFit(sends[m], p);
    s := EvictsOne(Fill(Grow(t, c, now), i, c), i);
  }

  lemma OverBudgetEvicts(filled: Table, i: nat)
    requires WellFormed(filled) && i < |filled|
    requires filled[i].Bytes() <= MESSAGE_MAX_BYTES && TableBytes(filled) > BUDGET_BYTES
    ensures Evict(filled, filled[i].key).dropped != []
  {
    EvictDropsLeastRun(filled, filled[i].key);
    DroppingNothing(filled);
    assert KeysOf([]) == {};
  }

  lemma EvictsOne(filled: Table, i: nat) returns (s: Slot)
    requires WellFormed(filled) && i < |filled|
    requires filled[i].Bytes() <= MESSAGE_MAX_BYTES && TableBytes(filled) > BUDGET_BYTES
    ensures s in filled && s.key != filled[i].key
    ensures Absent(Settle(filled, i).table, s.key)
  {
    var key := filled[i].key;
    var purge := Evict(filled, key);
    OverBudgetEvicts(filled, i);
    EvictInAgeOrder(filled, key);
    s := purge.dropped[0];
    assert s in purge.dropped;
    AbsentAfterEvict(filled, key, s);
    DroppedAbsent(purge.kept, key, s.key);
  }

  lemma AbsentAfterEvict(filled: Table, key: string, s: Slot)
    requires DistinctKeys(filled) && s in Evict(filled, key).dropped
    requires forall i :: 0 <= i < |filled| && filled[i].key == key ==> filled[i].Bytes() <= MESSAGE_MAX_BYTES
    ensures DistinctKeys(Evict(filled, key).kept) && Absent(Evict(filled, key).kept, s.key)
  {
    var purge := Evict(filled, key);
    EvictDropsLeastRun(filled, key);
    assert s.key in KeysOf(purge.dropped);
    DroppingMembers(filled, KeysOf(purge.dropped));
    DroppingDistinct(filled, KeysOf(purge.dropped));
    assert forall i :: 0 <= i < |purge.kept| ==> purge.kept[i] in purge.kept;
  }

  lemma DroppedAbsent(t: Table, key: string, gone: string)
    requires DistinctKeys(t) && Absent(t, gone)
    ensures Absent(WithoutKey(t, key), gone)
  {
    WithoutKeyDrops(t, key);
    DroppingMembers(t, {key});
    var kept := Dropping(t, {key});
    assert forall i :: 0 <= i < |kept| ==> kept[i] in kept;
  }

  lemma SlotsMessage(sends: seq<Sending>, ps: seq<Progress>, t: Table, s: Slot) returns (m: nat)
    requires Fitting(sends, ps) && SlotsMirrored(sends, ps, t) && s in t
    ensures m < |sends| && sends[m].Multi() && ps[m].InFlight() && s.key == sends[m].Key()
  {
    assert HasMessage(sends, ps, s);
    m :| SlotFor(sends, ps, s, m);
  }

  lemma NoRoomLoses(sends: seq<Sending>, ps: seq<Progress>, t: Table, x: Item) returns (m: nat)
    requires Sendable(sends) && Fitting(sends, ps) && Mirrors(sends, ps, t) && WellFormed(t)
    requires x.Part? && Possible(sends, x) && Unseen(ps, x) && !Safe(sends, ps, x)
    ensures sends[x.m].Multi() && Drops(sends, ps, x, HandleChunk(t, ChunkOf(sends[x.m], x.q), x.now).table, m)
  {
    var s := NoRoomDrops(sends, ps, t, x.m, x.q, x.now);
    m := SlotsMessage(sends, ps, t, s);
  }

  lemma NoTimeLoses(sends: seq<Sending>, ps: seq<Progress>, t: Table, x: Item) returns (m: nat)
    requires Fitting(sends, ps) && Mirrors(sends, ps, t) && WellFormed(t)
    requires x.Fire? && !Safe(sends, ps, x)
    ensures Drops(sends, ps, x, Collect(t, x.now).kept, m)
  {
    m :| 0 <= m < |sends| && sends[m].Multi() && ps[m].InFlight() && x.now - ps[m].first >= TIMEOUT_MS;
    StaleGone(sends, ps, t, m, x.now);
  }

  lemma UnsafeDrops(sends: seq<Sending>, ps: seq<Progress>, t: Table, x: Item) returns (m: nat)
    requires Sendable(sends) && Fitting(sends, ps) && Mirrors(sends, ps, t) && WellFormed(t)
    requires Possible(sends, x) && Unseen(ps, x) && !Safe(sends, ps, x)
    ensures Drops(sends, ps, x, Step(t, InputOf(sends, x)).table, m)
  {
    if x.Fire? {
      m := NoTimeLoses(sends, ps, t, x);
    } else {
      m := NoRoomLoses(sends, ps, t, x);
      InputOfPart(sends, x);
      assert Step(t, InputOf(sends, x)) == HandleChunk(t, ChunkOf(sends[x.m], x.q), x.now);
    }
  }

  lemma StaleGone(sends: seq<Sending>, ps: seq<Progress>, t: Table, m: nat, now: int)
    requires Fitting(sends, ps) && Mirrors(sends, ps, t) && WellFormed(t)
    requires m < |sends| && sends[m].Multi() && ps[m].InFlight() && now - ps[m].first >= TIMEOUT_MS
    ensures Absent(Collect(t, now).kept, sends[m].Key())
  {
    assert HasSlot(sends, ps, t, m);
    StaleNotKept(t, SlotOf(sends[m], ps[m]), now);
  }

  lemma StaleNotKept(t: Table, r: Slot, now: int)
    requires DistinctKeys(t) && r in t && Stale(r, now)
    ensures Absent(Collect(t, now).kept, r.key)
  {
    CollectMembers(t, now);
    var kept := Collect(t, now).kept;
    forall i | 0 <= i < |kept| ensures kept[i].key != r.key {
      assert kept[i] in kept;
      var j :| 0 <= j < |t| && t[j] == kept[i];
      var k :| 0 <= k < |t| && t[k] == r;
    }
  }

  /** The slot has no frame `q`, and none under a fractional number that could stand in for it. */
  predicate SlotLacks(s: Slot, q: nat) {
    q < |s.frames| && s.frames[q].None? && s.odd == []
  }

  /** No slot with this key has frame `q`. */
  ghost predicate LackedByAll(t: Table, key: string, q: nat) {
    forall s :: s in t && s.key == key ==> SlotLacks(s, q)
  }

  lemma LackingIncomplete(s: Slot, q: nat)
    requires |s.frames| == s.total && SlotLacks(s, q)
    ensures !s.Complete()
  {
    CountBounds(s.frames);
  }

  /** The slot with this key, if there is one, has no frame `q`. */
  predicate Lacks(t: Table, key: string, q: nat) {
    var i := Find(t, key);
    i == |t| || SlotLacks(t[i], q)
  }

  lemma LacksAll(t: Table, key: string, q: nat)
    requires DistinctKeys(t)
    ensures Lacks(t, key, q) <==> LackedByAll(t, key, q)
  {
    var i := Find(t, key);
    if i < |t| {
      assert t[i] in t;
    }
  }

  lemma FilledLacks(sends: seq<Sending>, t: Table, x: Item, m: nat, q: nat)
    requires Sendable(sends) && Possible(sends, x) && WellFormed(t) && Stores(t, InputOf(sends, x))
    requires m < |sends| && sends[m].Multi() && q < sends[m].Total()
    requires !Carries(x, m, q) && LackedByAll(t, sends[m].Key(), q)
    ensures
      var s := Filled(t, InputOf(sends, x));
      s.key == sends[m].Key() ==> SlotLacks(s, q)
  {
    InputOfPart(sends, x);
    GrownSlot(t, InputOf(sends, x));
    var c := ChunkOf(sends[x.m], x.q);
    if MessageKey(c.addon, c.id) == sends[m].Key() {
      assert x.m == m;
    }
  }

  lemma LackedStore(sends: seq<Sending>, t: Table, x: Item, y: Input, t': Table, m: nat, q: nat)
    requires Sendable(sends) && Possible(sends, x) && WellFormed(t) && y == InputOf(sends, x) && Stores(t, y)
    requires m < |sends| && sends[m].Multi() && q < sends[m].Total()
    requires !Carries(x, m, q) && LackedByAll(t, sends[m].Key(), q) && t' == Step(t, y).table
    ensures LackedByAll(t', sends[m].Key(), q)
  {
    FilledLacks(sends, t, x, m, q);
    StoringFills(t, y);
  }

  lemma CompletedComplete(t: Table, y: Input)
    requires WellFormed(t) && Stores(t, y)
    ensures |Filled(t, y).frames| == Filled(t, y).total
    ensures Completed(t, y).Some? ==> Completed(t, y).value.Complete()
  {
    GrownSlot(t, y);
  }

  /** A slot that lacks a frame is not the one that a step completes. */
  lemma NotCompletedLacking(sends: seq<Sending>, t: Table, x: Item, y: Input, m: nat, q: nat)
    requires Sendable(sends) && Possible(sends, x) && WellFormed(t) && y == InputOf(sends, x) && Stores(t, y)
    requires m < |sends| && sends[m].Multi() && q < sends[m].Total()
    requires !Carries(x, m, q) && LackedByAll(t, sends[m].Key(), q)
    ensures Completed(t, y).Some? ==> Completed(t, y).value.key != sends[m].Key()
  {
    FilledLacks(sends, t, x, m, q);
    StoringFills(t, y);
    CompletedComplete(t, y);
    var s := Filled(t, y);
    if s.key == sends[m].Key() {
      LackingIncomplete(s, q);
    }
  }

  lemma LackedStep(sends: seq<Sending>, t: Table, x: Item, m: nat, q: nat)
    requires Sendable(sends) && Possible(sends, x) && WellFormed(t)
    requires m < |sends| && sends[m].Multi() && q < sends[m].Total()
    requires !Carries(x, m, q) && LackedByAll(t, sends[m].Key(), q)
    ensures LackedByAll(Step(t, InputOf(sends, x)).table, sends[m].Key(), q)
    ensures Completed(t, InputOf(sends, x)).Some? ==> Completed(t, InputOf(sends, x)).value.key != sends[m].Key()
  {
    var y := InputOf(sends, x);
    if Stores(t, y) {
      LackedStore(sends, t, x, y, Step(t, y).table, m, q);
      NotCompletedLacking(sends, t, x, y, m, q);
    } else {
      NonStoringShrinks(t, y);
    }
  }

  /** A frame that is lacking goes on lacking until it arrives, and the message is not completed without it. */
  lemma LacksStep(sends: seq<Sending>, t: Table, x: Item, m: nat, q: nat)
    requires Sendable(sends) && Possible(sends, x) && WellFormed(t)
    requires m < |sends| && sends[m].Multi() && q < sends[m].Total()
    requires !Carries(x, m, q) && Lacks(t, sends[m].Key(), q)
    ensures Lacks(Step(t, InputOf(sends, x)).table, sends[m].Key(), q)
    ensures Completed(t, InputOf(sends, x)).Some? ==> Completed(t, InputOf(sends, x)).value.key != sends[m].Key()
  {
    var y := InputOf(sends, x);
    LacksAll(t, sends[m].Key(), q);
    LackedStep(sends, t, x, m, q);
    StepKeepsWellFormed(t, y);
    LacksAll(Step(t, y).table, sends[m].Key(), q);
  }

  /** Frame `q` of message `m` is not among the items from `start` on. */
  ghost predicate NeverFrom(tr: seq<Item>, m: nat, q: nat, start: nat) {
    forall k :: start <= k < |tr| ==> !Carries(tr[k], m, q)
  }

  /** The key of a completed slot is that of the arriving frame. */
  lemma CompletedKey(sends: seq<Sending>, t: Table, x: Item)
    requires Possible(sends, x) && WellFormed(t) && x.Part? && sends[x.m].Multi()
    ensures Completed(t, InputOf(sends, x)).Some? ==> Completed(t, InputOf(sends, x)).value.key == sends[x.m].Key()
  {
    InputOfPart(sends, x);
    var y := InputOf(sends, x);
    if Completed(t, y).Some? {
      NonStoringNone(t, y);
      StoringFills(t, y);
      GrownSlot(t, y);
    }
  }

  lemma NonStoringNone(t: Table, y: Input)
    requires WellFormed(t) && Completed(t, y).Some?
    ensures Stores(t, y)
  {
  }

  lemma NotDeliveredWithout(sends: seq<Sending>, t: Table, x: Item, q: nat)
    requires Sendable(sends) && Possible(sends, x) && WellFormed(t) && x.Part?
    requires sends[x.m].Multi() && q < sends[x.m].Total() && x.q != q && Lacks(t, sends[x.m].Key(), q)
    ensures Report(sends[x.m]) !in Step(t, InputOf(sends, x)).events
  {
    InputOfPart(sends, x);
    LacksStep(sends, t, x, x.m, q);
    CompletedKey(sends, t, x);
    CompletedDelivers(t, InputOf(sends, x));
  }

  /** An unfinished message has a frame that has arrived, and will not arrive again. */
  lemma ArrivedBefore(sends: seq<Sending>, tr: seq<Item>, m: nat, n0: nat) returns (q: nat)
    requires Trace(sends, tr) && n0 < |tr| && m < |sends| && !Prog(sends, tr, n0)[m].Untouched()
    ensures q < sends[m].Total() && NeverFrom(tr, m, q, n0)
  {
    q :| 0 <= q < sends[m].Total() && Prog(sends, tr, n0)[m].seen[q];
    SeenArrived(sends, tr, n0, m, q);
    var j :| 0 <= j < n0 && Carries(tr[j], m, q);
    assert forall k :: n0 <= k < |tr| ==> !SameFrame(tr[j], tr[k]);
  }

  lemma LacksNext(sends: seq<Sending>, tr: seq<Item>, m: nat, q: nat, n: nat, t: Table, n': nat) returns (t': Table)
    requires Sendable(sends) && Trace(sends, tr) && n' == n + 1 <= |tr| && m < |sends| && sends[m].Multi() && q < sends[m].Total()
    requires t == After(Inputs(sends, tr), n) && !Carries(tr[n], m, q) && Lacks(t, sends[m].Key(), q)
    ensures t' == After(Inputs(sends, tr), n') && Lacks(t', sends[m].Key(), q)
  {
    RunNext(sends, tr, n, t);
    LacksStep(sends, t, tr[n], m, q);
    t' := Step(t, InputOf(sends, tr[n])).table;
  }

  /** A frame that has not arrived is lacking. */
  lemma {:induction false} LacksUntil(sends: seq<Sending>, tr: seq<Item>, m: nat, q: nat, start: nat, before: Table, n: nat, key: string)
    returns (t: Table)
    requires Sendable(sends) && Trace(sends, tr) && start <= n <= |tr|
    requires m < |sends| && sends[m].Multi() && q < sends[m].Total() && key == sends[m].Key()
    requires forall k :: start <= k < n ==> !Carries(tr[k], m, q)
    requires before == After(Inputs(sends, tr), start) && Lacks(before, key, q)
    ensures t == After(Inputs(sends, tr), n) && Lacks(t, key, q)
    decreases n - start
  {
    t := before;
    if start < n {
      var next := start + 1;
      t := LacksNext(sends, tr, m, q, start, t, next);
      t := LacksUntil(sends, tr, m, q, next, t, n, key);
    }
  }

  /** The message is not delivered while one of its frames is lacking. */
  lemma NotWhileLacking(sends: seq<Sending>, tr: seq<Item>, m: nat, q: nat, start: nat, before: Table, n: nat)
    requires Sendable(sends) && Trace(sends, tr) && start <= n < |tr|
    requires tr[n].Part? && tr[n].m == m && m < |sends| && sends[m].Multi() && q < sends[m].Total()
    requires forall k :: start <= k <= n ==> !Carries(tr[k], m, q)
    requires before == After(Inputs(sends, tr), start) && Lacks(before, sends[m].Key(), q)
    ensures Report(sends[m]) !in EventsAt(Inputs(sends, tr), n)
  {
    var t := LacksUntil(sends, tr, m, q, start, before, n, sends[m].Key());
    NotDeliveredWithout(sends, t, tr[n], q);
    RunNext(sends, tr, n, t);
  }

  lemma NotBefore(sends: seq<Sending>, tr: seq<Item>, m: nat, n: nat, n0: nat)
    requires Sendable(sends) && Trace(sends, tr) && n < n0 < |tr|
    requires m < |sends| && sends[m].Multi() && tr[n].Part? && tr[n].m == m && !Prog(sends, tr, n0)[m].Finished()
    ensures Report(sends[m]) !in EventsAt(Inputs(sends, tr), n)
  {
    var q :| 0 <= q < sends[m].Total() && !Prog(sends, tr, n0)[m].seen[q];
    SeenArrived(sends, tr, n0, m, q);
    NotWhileLacking(sends, tr, m, q, 0, [], n);
  }

  lemma NotAfterDrop(sends: seq<Sending>, tr: seq<Item>, n0: nat, start: nat, t: Table, m: nat, n: nat)
    requires Sendable(sends) && Trace(sends, tr) && start == n0 + 1 && n0 <= n < |tr| && tr[n].Part? && tr[n].m == m
    requires t == After(Inputs(sends, tr), start) && Drops(sends, Prog(sends, tr, n0), tr[n0], t, m)
    ensures Report(sends[m]) !in EventsAt(Inputs(sends, tr), n)
  {
    var q := ArrivedBefore(sends, tr, m, n0);
    NotWhileLacking(sends, tr, m, q, start, t, n);
  }

  lemma DroppedNeverDelivered(sends: seq<Sending>, tr: seq<Item>, n0: nat, start: nat, t: Table, m: nat, n: nat)
    requires Sendable(sends) && Trace(sends, tr) && start == n0 + 1 <= |tr| && n < |tr|
    requires t == After(Inputs(sends, tr), start) && Drops(sends, Prog(sends, tr, n0), tr[n0], t, m)
    ensures !DeliveredAt(sends, tr, m, n)
  {
    if tr[n].Part? && tr[n].m == m {
      if n < n0 {
        NotBefore(sends, tr, m, n, n0);
      } else {
        NotAfterDrop(sends, tr, n0, start, t, m, n);
      }
    }
  }

  lemma {:induction false} FirstUnsafe(sends: seq<Sending>, tr: seq<Item>, n: nat) returns (n0: nat)
    requires Trace(sends, tr) && n <= |tr| && !SafeUntil(sends, tr, n)
    ensures n0 < n && SafeUntil(sends, tr, n0) && !Safe(sends, Prog(sends, tr, n0), tr[n0])
  {
    if SafeUntil(sends, tr, n - 1) {
      n0 := n - 1;
    } else {
      n0 := FirstUnsafe(sends, tr, n - 1);
    }
  }

  lemma LosesOne(sends: seq<Sending>, tr: seq<Item>, n0: nat, start: nat, t: Table) returns (m: nat)
    requires Sendable(sends) && Trace(sends, tr) && start == n0 + 1 <= |tr| && SafeUntil(sends, tr, n0)
    requires !Safe(sends, Prog(sends, tr, n0), tr[n0]) && t == After(Inputs(sends, tr), start)
    ensures Drops(sends, Prog(sends, tr, n0), tr[n0], t, m)
  {
    var ps, t0 := MirrorsRun(sends, tr, n0);
    NextUnseen(sends, tr, n0);
    RunNext(sends, tr, n0, t0);
    m := UnsafeDrops(sends, ps, t0, tr[n0]);
  }

  lemma DeliveredAtLast(sends: seq<Sending>, tr: seq<Item>, m: nat)
    requires Sendable(sends) && Trace(sends, tr) && NoneMissing(sends, tr) && SafeUntil(sends, tr, |tr|) && m < |sends|
    ensures Delivered(sends, tr, m)
  {
    FinishedArrived(sends, tr, m, |tr|);
    var n := FinishingStep(sends, tr, m, |tr|);
    EventsExpected(sends, tr, n);
    assert DeliveredAt(sends, tr, m, n);
  }

  // ----- what comes later does not change what has happened

  lemma {:induction false} AfterSame(xs: seq<Input>, ys: seq<Input>, n: nat)
    requires n <= |xs| && n <= |ys| && forall k :: 0 <= k < n ==> xs[k] == ys[k]
    ensures After(xs, n) == After(ys, n)
  {
    if n > 0 {
      AfterSame(xs, ys, n - 1);
    }
  }

  lemma {:induction false} ProgSame(sends: seq<Sending>, tr: seq<Item>, longer: seq<Item>, n: nat)
    requires Trace(sends, tr) && Trace(sends, longer) && tr <= longer && n <= |tr|
    ensures Prog(sends, tr, n) == Prog(sends, longer, n)
  {
    if n > 0 {
      ProgSame(sends, tr, longer, n - 1);
      ProgNext(sends, tr, n - 1);
      ProgNext(sends, longer, n - 1);
    }
  }

  lemma LostInAll(sends: seq<Sending>, tr: seq<Item>, longer: seq<Item>, n0: nat, start: nat, t: Table, m: nat)
    requires Sendable(sends) && Trace(sends, tr) && start == n0 + 1 <= |tr|
    requires t == After(Inputs(sends, tr), start) && Drops(sends, Prog(sends, tr, n0), tr[n0], t, m)
    requires Trace(sends, longer) && tr <= longer
    ensures !Delivered(sends, longer, m)
  {
    ProgSame(sends, tr, longer, n0);
    AfterSame(Inputs(sends, tr), Inputs(sends, longer), start);
    forall n | 0 <= n < |longer| ensures !DeliveredAt(sends, longer, m, n) {
      DroppedNeverDelivered(sends, longer, n0, start, t, m, n);
    }
  }

  /**
   * As soon as a frame finds no room or a tick finds an unfinished message too old,
   * one message is lost for good: it is not delivered however the run goes on.
   */
  lemma LostForGood(sends: seq<Sending>, tr: seq<Item>) returns (m: nat)
    requires Sendable(sends) && Trace(sends, tr) && !SafeUntil(sends, tr, |tr|)
    ensures m < |sends|
    ensures forall longer :: Trace(sends, longer) && tr <= longer ==> !Delivered(sends, longer, m)
  {
    var n0 := FirstUnsafe(sends, tr, |tr|);
    var start := n0 + 1;
    var t := After(Inputs(sends, tr), start);
    m := LosesOne(sends, tr, n0, start, t);
    forall longer | Trace(sends, longer) && tr <= longer ensures !Delivered(sends, longer, m) {
      LostInAll(sends, tr, longer, n0, start, t, m);
    }
  }

  ghost predicate AllDelivered(sends: seq<Sending>, tr: seq<Item>)
    requires Trace(sends, tr)
  {
    forall m: nat :: m < |sends| ==> Delivered(sends, tr, m)
  }

  /**
   * End to end: when every frame of every message arrives once, in any interleaving
   * and with the timer firing at any moments, every message is delivered if and
   * only if each arriving frame fits into the budget beside the unfinished messages
   * and no tick finds an unfinished message a timeout old. The condition speaks of
   * the trace alone, not of the receiver.
   */
  lemma DeliveredExactly(sends: seq<Sending>, tr: seq<Item>)
    requires Sendable(sends) && Trace(sends, tr) && NoneMissing(sends, tr)
    ensures AllDelivered(sends, tr) <==> SafeUntil(sends, tr, |tr|)
  {
    if SafeUntil(sends, tr, |tr|) {
      forall m: nat | m < |sends| ensures Delivered(sends, tr, m) {
        DeliveredAtLast(sends, tr, m);
      }
    } else {
      var m := LostForGood(sends, tr);
      assert !Delivered(sends, tr, m);
    }
  }

  lemma SingleOnce(sends: seq<Sending>, tr: seq<Item>, a: nat, b: nat)
    requires Trace(sends, tr) && a < b < |tr| && tr[a].Part? && tr[b].Part? && tr[a].m == tr[b].m
    ensures tr[a].q != tr[b].q && sends[tr[a].m].Multi()
  {
    assert Possible(sends, tr[a]) && Possible(sends, tr[b]) && !SameFrame(tr[a], tr[b]);
  }

  lemma NotBeforeFrame(sends: seq<Sending>, tr: seq<Item>, a: nat, b: nat)
    requires Sendable(sends) && Trace(sends, tr) && a < b < |tr|
    requires tr[a].Part? && tr[b].Part? && tr[a].m == tr[b].m
    ensures Report(sends[tr[a].m]) !in EventsAt(Inputs(sends, tr), a)
  {
    var m, q := tr[a].m, tr[b].q;
    SingleOnce(sends, tr, a, b);
    forall k | 0 <= k <= a ensures !Carries(tr[k], m, q) {
      assert !SameFrame(tr[k], tr[b]);
    }
    assert Possible(sends, tr[b]);
    NotWhileLacking(sends, tr, m, q, 0, [], a);
  }

  /** No message is delivered twice in any run, with room and time or without. */
  lemma DeliveredOnce(sends: seq<Sending>, tr: seq<Item>, m: nat, a: nat, b: nat)
    requires Sendable(sends) && Trace(sends, tr)
    requires m < |sends| && a < |tr| && b < |tr|
    requires DeliveredAt(sends, tr, m, a) && DeliveredAt(sends, tr, m, b)
    ensures a == b
  {
    if a < b {
      NotBeforeFrame(sends, tr, a, b);
    } else if b < a {
      NotBeforeFrame(sends, tr, b, a);
    }
  }

  // ----- on the wire

  /**
   * A frame that the sender put on the channel is, for the receiver, the input that
   * this module has been reasoning about.
   */
  lemma OnTheWire(quote: Quote, read: ReadHeader, sends: seq<Sending>, x: Item)
    requires JsonLaw(quote, read) && Possible(sends, x) && x.Part? && sends[x.m].m.addon != ""
    requires x.q < SentPrefix(quote, sends[x.m].m, sends[x.m].id)
    ensures
      var wire := Wire(quote, sends[x.m].m, sends[x.m].id, SentPrefix(quote, sends[x.m].m, sends[x.m].id));
      InputOf(sends, x) == Arrival(Parse(read, wire[x.q]), x.now)
  {
    ParseEncode(quote, read, FrameAt(sends[x.m].m, sends[x.m].id, x.q));
  }
}
