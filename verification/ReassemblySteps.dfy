/**
 * What one input does to the table of partly received messages, said in terms of
 * the slots in it and the frames in the slots: repeats, refusals, the frame that is
 * stored, what is dropped for it, and what is reported.
 */
module ReassemblySteps {
  import opened Common
  import opened Reassembly
  import opened ReassemblyInvariant
  import opened ReassemblyRuns

  /** The key of a chunk: add-on and id with the separator U+001F between them. */
  function KeyOf(c: Chunk): string {
    c.addon + [0x1f as char] + c.id
  }

  lemma FoundAt(t: Table, s: Slot)
    requires DistinctKeys(t) && s in t
    ensures Find(t, s.key) < |t| && t[Find(t, s.key)] == s
  {
    var j :| 0 <= j < |t| && t[j] == s;
  }

  lemma NotFound(t: Table, key: string)
    requires forall s :: s in t ==> s.key != key
    ensures Find(t, key) == |t|
  {
    if Find(t, key) < |t| {
      assert t[Find(t, key)] in t;
    }
  }

  predicate Numbered(c: Chunk) {
    1.0 <= c.total && 0.0 <= c.seqNo < c.total
  }

  /** The slot is that of the chunk's message, with the same total and mime. */
  predicate Belongs(c: Chunk, s: Slot) {
    s.key == KeyOf(c) && s.total as real == c.total && s.mime == c.mime
  }

  /** The chunk brings a frame that the slot of its message has already. */
  ghost predicate IsRepeat(t: Table, x: Input) {
    && x.Arrival? && x.parsed.Chunked? && Numbered(x.parsed.chunk)
    && exists s :: s in t && Belongs(x.parsed.chunk, s) && s.At(x.parsed.chunk.seqNo).Some?
  }

  /** A repeated frame changes nothing and reports nothing, whatever body it carries. */
  lemma RepeatIgnored(t: Table, x: Input)
    requires WellFormed(t) && IsRepeat(t, x)
    ensures Step(t, x).table == t && Step(t, x).events == [] && !Step(t, x).threw
  {
    var c := x.parsed.chunk;
    var s :| s in t && Belongs(c, s) && s.At(c.seqNo).Some?;
    FoundAt(t, s);
  }

  /**
   * What is refused changes nothing and is reported once: a buffer that is no frame,
   * a frame number out of range, and a frame whose message is known with another
   * total or mime.
   */
  lemma RefusedReported(t: Table, fault: FrameFault, c: Chunk, now: int)
    requires WellFormed(t)
    ensures Step(t, Arrival(Rejected(fault), now)) == Outcome(t, [FrameError(fault)], false)
    ensures c.total < 1.0 || c.seqNo < 0.0 || c.seqNo >= c.total ==>
              Step(t, Arrival(Chunked(c), now)) == Outcome(t, [RangeFault], false)
    ensures Numbered(c) && (exists s :: s in t && s.key == KeyOf(c) && (s.total as real != c.total || s.mime != c.mime)) ==>
              Step(t, Arrival(Chunked(c), now)) == Outcome(t, [MismatchFault], false)
  {
    if s :| s in t && s.key == KeyOf(c) && (s.total as real != c.total || s.mime != c.mime) {
      FoundAt(t, s);
    }
  }

  /** A message of one frame is reported at once and leaves the table as it was; an exception leaves it so too. */
  lemma WholeReported(t: Table, addon: string, mime: string, bytes: Bytes, c: Chunk, now: int)
    requires WellFormed(t)
    ensures Step(t, Arrival(Whole(addon, mime, bytes), now)) == Outcome(t, [Binary(addon, mime, bytes)], false)
    ensures Step(t, Arrival(Threw, now)) == Outcome(t, [], true)
    ensures Numbered(c) && (forall s :: s in t ==> s.key != KeyOf(c)) && (c.total > 4_294_967_295.0 || c.total != c.total.Floor as real) ==>
              Step(t, Arrival(Chunked(c), now)) == Outcome(t, [], true)
  {
    if forall s :: s in t ==> s.key != KeyOf(c) {
      NotFound(t, KeyOf(c));
    }
  }

  // ----- a frame that is stored

  /** The slot before the frame: the one in the table, or an empty one that is put at its end. */
  ghost predicate SlotBefore(t: Table, c: Chunk, now: int, was: Slot) {
    if was in t then Belongs(c, was)
    else
      && (forall s :: s in t ==> s.key != KeyOf(c))
      && c.total == c.total.Floor as real && 0 <= c.total.Floor <= 4_294_967_295
      && was == Slot(KeyOf(c), c.id, c.addon, c.mime, c.total.Floor, seq(c.total.Floor, _ => None), [], now)
  }

  /** The slot with one frame more; everything else about it is as before. */
  ghost predicate OneFrameMore(was: Slot, c: Chunk, s: Slot) {
    && s.key == was.key && s.id == was.id && s.addon == was.addon && s.mime == was.mime
    && s.total == was.total && s.firstSeenAt == was.firstSeenAt
    && (forall x :: s.At(x) == if x == c.seqNo then Some(c.body) else was.At(x))
    && s.Bytes() == was.Bytes() + |c.body| && s.Received() == was.Received() + 1
  }

  /** The table with the slot replaced in its place, or put at the end. */
  ghost function WithSlot(t: Table, was: Slot, s: Slot): Table {
    if was in t then
      var i :| 0 <= i < |t| && t[i] == was;
      t[i := s]
    else t + [s]
  }

  lemma PlaceOf(t: Table, was: Slot, s: Slot, i: nat)
    requires DistinctKeys(t) && i < |t| && t[i] == was
    ensures WithSlot(t, was, s) == t[i := s]
  {
    assert forall j :: 0 <= j < |t| && t[j] == was ==> j == i;
  }

  lemma StoresInPlace(t: Table, c: Chunk, now: int, was: Slot, s: Slot, i: nat)
    requires WellFormed(t) && Numbered(c) && was in t && Belongs(c, was) && was.At(c.seqNo).None? && i == Find(t, KeyOf(c))
    requires NumberFits(c, was) && s == was.With(c.seqNo, c.body)
    ensures i < |t| && t[i] == was && WithSlot(t, was, s) == t[i := s]
    ensures HandleChunk(t, c, now) == Settle(t[i := s], i) && WellFormed(t[i := s])
    ensures TableBytes(t[i := s]) == TableBytes(t) + |c.body|
  {
    FoundAt(t, was);
    PlaceOf(t, was, s, i);
    FillAdds(t, i, c);
  }

  lemma GrowsAtEnd(t: Table, c: Chunk, now: int, was: Slot)
    requires WellFormed(t) && Numbered(c) && was !in t && SlotBefore(t, c, now, was)
    ensures was == NewSlot(c, now) && Find(t, KeyOf(c)) == |t| && Place(t, c) == Placed && Grow(t, c, now) == t + [was]
    ensures WellFormed(t + [was]) && TableBytes(t + [was]) == TableBytes(t)
  {
    NotFound(t, KeyOf(c));
    GrownWellFormed(t, c, now);
  }

  lemma StoresAtEnd(t: Table, c: Chunk, now: int, was: Slot, s: Slot, grown: Table, filled: Table)
    requires WellFormed(t) && Numbered(c) && was !in t && SlotBefore(t, c, now, was)
    requires NumberFits(c, was) && was.At(c.seqNo).None? && s == was.With(c.seqNo, c.body)
    requires grown == t + [was] && filled == t + [s]
    ensures HandleChunk(t, c, now) == Settle(filled, |t|) && WellFormed(filled)
    ensures TableBytes(filled) == TableBytes(t) + |c.body|
  {
    GrowsAtEnd(t, c, now, was);
    FillAdds(grown, |t|, c);
    assert grown[|t| := s] == filled;
  }

  lemma ChunkStep(t: Table, c: Chunk, now: int)
    requires WellFormed(t)
    ensures Step(t, Arrival(Chunked(c), now)) == HandleChunk(t, c, now)
  {
  }

  lemma StoresAt(t: Table, c: Chunk, now: int, was: Slot, s: Slot, o: Outcome) returns (i: nat, filled: Table)
    requires WellFormed(t) && Numbered(c) && SlotBefore(t, c, now, was) && was.At(c.seqNo).None?
    requires NumberFits(c, was) && s == was.With(c.seqNo, c.body) && o == HandleChunk(t, c, now)
    ensures filled == WithSlot(t, was, s) && i < |filled| && filled[i] == s
    ensures o == Settle(filled, i) && WellFormed(filled)
    ensures TableBytes(filled) == TableBytes(t) + |c.body|
    ensures if was in t then i < |t| && t[i] == was && filled == t[i := s] else i == |t| && filled == t + [s]
  {
    if was in t {
      i := Find(t, KeyOf(c));
      StoresInPlace(t, c, now, was, s, i);
      filled := t[i := s];
    } else {
      i := |t|;
      filled := t + [s];
      StoresAtEnd(t, c, now, was, s, t + [was], filled);
    }
  }

  lemma MoreFrame(was: Slot, c: Chunk)
    requires NumberFits(c, was) && was.At(c.seqNo).None?
    ensures OneFrameMore(was, c, was.With(c.seqNo, c.body))
  {
    WithAt(was, c.seqNo, c.body);
    WithCounts(was, c.seqNo, c.body);
  }

  lemma BelowTotal(t: Table, c: Chunk, now: int, was: Slot)
    requires WellFormed(t) && Numbered(c) && SlotBefore(t, c, now, was)
    ensures NumberFits(c, was)
  {
    if was in t {
      FoundAt(t, was);
    }
  }

  lemma WithoutTheSlot(t: Table, key: string, was: Slot, i: nat, filled: Table, s: Slot)
    requires DistinctKeys(t) && was.key == key
    requires if was in t then i < |t| && t[i] == was && filled == t[i := s] else i == |t| && filled == t + [s]
    requires was !in t ==> forall r :: r in t ==> r.key != key
    ensures RemoveAt(filled, i) == Dropping(t, {key})
  {
    if was in t {
      assert RemoveAt(filled, i) == RemoveAt(t, i);
      WithoutDrops(t, i);
    } else {
      assert RemoveAt(filled, i) == t;
      assert forall j :: 0 <= j < |t| ==> t[j] in t;
      DroppingAgrees(t, {key}, {});
      DroppingNothing(t);
    }
  }

  /**
   * A frame with which its message exceeds 4 MiB: the message leaves the table, its
   * size is reported, and nothing else happens.
   */
  lemma OverCapDropped(t: Table, c: Chunk, now: int, was: Slot, o: Outcome)
    requires WellFormed(t) && Numbered(c) && SlotBefore(t, c, now, was) && was.At(c.seqNo).None?
    requires was.Bytes() + |c.body| > 4_194_304 && o == Step(t, Arrival(Chunked(c), now))
    ensures o.events == [CapFault(was.Bytes() + |c.body|)] && !o.threw && o.table == Dropping(t, {KeyOf(c)})
  {
    BelowTotal(t, c, now, was);
    WithCounts(was, c.seqNo, c.body);
    var s := was.With(c.seqNo, c.body);
    ChunkStep(t, c, now);
    var i, filled := StoresAt(t, c, now, was, s, o);
    CapAt(t, KeyOf(c), was, i, filled, s, o);
  }

  lemma CapAt(t: Table, key: string, was: Slot, i: nat, filled: Table, s: Slot, o: Outcome)
    requires DistinctKeys(t) && was.key == key && i < |filled| && filled[i] == s && s.Bytes() > 4_194_304
    requires if was in t then i < |t| && t[i] == was && filled == t[i := s] else i == |t| && filled == t + [s]
    requires was !in t ==> forall r :: r in t ==> r.key != key
    requires o == Settle(filled, i)
    ensures o == Outcome(Dropping(t, {key}), [CapFault(s.Bytes())], false)
  {
    WithoutTheSlot(t, key, was, i, filled, s);
  }

  /** Overflow is reported slot by slot, in the order in which the slots are dropped. */
  lemma {:induction false} OverflowReport(dropped: seq<Slot>)
    ensures |OverflowFaults(dropped)| == |dropped|
    ensures forall k :: 0 <= k < |dropped| ==> OverflowFaults(dropped)[k] == OverflowFault(dropped[k].addon, dropped[k].id)
  {
    if dropped != [] {
      OverflowReport(dropped[..|dropped| - 1]);
    }
  }

  lemma {:induction false} TimeoutReport(dropped: seq<Slot>)
    ensures |TimeoutFaults(dropped)| == |dropped|
    ensures forall k :: 0 <= k < |dropped| ==> TimeoutFaults(dropped)[k] == TimeoutFault(dropped[k].addon, dropped[k].id)
  {
    if dropped != [] {
      TimeoutReport(dropped[..|dropped| - 1]);
    }
  }

  ghost predicate OldestDropped(filled: Table, key: string, dropped: seq<Slot>) {
    && (forall s :: s in dropped ==> s in filled && s.key != key)
    && (forall i, j :: 0 <= i < j < |dropped| ==> dropped[i].firstSeenAt <= dropped[j].firstSeenAt)
    && LeastRun(filled, key, KeysOf(dropped))
    && (TableBytes(filled) <= 16_777_216 ==> dropped == [])
  }

  ghost predicate OverflowsThen(events: seq<Event>, dropped: seq<Slot>, last: seq<Event>) {
    && |events| == |dropped| + |last|
    && (forall k :: 0 <= k < |dropped| ==> events[k] == OverflowFault(dropped[k].addon, dropped[k].id))
    && events[|dropped|..] == last
  }

  lemma EvictsOldest(filled: Table, key: string, dropped: seq<Slot>)
    requires WellFormed(filled) && dropped == Evict(filled, key).dropped
    requires forall i :: 0 <= i < |filled| && filled[i].key == key ==> filled[i].Bytes() <= 4_194_304
    ensures OldestDropped(filled, key, dropped)
    ensures Evict(filled, key).kept == Dropping(filled, KeysOf(dropped)) && DistinctKeys(Evict(filled, key).kept)
  {
    EvictDropsLeastRun(filled, key);
    EvictInAgeOrder(filled, key);
    DroppingDistinct(filled, KeysOf(dropped));
  }

  lemma WithoutSettled(filled: Table, kept: Table, keys: set<string>, key: string)
    requires kept == Dropping(filled, keys) && DistinctKeys(kept)
    ensures WithoutKey(kept, key) == Dropping(filled, keys + {key}) && kept == Dropping(filled, keys + {})
  {
    WithoutKeyDrops(kept, key);
    DroppingTwice(filled, keys, {key});
    assert keys + {} == keys;
  }

  lemma Settles(filled: Table, i: nat, s: Slot, o: Outcome) returns (dropped: seq<Slot>)
    requires WellFormed(filled) && i < |filled| && filled[i] == s && s.Bytes() <= 4_194_304 && o == Settle(filled, i)
    ensures OldestDropped(filled, s.key, dropped) && !o.threw
    ensures OverflowsThen(o.events, dropped, if s.Received() == s.total then [Binary(s.addon, s.mime, s.Message())] else [])
    ensures o.table == Dropping(filled, KeysOf(dropped) + if s.Received() == s.total then {s.key} else {})
  {
    dropped := Evict(filled, s.key).dropped;
    EvictsOldest(filled, s.key, dropped);
    OverflowReport(dropped);
    WithoutSettled(filled, Evict(filled, s.key).kept, KeysOf(dropped), s.key);
  }

  /**
   * A frame that is new and does not exceed the message cap is stored: its slot has
   * that frame besides the ones before and is otherwise unchanged. Then the oldest
   * other slots are dropped, only as many as bring the total within 16 MiB, each
   * reported by its add-on and id in the order of age. Last, when the slot has as many
   * frames as its total says, it leaves the table and its message is reported.
   */
  lemma StoredExactly(t: Table, c: Chunk, now: int, was: Slot, o: Outcome) returns (s: Slot, dropped: seq<Slot>)
    requires WellFormed(t) && Numbered(c) && SlotBefore(t, c, now, was) && was.At(c.seqNo).None?
    requires was.Bytes() + |c.body| <= 4_194_304 && o == Step(t, Arrival(Chunked(c), now))
    ensures OneFrameMore(was, c, s) && OldestDropped(WithSlot(t, was, s), s.key, dropped) && !o.threw
    ensures TableBytes(t) + |c.body| <= 16_777_216 ==> dropped == []
    ensures
      var complete := was.Received() + 1 == was.total;
      && OverflowsThen(o.events, dropped, if complete then [Binary(was.addon, was.mime, s.Message())] else [])
      && o.table == Dropping(WithSlot(t, was, s), KeysOf(dropped) + if complete then {s.key} else {})
  {
    BelowTotal(t, c, now, was);
    s := was.With(c.seqNo, c.body);
    WithCounts(was, c.seqNo, c.body);
    ChunkStep(t, c, now);
    dropped := StoredAt(t, c, now, was, s, o);
    MoreFrame(was, c);
  }

  lemma StoredAt(t: Table, c: Chunk, now: int, was: Slot, s: Slot, o: Outcome) returns (dropped: seq<Slot>)
    requires WellFormed(t) && Numbered(c) && SlotBefore(t, c, now, was) && was.At(c.seqNo).None?
    requires NumberFits(c, was) && s == was.With(c.seqNo, c.body) && s.Bytes() <= 4_194_304
    requires o == HandleChunk(t, c, now)
    ensures OldestDropped(WithSlot(t, was, s), s.key, dropped) && !o.threw
    ensures TableBytes(t) + |c.body| <= 16_777_216 ==> dropped == []
    ensures OverflowsThen(o.events, dropped, if s.Received() == s.total then [Binary(s.addon, s.mime, s.Message())] else [])
    ensures o.table == Dropping(WithSlot(t, was, s), KeysOf(dropped) + if s.Received() == s.total then {s.key} else {})
  {
    var i, filled := StoresAt(t, c, now, was, s, o);
    dropped := Settles(filled, i, s, o);
  }

  // ----- the timer

  lemma {:induction false} CollectOrdered(t: Table, now: int)
    ensures forall i, j :: 0 <= i < j < |Collect(t, now).dropped| ==> Before(t, Collect(t, now).dropped[i], Collect(t, now).dropped[j])
  {
    if t != [] {
      var n := |t| - 1;
      var front := Collect(t[..n], now).dropped;
      CollectOrdered(t[..n], now);
      CollectMembers(t[..n], now);
      forall i, j | 0 <= i < j < |Collect(t, now).dropped| ensures Before(t, Collect(t, now).dropped[i], Collect(t, now).dropped[j]) {
        if j < |front| {
          assert Before(t[..n], front[i], front[j]);
          var a, b :| 0 <= a < b < n && t[..n][a] == front[i] && t[..n][b] == front[j];
          assert t[a] == front[i] && t[b] == front[j];
        } else {
          assert front[i] in t[..n];
          var a :| 0 <= a < n && t[..n][a] == front[i];
          assert t[a] == front[i];
        }
      }
    }
  }

  ghost predicate Before(t: Table, s: Slot, s': Slot) {
    exists a, b :: 0 <= a < b < |t| && t[a] == s && t[b] == s'
  }

  /**
   * A tick drops the slots whose first frame came 60 seconds ago or longer, keeps the
   * others in order, and reports the dropped ones by add-on and id in table order.
   */
  lemma TickExactly(t: Table, now: int) returns (dropped: seq<Slot>)
    requires WellFormed(t)
    ensures forall s :: s in dropped <==> s in t && now - s.firstSeenAt >= 60_000
    ensures forall i, j :: 0 <= i < j < |dropped| ==> Before(t, dropped[i], dropped[j])
    ensures
      var o := Step(t, Tick(now));
      && !o.threw && |o.events| == |dropped| && o.table == Dropping(t, KeysOf(dropped))
      && forall k :: 0 <= k < |dropped| ==> o.events[k] == TimeoutFault(dropped[k].addon, dropped[k].id)
  {
    dropped := Collect(t, now).dropped;
    CollectDropsStale(t, now);
    CollectOrdered(t, now);
    TimeoutReport(dropped);
  }

  // ----- repeats in a run

  lemma AfterOne(xs: seq<Input>, n: nat, n': nat)
    requires n' == n + 1 <= |xs|
    ensures After(xs, n') == Step(After(xs, n), xs[n]).table
  {
  }

  lemma NextAgree(xs: seq<Input>, n: nat, n': nat, ys: seq<Input>, m: nat, m': nat)
    requires n' == n + 1 <= |xs| && m' == m + 1 <= |ys| && After(xs, n) == After(ys, m) && xs[n] == ys[m]
    ensures After(xs, n') == After(ys, m')
  {
    AfterOne(xs, n, n');
    AfterOne(ys, m, m');
  }

  ghost predicate SameInput(xs: seq<Input>, ys: seq<Input>, j: nat, shift: int) {
    j < |xs| && 0 <= j + shift < |ys| && xs[j] == ys[j + shift]
  }

  /** Equal tables and equal inputs from there on. */
  lemma {:induction false} RunsAgree(xs: seq<Input>, n: nat, n': nat, ys: seq<Input>, m: nat, m': nat, shift: int)
    requires n <= n' <= |xs| && m <= m' <= |ys| && m == n + shift && m' == n' + shift && After(xs, n) == After(ys, m)
    requires forall j :: n <= j < n' ==> SameInput(xs, ys, j, shift)
    ensures After(xs, n') == After(ys, m')
    decreases n'
  {
    if n < n' {
      var before, before' := n' - 1, m' - 1;
      RunsAgree(xs, n, before, ys, m, before', shift);
      assert SameInput(xs, ys, before, shift);
      NextAgree(xs, before, n', ys, before', m');
    }
  }

  lemma EventsAgree(xs: seq<Input>, n: nat, ys: seq<Input>, m: nat)
    requires n < |xs| && m < |ys| && After(xs, n) == After(ys, m) && xs[n] == ys[m]
    ensures EventsAt(xs, n) == EventsAt(ys, m)
  {
  }

  lemma RepeatAt(xs: seq<Input>, n: nat, n': nat, t: Table)
    requires n' == n + 1 <= |xs| && t == After(xs, n) && WellFormed(t) && IsRepeat(t, xs[n])
    ensures EventsAt(xs, n) == [] && After(xs, n') == t
  {
    RepeatIgnored(t, xs[n]);
    AfterOne(xs, n, n');
  }

  /** One run of inputs is the other with one more put in at `n`. */
  ghost predicate PutIn(with: seq<Input>, without: seq<Input>, n: nat, x: Input) {
    && n <= |without| && |with| == |without| + 1 && with[n] == x
    && (forall j :: 0 <= j < n ==> with[j] == without[j])
    && forall j :: n < j < |with| ==> with[j] == without[j - 1]
  }

  /** In any run, a repeated frame reports nothing, and the table stays as it was. */
  lemma RepeatReportsNothing(with: seq<Input>, without: seq<Input>, n: nat, x: Input, n': nat)
    requires PutIn(with, without, n, x) && IsRepeat(After(without, n), x) && n' == n + 1
    ensures EventsAt(with, n) == [] && After(with, n') == After(without, n)
  {
    DroppedRepeat(with, without, n, n', x, After(without, n));
  }

  /** It might as well not have come: every later table is the same. */
  lemma RepeatMakesNoDifference(with: seq<Input>, without: seq<Input>, n: nat, x: Input, n': nat, m: nat, m': nat)
    requires PutIn(with, without, n, x) && IsRepeat(After(without, n), x)
    requires n' == n + 1 && m == m' + 1 && n' <= m <= |with|
    ensures After(with, m) == After(without, m')
  {
    RepeatReportsNothing(with, without, n, x, n');
    LaterAgree(with, without, n, n', m, m');
  }

  /** And every later input reports the same events. */
  lemma RepeatLeavesReports(with: seq<Input>, without: seq<Input>, n: nat, x: Input, n': nat, m: nat, m': nat)
    requires PutIn(with, without, n, x) && IsRepeat(After(without, n), x)
    requires n' == n + 1 && m == m' + 1 && n' <= m < |with|
    ensures EventsAt(with, m) == EventsAt(without, m')
  {
    RepeatMakesNoDifference(with, without, n, x, n', m, m');
    EventsAgree(with, m, without, m');
  }

  lemma DroppedRepeat(with: seq<Input>, without: seq<Input>, n: nat, n': nat, x: Input, t: Table)
    requires n <= |without| && |with| == |without| + 1 && with[n] == x && n' == n + 1 && t == After(without, n)
    requires forall j :: 0 <= j < n ==> with[j] == without[j]
    requires WellFormed(t) && IsRepeat(t, x)
    ensures EventsAt(with, n) == [] && After(with, n') == t
  {
    assert forall j :: 0 <= j < n ==> SameInput(with, without, j, 0);
    RunsAgree(with, 0, n, without, 0, n, 0);
    RepeatAt(with, n, n', t);
  }

  lemma LaterAgree(with: seq<Input>, without: seq<Input>, n: nat, n': nat, m: nat, m': nat)
    requires n <= m' <= |without| && |with| == |without| + 1 && n' == n + 1 && m == m' + 1
    requires forall j :: n < j < |with| ==> with[j] == without[j - 1]
    requires After(with, n') == After(without, n)
    ensures After(with, m) == After(without, m')
  {
    assert forall j :: n' <= j < m ==> SameInput(with, without, j, -1);
    RunsAgree(with, n', m, without, n, m', -1);
  }
}
