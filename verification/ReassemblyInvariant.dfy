/**
 * Facts about single steps of the reassembly table: counters, eviction and
 * garbage collection, and the invariant that every step keeps.
 */
module ReassemblyInvariant {
  import opened Common
  import opened Reassembly

  // ----- counters

  lemma {:induction false} FillCounts(frames: seq<Option<Bytes>>, q: nat, body: Bytes)
    requires q < |frames| && frames[q].None?
    ensures FramesBytes(frames[q := Some(body)]) == FramesBytes(frames) + |body|
    ensures FramesCount(frames[q := Some(body)]) == FramesCount(frames) + 1
  {
    var n := |frames| - 1;
    var after := frames[q := Some(body)];
    if q == n {
      assert after[..n] == frames[..n];
    } else {
      FillCounts(frames[..n], q, body);
      assert after[..n] == frames[..n][q := Some(body)];
    }
  }

  lemma {:induction false} CountBounds(frames: seq<Option<Bytes>>)
    ensures FramesCount(frames) <= |frames|
    ensures FramesCount(frames) == |frames| <==> (forall q :: 0 <= q < |frames| ==> frames[q].Some?)
    ensures FramesCount(frames) == 0 <==> (forall q :: 0 <= q < |frames| ==> frames[q].None?)
  {
    if frames != [] {
      var n := |frames| - 1;
      CountBounds(frames[..n]);
      assert forall q :: 0 <= q < n ==> frames[..n][q] == frames[q];
      assert (forall q :: 0 <= q < |frames| ==> frames[q].Some?) <==>
             (forall q :: 0 <= q < n ==> frames[..n][q].Some?) && frames[n].Some?;
      assert (forall q :: 0 <= q < |frames| ==> frames[q].None?) <==>
             (forall q :: 0 <= q < n ==> frames[..n][q].None?) && frames[n].None?;
    }
  }

  lemma OddSnoc(odd: seq<OddFrame>, f: OddFrame)
    ensures OddBytes(odd + [f]) == OddBytes(odd) + |f.body|
    ensures forall x :: OddAt(odd + [f], x) == if x == f.number then Some(f.body) else OddAt(odd, x)
  {
    assert (odd + [f])[..|odd|] == odd;
  }

  /** A frame that is not there yet adds its bytes and one to the count. */
  lemma WithCounts(s: Slot, number: real, body: Bytes)
    requires 0.0 <= number < |s.frames| as real && s.At(number).None?
    ensures s.With(number, body).Bytes() == s.Bytes() + |body|
    ensures s.With(number, body).Received() == s.Received() + 1
  {
    if Integral(number) {
      FillCounts(s.frames, number.Floor, body);
    } else {
      OddSnoc(s.odd, OddFrame(number, body));
    }
  }

  /** A stored frame is found under its number and under no other. */
  lemma WithAt(s: Slot, number: real, body: Bytes)
    requires 0.0 <= number < |s.frames| as real
    ensures forall x :: s.With(number, body).At(x) == if x == number then Some(body) else s.At(x)
  {
    if !Integral(number) {
      OddSnoc(s.odd, OddFrame(number, body));
    }
  }

  lemma {:induction false} AssembleLength(frames: seq<Option<Bytes>>)
    ensures |Assemble(frames)| == FramesBytes(frames)
  {
    if frames != [] {
      AssembleLength(frames[..|frames| - 1]);
    }
  }

  lemma {:induction false} TableBytesConcat(a: Table, b: Table)
    ensures TableBytes(a + b) == TableBytes(a) + TableBytes(b)
  {
    if b == [] {
      assert a + b == a;
    } else {
      var n := |b| - 1;
      TableBytesConcat(a, b[..n]);
      assert (a + b)[..|a + b| - 1] == a + b[..n];
    }
  }

  lemma SplitAt(t: Table, i: nat)
    requires i < |t|
    ensures t == t[..i] + [t[i]] + t[i + 1..]
  {
  }

  lemma TableBytesOne(s: Slot)
    ensures TableBytes([s]) == s.Bytes()
  {
    assert [s][..0] == [];
  }

  lemma TableBytesSplit(t: Table, i: nat)
    requires i < |t|
    ensures TableBytes(t) == TableBytes(t[..i]) + t[i].Bytes() + TableBytes(t[i + 1..])
    ensures TableBytes(RemoveAt(t, i)) == TableBytes(t) - t[i].Bytes()
  {
    var a, b := t[..i], t[i + 1..];
    SplitAt(t, i);
    TableBytesOne(t[i]);
    TableBytesConcat(a, b);
    TableBytesConcat(a, [t[i]]);
    TableBytesConcat(a + [t[i]], b);
  }

  lemma TableBytesUpdate(t: Table, i: nat, s: Slot)
    requires i < |t|
    ensures TableBytes(t[i := s]) == TableBytes(t) - t[i].Bytes() + s.Bytes()
  {
    TableBytesSplit(t, i);
    TableBytesSplit(t[i := s], i);
    assert t[i := s][..i] == t[..i] && t[i := s][i + 1..] == t[i + 1..];
  }

  /** Storing one more frame keeps the table well formed and adds the body's bytes. */
  lemma FillAdds(t: Table, i: nat, c: Chunk)
    requires WellFormed(t) && i < |t| && NumberFits(c, t[i]) && t[i].At(c.seqNo).None?
    ensures WellFormed(Fill(t, i, c)) && TableBytes(Fill(t, i, c)) == TableBytes(t) + |c.body|
  {
    var filled := Fill(t, i, c);
    WithCounts(t[i], c.seqNo, c.body);
    TableBytesUpdate(t, i, filled[i]);
    assert forall j :: 0 <= j < |t| ==> filled[j].key == t[j].key;
  }

  // ----- sub-tables

  function Dropping(t: Table, keys: set<string>): Table {
    if t == [] then []
    else
      var last := t[|t| - 1];
      Dropping(t[..|t| - 1], keys) + if last.key in keys then [] else [last]
  }

  lemma {:induction false} DroppingMembers(t: Table, keys: set<string>)
    ensures forall s :: s in Dropping(t, keys) <==> s in t && s.key !in keys
  {
    if t != [] {
      var n := |t| - 1;
      DroppingMembers(t[..n], keys);
      assert t == t[..n] + [t[n]];
      assert forall s :: s in t <==> s in t[..n] || s == t[n];
    }
  }

  lemma {:induction false} DroppingDistinct(t: Table, keys: set<string>)
    requires DistinctKeys(t)
    ensures DistinctKeys(Dropping(t, keys))
  {
    if t != [] {
      var n := |t| - 1;
      DroppingDistinct(t[..n], keys);
      DroppingMembers(t[..n], keys);
      var front := Dropping(t[..n], keys);
      forall i | 0 <= i < |front| ensures front[i].key != t[n].key {
        assert front[i] in t[..n];
      }
    }
  }

  lemma {:induction false} DroppingConcat(a: Table, b: Table, keys: set<string>)
    ensures Dropping(a + b, keys) == Dropping(a, keys) + Dropping(b, keys)
  {
    if b == [] {
      assert a + b == a;
    } else {
      var n := |b| - 1;
      assert (a + b)[..|a + b| - 1] == a + b[..n];
      DroppingConcat(a, b[..n], keys);
    }
  }

  lemma {:induction false} DroppingAgrees(t: Table, keys: set<string>, keys': set<string>)
    requires forall i :: 0 <= i < |t| ==> (t[i].key in keys <==> t[i].key in keys')
    ensures Dropping(t, keys) == Dropping(t, keys')
  {
    if t != [] {
      DroppingAgrees(t[..|t| - 1], keys, keys');
    }
  }

  lemma {:induction false} DroppingNothing(t: Table)
    ensures Dropping(t, {}) == t
  {
    if t != [] {
      DroppingNothing(t[..|t| - 1]);
    }
  }

  lemma DroppingOne(s: Slot, keys: set<string>)
    ensures Dropping([s], keys) == if s.key in keys then [] else [s]
  {
    assert [s][..0] == [];
  }

  lemma DroppingAround(a: Table, s: Slot, b: Table, keys: set<string>)
    requires s.key in keys
    ensures Dropping(a + [s] + b, keys) == Dropping(a, keys) + Dropping(b, keys)
  {
    DroppingConcat(a + [s], b, keys);
    DroppingConcat(a, [s], keys);
    DroppingOne(s, keys);
    assert Dropping(a, keys) + [] == Dropping(a, keys);
  }

  /** Removing one slot first makes no difference when its key is dropped anyway. */
  lemma DroppingWithout(t: Table, i: nat, keys: set<string>)
    requires DistinctKeys(t) && i < |t|
    ensures Dropping(RemoveAt(t, i), keys) == Dropping(t, keys + {t[i].key})
  {
    var all := keys + {t[i].key};
    var a, b := t[..i], t[i + 1..];
    DroppingConcat(a, b, keys);
    SplitAt(t, i);
    DroppingAround(a, t[i], b, all);
    OthersDiffer(t, i);
    DroppingAgrees(a, keys, all);
    DroppingAgrees(b, keys, all);
  }

  lemma OthersDiffer(t: Table, i: nat)
    requires DistinctKeys(t) && i < |t|
    ensures var a := t[..i]; forall j :: 0 <= j < |a| ==> a[j].key != t[i].key
    ensures var b := t[i + 1..]; forall j :: 0 <= j < |b| ==> b[j].key != t[i].key
  {
  }

  lemma WithoutDrops(t: Table, i: nat)
    requires DistinctKeys(t) && i < |t|
    ensures RemoveAt(t, i) == Dropping(t, {t[i].key})
    ensures DistinctKeys(RemoveAt(t, i))
  {
    DroppingWithout(t, i, {});
    DroppingNothing(RemoveAt(t, i));
    assert {} + {t[i].key} == {t[i].key};
    DroppingDistinct(t, {t[i].key});
  }

  // ----- eviction

  function KeysOf(slots: seq<Slot>): set<string> {
    set s | s in slots :: s.key
  }

  /**
   * `keys` is an oldest-first run of the slots other than `protect`: whenever it
   * holds a slot it holds every other slot that is older, insertion order
   * deciding between slots first seen at the same moment.
   */
  ghost predicate OldestFirst(t: Table, protect: string, keys: set<string>) {
    && protect !in keys
    && forall i, j :: 0 <= i < |t| && 0 <= j < |t| && t[i].key in keys && t[j].key !in keys && t[j].key != protect
         ==> Older(t, i, j)
  }

  ghost predicate WithinBudget(t: Table, keys: set<string>) {
    TableBytes(Dropping(t, keys)) <= BUDGET_BYTES
  }

  lemma OldestFirstStep(t: Table, protect: string, i: nat, keys: set<string>)
    requires DistinctKeys(t) && i < |t| && i == Oldest(t, protect, |t|)
    requires t[i].key in keys && OldestFirst(t, protect, keys)
    ensures OldestFirst(RemoveAt(t, i), protect, keys - {t[i].key})
  {
    var rest := RemoveAt(t, i);
    var keys' := keys - {t[i].key};
    forall a, b | 0 <= a < |rest| && 0 <= b < |rest| && rest[a].key in keys' && rest[b].key !in keys' && rest[b].key != protect
      ensures Older(rest, a, b)
    {
      var a' := if a < i then a else a + 1;
      var b' := if b < i then b else b + 1;
      assert rest[a] == t[a'] && rest[b] == t[b'];
      assert Older(t, a', b');
    }
  }

  lemma OldestFirstUnstep(t: Table, protect: string, i: nat, keys: set<string>)
    requires DistinctKeys(t) && i < |t| && i == Oldest(t, protect, |t|)
    requires OldestFirst(RemoveAt(t, i), protect, keys)
    ensures OldestFirst(t, protect, keys + {t[i].key})
  {
    var rest := RemoveAt(t, i);
    var keys' := keys + {t[i].key};
    forall a, b | 0 <= a < |t| && 0 <= b < |t| && t[a].key in keys' && t[b].key !in keys' && t[b].key != protect
      ensures Older(t, a, b)
    {
      if a != i {
        var a' := if a < i then a else a - 1;
        var b' := if b < i then b else b - 1;
        assert rest[a'] == t[a] && rest[b'] == t[b];
        assert t[a].key != t[i].key;
        assert Older(rest, a', b');
      }
    }
  }

  lemma WithoutMembers(t: Table, i: nat)
    requires i < |t|
    ensures forall s :: s in RemoveAt(t, i) ==> s in t
  {
    var rest := RemoveAt(t, i);
    forall j | 0 <= j < |rest| ensures rest[j] in t {
      assert rest[j] == t[if j < i then j else j + 1];
    }
  }

  /** A run that suffices when the table is over budget holds the oldest slot. */
  lemma OverBudgetDropsOldest(t: Table, protect: string, other: set<string>)
    requires TableBytes(t) > BUDGET_BYTES
    requires Oldest(t, protect, |t|) < |t|
    requires OldestFirst(t, protect, other) && WithinBudget(t, other)
    ensures t[Oldest(t, protect, |t|)].key in other
  {
    var i := Oldest(t, protect, |t|);
    if t[i].key !in other {
      forall j | 0 <= j < |t| ensures t[j].key !in other {
        assert t[j].key in other ==> Older(t, j, i);
        assert t[j].key != protect && j != i ==> Older(t, i, j);
      }
      DroppingAgrees(t, other, {});
      DroppingNothing(t);
      assert false;
    }
  }

  lemma FirstTwoDiffer(t: Table)
    requires DistinctKeys(t) && |t| > 1
    ensures exists i, j :: 0 <= i < |t| && 0 <= j < |t| && t[i].key != t[j].key
  {
    assert t[0].key != t[1].key;
  }

  lemma ProtectedAloneFits(t: Table, protect: string)
    requires DistinctKeys(t)
    requires forall i :: 0 <= i < |t| ==> t[i].key == protect && t[i].Bytes() <= MESSAGE_MAX_BYTES
    ensures TableBytes(t) <= BUDGET_BYTES
  {
    if |t| > 1 {
      FirstTwoDiffer(t);
      assert false;
    }
    if |t| == 1 {
      assert t[..0] == [];
      assert TableBytes(t[..0]) == 0;
    }
  }

  ghost predicate LeastRun(t: Table, protect: string, run: set<string>) {
    && OldestFirst(t, protect, run)
    && WithinBudget(t, run)
    && forall other :: OldestFirst(t, protect, other) && WithinBudget(t, other) ==> run <= other
  }

  lemma LeastRunStep(t: Table, protect: string, i: nat, run: set<string>)
    requires DistinctKeys(t) && TableBytes(t) > BUDGET_BYTES
    requires i < |t| && i == Oldest(t, protect, |t|)
    requires LeastRun(RemoveAt(t, i), protect, run)
    ensures LeastRun(t, protect, run + {t[i].key})
  {
    var k := t[i].key;
    OldestFirstUnstep(t, protect, i, run);
    DroppingWithout(t, i, run);
    forall other | OldestFirst(t, protect, other) && WithinBudget(t, other)
      ensures run + {k} <= other
    {
      OverBudgetDropsOldest(t, protect, other);
      OldestFirstStep(t, protect, i, other);
      DroppingWithout(t, i, other - {k});
      assert other - {k} + {k} == other;
    }
  }

  lemma KeysOfCons(s: Slot, rest: seq<Slot>)
    ensures KeysOf([s] + rest) == KeysOf(rest) + {s.key}
  {
    forall x | x in KeysOf([s] + rest) ensures x in KeysOf(rest) + {s.key} {
      var y :| y in [s] + rest && y.key == x;
      assert y == s || y in rest;
    }
    forall x | x in KeysOf(rest) + {s.key} ensures x in KeysOf([s] + rest) {
      if x == s.key {
        assert ([s] + rest)[0] == s;
      } else {
        var y :| y in rest && y.key == x;
        assert y in [s] + rest;
      }
    }
  }

  /**
   * Eviction drops exactly the shortest oldest-first run that brings the table
   * within budget: the run it drops suffices, and every run that suffices
   * contains it. Only the protected slot, at most one message long, can remain
   * when everything else is gone, so a sufficient run always exists.
   */
  lemma {:induction false} EvictDropsLeastRun(t: Table, protect: string)
    requires DistinctKeys(t)
    requires forall i :: 0 <= i < |t| && t[i].key == protect ==> t[i].Bytes() <= MESSAGE_MAX_BYTES
    ensures var purge := Evict(t, protect);
            && purge.kept == Dropping(t, KeysOf(purge.dropped))
            && (forall s :: s in purge.dropped ==> s in t)
            && LeastRun(t, protect, KeysOf(purge.dropped))
    decreases |t|
  {
    var i := Oldest(t, protect, |t|);
    DroppingNothing(t);
    if i == |t| {
      ProtectedAloneFits(t, protect);
    }
    assert KeysOf([]) == {};
    if TableBytes(t) > BUDGET_BYTES {
      var rest := RemoveAt(t, i);
      WithoutDrops(t, i);
      WithoutMembers(t, i);
      forall j | 0 <= j < |rest| && rest[j].key == protect ensures rest[j].Bytes() <= MESSAGE_MAX_BYTES {
        assert rest[j] in t;
      }
      EvictDropsLeastRun(rest, protect);
      var inner := Evict(rest, protect).dropped;
      KeysOfCons(t[i], inner);
      DroppingWithout(t, i, KeysOf(inner));
      LeastRunStep(t, protect, i, KeysOf(inner));
    }
  }

  lemma {:induction false} EvictInAgeOrder(t: Table, protect: string)
    ensures forall i, j :: 0 <= i < j < |Evict(t, protect).dropped| ==>
              Evict(t, protect).dropped[i].firstSeenAt <= Evict(t, protect).dropped[j].firstSeenAt
    ensures forall s :: s in Evict(t, protect).dropped ==> s in t && s.key != protect
    decreases |t|
  {
    var i := Oldest(t, protect, |t|);
    if TableBytes(t) > BUDGET_BYTES && i < |t| {
      EvictInAgeOrder(RemoveAt(t, i), protect);
      WithoutMembers(t, i);
      forall s | s in Evict(RemoveAt(t, i), protect).dropped ensures t[i].firstSeenAt <= s.firstSeenAt {
        var j :| 0 <= j < |t| && t[j] == s;
        assert j == i || Older(t, i, j);
      }
    }
  }

  // ----- garbage collection

  lemma {:induction false} CollectMembers(t: Table, now: int)
    ensures forall s :: s in Collect(t, now).dropped <==> s in t && Stale(s, now)
    ensures forall s :: s in Collect(t, now).kept <==> s in t && !Stale(s, now)
  {
    if t != [] {
      var n := |t| - 1;
      CollectMembers(t[..n], now);
      assert t == t[..n] + [t[n]];
      assert forall s :: s in t <==> s in t[..n] || s == t[n];
    }
  }

  lemma {:induction false} CollectBytes(t: Table, now: int)
    ensures TableBytes(Collect(t, now).kept) == TableBytes(t) - TableBytes(Collect(t, now).dropped)
  {
    if t != [] {
      var n := |t| - 1;
      var front := Collect(t[..n], now);
      CollectBytes(t[..n], now);
      TableBytesConcat(front.kept, [t[n]]);
      TableBytesConcat(front.dropped, [t[n]]);
      assert [t[n]][..0] == [];
    }
  }

  lemma {:induction false} CollectConcat(a: Table, b: Table, now: int)
    ensures Collect(a + b, now).kept == Collect(a, now).kept + Collect(b, now).kept
    ensures Collect(a + b, now).dropped == Collect(a, now).dropped + Collect(b, now).dropped
  {
    if b == [] {
      assert a + b == a;
    } else {
      var n := |b| - 1;
      assert (a + b)[..|a + b| - 1] == a + b[..n];
      CollectConcat(a, b[..n], now);
    }
  }

  lemma {:induction false} CollectFresh(t: Table, now: int)
    requires forall i :: 0 <= i < |t| ==> !Stale(t[i], now)
    ensures Collect(t, now) == Purge(t, [])
  {
    if t != [] {
      CollectFresh(t[..|t| - 1], now);
    }
  }

  lemma CollectStaleOne(s: Slot, now: int)
    requires Stale(s, now)
    ensures Collect([s], now) == Purge([], [s])
  {
    assert [s][..0] == [];
  }

  lemma CollectAround(a: Table, s: Slot, b: Table, now: int)
    requires Stale(s, now) && Collect(a, now) == Purge(a, [])
    ensures Collect(a + [s] + b, now).kept == a + Collect(b, now).kept
    ensures Collect(a + [s] + b, now).dropped == [s] + Collect(b, now).dropped
  {
    CollectStaleOne(s, now);
    CollectConcat(a, [s], now);
    CollectConcat(a + [s], b, now);
    assert a + [] == a && [] + [s] == [s];
  }

  /** Taking out the first stale slot leaves the same slots to keep. */
  lemma CollectOne(t: Table, n: nat, now: int)
    requires n < |t| && Stale(t[n], now)
    requires forall i :: 0 <= i < n ==> !Stale(t[i], now)
    ensures Collect(t, now).kept == Collect(RemoveAt(t, n), now).kept
    ensures Collect(t, now).dropped == [t[n]] + Collect(RemoveAt(t, n), now).dropped
  {
    var a, b := t[..n], t[n + 1..];
    SplitAt(t, n);
    CollectFresh(a, now);
    CollectAround(a, t[n], b, now);
    CollectConcat(a, b, now);
    assert [] + Collect(b, now).dropped == Collect(b, now).dropped;
  }

  lemma {:induction false} CollectSelects(t: Table, now: int, keys: set<string>)
    requires forall i :: 0 <= i < |t| ==> (t[i].key in keys <==> Stale(t[i], now))
    ensures Collect(t, now).kept == Dropping(t, keys)
  {
    if t != [] {
      CollectSelects(t[..|t| - 1], now, keys);
    }
  }

  /** A collection drops the slots that are at least a timeout old, and no others. */
  lemma CollectDropsStale(t: Table, now: int)
    requires DistinctKeys(t)
    ensures Collect(t, now).kept == Dropping(t, KeysOf(Collect(t, now).dropped))
    ensures forall s :: s in Collect(t, now).dropped <==> s in t && Stale(s, now)
    ensures forall s :: s in Collect(t, now).kept <==> s in t && !Stale(s, now)
    ensures TableBytes(Collect(t, now).kept) == TableBytes(t) - TableBytes(Collect(t, now).dropped)
  {
    CollectMembers(t, now);
    CollectBytes(t, now);
    var keys := KeysOf(Collect(t, now).dropped);
    forall i | 0 <= i < |t| ensures t[i].key in keys <==> Stale(t[i], now) {
      assert t[i] in t;
      if t[i].key in keys {
        var s :| s in Collect(t, now).dropped && s.key == t[i].key;
        var j :| 0 <= j < |t| && t[j] == s;
      }
    }
    CollectSelects(t, now, keys);
  }

  // ----- storing a frame

  lemma {:induction false} DroppingTwice(t: Table, a: set<string>, b: set<string>)
    ensures Dropping(Dropping(t, a), b) == Dropping(t, a + b)
  {
    if t != [] {
      var n := |t| - 1;
      DroppingTwice(t[..n], a, b);
      DroppingConcat(Dropping(t[..n], a), if t[n].key in a then [] else [t[n]], b);
      assert [t[n]][..0] == [];
    }
  }

  lemma WithoutKeyDrops(t: Table, key: string)
    requires DistinctKeys(t)
    ensures WithoutKey(t, key) == Dropping(t, {key})
  {
    var i := Find(t, key);
    if i < |t| {
      WithoutDrops(t, i);
    } else {
      DroppingAgrees(t, {key}, {});
      DroppingNothing(t);
    }
  }

  lemma {:induction false} DroppingBytes(t: Table, keys: set<string>)
    ensures TableBytes(Dropping(t, keys)) <= TableBytes(t)
  {
    if t != [] {
      var n := |t| - 1;
      DroppingBytes(t[..n], keys);
      TableBytesConcat(Dropping(t[..n], keys), [t[n]]);
      assert [t[n]][..0] == [];
      assert Dropping(t[..n], keys) + [] == Dropping(t[..n], keys);
    }
  }

  /** The keys that leave the table when a frame is stored in the slot at `i`. */
  function Gone(t: Table, i: nat, c: Chunk): set<string>
    requires i < |t| && NumberFits(c, t[i])
  {
    var filled := Fill(t, i, c);
    if filled[i].Bytes() > MESSAGE_MAX_BYTES then {filled[i].key}
    else
      KeysOf(Evict(filled, filled[i].key).dropped)
      + if filled[i].Complete() then {filled[i].key} else {}
  }

  lemma StoreDrops(t: Table, i: nat, c: Chunk)
    requires WellFormed(t) && i < |t| && NumberFits(c, t[i])
    ensures WellFormed(Fill(t, i, c))
    ensures Store(t, i, c).table == Dropping(Fill(t, i, c), Gone(t, i, c))
    ensures TableBytes(Store(t, i, c).table) <= BUDGET_BYTES || t[i].key in Gone(t, i, c)
    ensures Fill(t, i, c)[i].Bytes() <= MESSAGE_MAX_BYTES ==> TableBytes(Store(t, i, c).table) <= BUDGET_BYTES
    ensures t[i].key in Gone(t, i, c) <==>
              Fill(t, i, c)[i].Bytes() > MESSAGE_MAX_BYTES || Fill(t, i, c)[i].Complete()
  {
    var filled := Fill(t, i, c);
    var k := filled[i].key;
    assert DistinctKeys(filled) by {
      assert forall j :: 0 <= j < |t| ==> filled[j].key == t[j].key;
    }
    if filled[i].Bytes() > MESSAGE_MAX_BYTES {
      WithoutDrops(filled, i);
    } else {
      var purge := Evict(filled, k);
      EvictDropsLeastRun(filled, k);
      DroppingDistinct(filled, KeysOf(purge.dropped));
      WithoutKeyDrops(purge.kept, k);
      DroppingTwice(filled, KeysOf(purge.dropped), {k});
      DroppingBytes(purge.kept, {k});
      assert KeysOf(purge.dropped) + {} == KeysOf(purge.dropped);
    }
  }

  lemma DroppingWellFormed(t: Table, keys: set<string>)
    requires WellFormed(t)
    ensures WellFormed(Dropping(t, keys))
  {
    DroppingDistinct(t, keys);
    DroppingMembers(t, keys);
    var kept := Dropping(t, keys);
    forall i | 0 <= i < |kept| ensures |kept[i].frames| == kept[i].total {
      assert kept[i] in t;
    }
  }

  lemma StepKeepsWellFormed(t: Table, x: Input)
    requires WellFormed(t)
    ensures WellFormed(Step(t, x).table)
  {
    match x
    case Tick(now) =>
      CollectDropsStale(t, now);
      DroppingWellFormed(t, KeysOf(Collect(t, now).dropped));
    case Arrival(Chunked(c), now) => HandleChunkKeepsWellFormed(t, c, now);
    case Arrival(_, _) =>
  }

  lemma StoreKeepsWellFormed(t: Table, i: nat, c: Chunk)
    requires WellFormed(t) && i < |t| && NumberFits(c, t[i])
    ensures WellFormed(Store(t, i, c).table)
  {
    StoreDrops(t, i, c);
    DroppingWellFormed(Fill(t, i, c), Gone(t, i, c));
  }

  lemma StoreOnceKeepsWellFormed(t: Table, i: nat, c: Chunk)
    requires WellFormed(t) && i < |t| && NumberFits(c, t[i])
    ensures WellFormed(StoreOnce(t, i, c).table)
  {
    if t[i].At(c.seqNo).None? {
      StoreKeepsWellFormed(t, i, c);
    }
  }

  lemma GrowKeepsWellFormed(t: Table, c: Chunk, now: int)
    requires WellFormed(t) && c.total >= 0.0
    ensures WellFormed(Grow(t, c, now)) && Find(t, MessageKey(c.addon, c.id)) < |Grow(t, c, now)|
  {
    if Find(t, MessageKey(c.addon, c.id)) == |t| {
      GrownWellFormed(t, c, now);
    }
  }

  lemma HandleChunkKeepsWellFormed(t: Table, c: Chunk, now: int)
    requires WellFormed(t)
    ensures WellFormed(HandleChunk(t, c, now).table)
  {
    if InRange(c) && Place(t, c).Placed? {
      var i, grown := Find(t, MessageKey(c.addon, c.id)), Grow(t, c, now);
      GrowKeepsWellFormed(t, c, now);
      StoreOnceKeepsWellFormed(grown, i, c);
      assert HandleChunk(t, c, now) == StoreOnce(grown, i, c);
    }
  }

  // ----- the invariant

  /** A slot that is resident between two handler runs. */
  ghost predicate Resident(s: Slot) {
    && |s.frames| == s.total
    && 0 < s.Received() < s.total
    && s.Bytes() <= MESSAGE_MAX_BYTES
  }

  ghost predicate Healthy(t: Table) {
    && DistinctKeys(t)
    && (forall s :: s in t ==> Resident(s))
    && TableBytes(t) <= BUDGET_BYTES
  }

  lemma HealthyWellFormed(t: Table)
    requires Healthy(t)
    ensures WellFormed(t)
  {
    forall i | 0 <= i < |t| ensures |t[i].frames| == t[i].total {
      assert t[i] in t;
    }
  }

  lemma {:induction false} NoFramesNoBytes(frames: seq<Option<Bytes>>)
    requires forall q :: 0 <= q < |frames| ==> frames[q].None?
    ensures FramesBytes(frames) == 0
  {
    if frames != [] {
      NoFramesNoBytes(frames[..|frames| - 1]);
    }
  }

  lemma NewSlotEmpty(c: Chunk, now: int)
    requires c.total >= 0.0
    ensures NewSlot(c, now).Bytes() == 0 && NewSlot(c, now).Received() == 0
    ensures forall x :: NewSlot(c, now).At(x).None?
  {
    var frames := NewSlot(c, now).frames;
    NoFramesNoBytes(frames);
    CountBounds(frames);
  }

  lemma GrownWellFormed(t: Table, c: Chunk, now: int)
    requires WellFormed(t) && c.total >= 0.0 && Find(t, MessageKey(c.addon, c.id)) == |t|
    ensures WellFormed(t + [NewSlot(c, now)])
    ensures TableBytes(t + [NewSlot(c, now)]) == TableBytes(t)
  {
    var s := NewSlot(c, now);
    NewSlotEmpty(c, now);
    assert (t + [s])[..|t|] == t;
  }

  lemma AllResident(t: Table)
    requires Healthy(t)
    ensures forall j :: 0 <= j < |t| ==> Resident(t[j])
  {
    forall j | 0 <= j < |t| ensures Resident(t[j]) {
      assert t[j] in t;
    }
  }

  lemma NewKeepsHealthy(t: Table, c: Chunk, now: int, grown: Table)
    requires WellFormed(t) && Healthy(t) && InRange(c) && Makeable(c.total)
    requires Find(t, MessageKey(c.addon, c.id)) == |t| && grown == t + [NewSlot(c, now)]
    ensures WellFormed(grown) && NumberFits(c, grown[|t|]) && Healthy(Store(grown, |t|, c).table)
  {
    GrownWellFormed(t, c, now);
    NewSlotEmpty(c, now);
    AllResident(t);
    StoreKeepsHealthy(grown, |t|, c, Store(grown, |t|, c).table);
  }

  lemma StoreOnceKeepsHealthy(t: Table, i: nat, c: Chunk)
    requires WellFormed(t) && Healthy(t) && i < |t| && NumberFits(c, t[i])
    ensures Healthy(StoreOnce(t, i, c).table)
  {
    AllResident(t);
    if t[i].At(c.seqNo).None? {
      StoreKeepsHealthy(t, i, c, Store(t, i, c).table);
    }
  }

  lemma HandleChunkKeepsHealthy(t: Table, c: Chunk, now: int)
    requires WellFormed(t) && Healthy(t)
    ensures Healthy(HandleChunk(t, c, now).table)
  {
    var i := Find(t, MessageKey(c.addon, c.id));
    if InRange(c) && Place(t, c).Placed? {
      if i == |t| {
        NewKeepsHealthy(t, c, now, t + [NewSlot(c, now)]);
        NewSlotEmpty(c, now);
      } else {
        StoreOnceKeepsHealthy(t, i, c);
      }
    }
  }

  /** Whatever arrives, and whenever the timer fires, every step keeps the table healthy. */
  lemma StepKeepsHealthy(t: Table, x: Input)
    requires Healthy(t)
    ensures WellFormed(t) && Healthy(Step(t, x).table)
  {
    HealthyWellFormed(t);
    match x
    case Tick(now) =>
      CollectDropsStale(t, now);
      DroppingDistinct(t, KeysOf(Collect(t, now).dropped));
      DroppingBytes(t, KeysOf(Collect(t, now).dropped));
    case Arrival(Chunked(c), now) => HandleChunkKeepsHealthy(t, c, now);
    case Arrival(_, _) =>
  }

  lemma CappedBytes(t: Table, i: nat, c: Chunk)
    requires i < |t| && NumberFits(c, t[i])
    ensures TableBytes(RemoveAt(Fill(t, i, c), i)) <= TableBytes(t)
  {
    var filled := Fill(t, i, c);
    TableBytesSplit(filled, i);
    TableBytesSplit(t, i);
    assert filled[..i] == t[..i] && filled[i + 1..] == t[i + 1..];
  }

  /** A slot that lacks frames, the frame of the chunk among them. */
  predicate Open(s: Slot, c: Chunk) {
    s.At(c.seqNo).None? && s.Received() < s.total
  }

  lemma FilledResident(t: Table, i: nat, c: Chunk, s: Slot)
    requires i < |t| && NumberFits(c, t[i]) && |t[i].frames| == t[i].total && s == Fill(t, i, c)[i]
    requires Open(t[i], c) && !s.Complete() && s.Bytes() <= MESSAGE_MAX_BYTES
    ensures Resident(s)
  {
    WithCounts(t[i], c.seqNo, c.body);
  }

  lemma StoredResident(t: Table, i: nat, c: Chunk, filled: Table, gone: set<string>, s: Slot)
    requires WellFormed(t) && i < |t| && NumberFits(c, t[i]) && filled == Fill(t, i, c)
    requires Open(t[i], c) && forall j :: 0 <= j < |t| && j != i ==> Resident(t[j])
    requires filled[i].Bytes() > MESSAGE_MAX_BYTES || filled[i].Complete() ==> t[i].key in gone
    requires s in filled && s.key !in gone
    ensures Resident(s)
  {
    var j :| 0 <= j < |filled| && filled[j] == s;
    if j == i {
      FilledResident(t, i, c, s);
    } else {
      assert s == t[j];
    }
  }

  lemma StoreKeepsHealthy(t: Table, i: nat, c: Chunk, after: Table)
    requires WellFormed(t) && i < |t| && NumberFits(c, t[i])
    requires Open(t[i], c) && forall j :: 0 <= j < |t| && j != i ==> Resident(t[j])
    requires TableBytes(t) <= BUDGET_BYTES
    requires after == Store(t, i, c).table
    ensures Healthy(after)
  {
    StoreDrops(t, i, c);
    var filled := Fill(t, i, c);
    var gone := Gone(t, i, c);
    DroppingDistinct(filled, gone);
    DroppingMembers(filled, gone);
    forall s | s in after ensures Resident(s) {
      StoredResident(t, i, c, filled, gone, s);
    }
    if filled[i].Bytes() > MESSAGE_MAX_BYTES {
      CappedBytes(t, i, c);
    }
  }
}
