/**
 * The receiving half of a PeerSession as it is written: a `Map` of slots with
 * preallocated frame arrays, byte and frame counters kept beside them, and a
 * garbage collection timer that is started and stopped on demand. Every handler
 * is proved to do to the abstract table what Reassembly.dfy says.
 */
module BinaryReceiver {
  import opened Common
  import opened Reassembly
  import opened ReassemblyInvariant
  import opened FrameCodec

  class ReassemblySlot {
    ghost const key: string
    const id: string
    const addon: string
    const mime: string
    const total: nat
    const firstSeenAt: int
    var frames: seq<Option<Bytes>>
    /** The properties of the frame array that are not elements of it. */
    var odd: seq<OddFrame>
    var receivedFrames: nat
    var bytes: nat

    ghost predicate Valid()
      reads this
    {
      && |frames| == total
      && receivedFrames == View().Received()
      && bytes == View().Bytes()
    }

    ghost function View(): Slot
      reads this
    {
      Slot(key, id, addon, mime, total, frames, odd, firstSeenAt)
    }

    constructor (c: Chunk, now: int)
      requires c.total >= 0.0
      ensures Valid()
      ensures View() == NewSlot(c, now)
    {
      id, addon, mime, total, firstSeenAt := c.id, c.addon, c.mime, c.total.Floor, now;
      key := MessageKey(c.addon, c.id);
      frames, odd := seq(c.total.Floor, _ => None), [];
      receivedFrames, bytes := 0, 0;
      new;
      NewSlotEmpty(c, now);
    }

    /** `frames[number]`. */
    method Get(number: real) returns (frame: Option<Bytes>)
      requires Valid() && 0.0 <= number < total as real
      ensures frame == View().At(number)
    {
      if Integral(number) {
        return frames[number.Floor];
      }
      frame := None;
      for n := 0 to |odd|
        invariant frame == OddAt(odd[..n], number)
      {
        assert odd[..n + 1][..n] == odd[..n];
        if odd[n].number == number {
          frame := Some(odd[n].body);
        }
      }
      assert odd[..|odd|] == odd;
    }

    method Put(number: real, body: Bytes)
      requires Valid() && 0.0 <= number < total as real && View().At(number).None?
      modifies this
      ensures Valid()
      ensures View() == old(View()).With(number, body)
      ensures bytes == old(bytes) + |body|
    {
      WithCounts(View(), number, body);
      if Integral(number) {
        frames := frames[number.Floor := Some(body)];
      } else {
        odd := odd + [OddFrame(number, body)];
      }
      receivedFrames := receivedFrames + 1;
      bytes := bytes + |body|;
    }

    /** The copying loop: the elements of the array go to their offsets in one buffer. */
    method CopyOut() returns (out: array<byte>)
      requires Valid()
      ensures fresh(out) && out[..] == View().Message()
    {
      AssembleLength(frames);
      out := new byte[bytes](_ => 0);
      var offset := 0;
      for i := 0 to total
        invariant fresh(out) && out.Length == bytes
        invariant offset == |Assemble(frames[..i])| <= |Assemble(frames)|
        invariant out[..offset] == Assemble(frames[..i])
        invariant forall j :: offset <= j < out.Length ==> out[j] == 0
      {
        AssembleNext(frames, i);
        if frames[i].Some? {
          CopyAt(out, offset, frames[i].value);
          offset := offset + |frames[i].value|;
        }
      }
      assert frames[..total] == frames;
      assert out[..] == out[..offset] + Zeros(OddBytes(odd));
    }
  }

  method CopyAt(out: array<byte>, offset: nat, f: Bytes)
    requires offset + |f| <= out.Length
    modifies out
    ensures out[..offset + |f|] == old(out[..offset]) + f
    ensures forall j :: offset + |f| <= j < out.Length ==> out[j] == old(out[j])
  {
    forall j | 0 <= j < |f| {
      out[offset + j] := f[j];
    }
  }

  lemma AssembleNext(frames: seq<Option<Bytes>>, i: nat)
    requires i < |frames|
    ensures Assemble(frames[..i + 1]) == Assemble(frames[..i]) + FrameBody(frames[i])
    ensures |Assemble(frames[..i + 1])| <= |Assemble(frames)|
  {
    assert frames[..i + 1][..i] == frames[..i];
    AssemblePrefix(frames, i + 1);
  }

  lemma {:induction false} AssemblePrefix(frames: seq<Option<Bytes>>, n: nat)
    requires n <= |frames|
    ensures |Assemble(frames[..n])| <= |Assemble(frames)|
    decreases |frames|
  {
    if n < |frames| {
      AssemblePrefix(frames[..|frames| - 1], n);
      assert frames[..|frames| - 1][..n] == frames[..n];
    } else {
      assert frames[..n] == frames;
    }
  }

  lemma FindAt(t: Table, key: string, n: nat)
    requires n < |t| && t[n].key == key
    requires forall j :: 0 <= j < n ==> t[j].key != key
    ensures Find(t, key) == n
  {
  }

  lemma WithoutWellFormed(t: Table, i: nat)
    requires WellFormed(t) && i < |t|
    ensures WellFormed(RemoveAt(t, i))
  {
    var r := RemoveAt(t, i);
    assert forall j :: 0 <= j < |r| ==> r[j] == t[if j < i then j else j + 1];
  }

  lemma {:induction false} OverflowFaultsCons(s: Slot, rest: seq<Slot>)
    ensures OverflowFaults([s] + rest) == [OverflowFault(s.addon, s.id)] + OverflowFaults(rest)
  {
    if rest != [] {
      OverflowFaultsCons(s, rest[..|rest| - 1]);
      assert ([s] + rest)[..|rest|] == [s] + rest[..|rest| - 1];
    } else {
      assert [s] + rest == [s] && [s][..0] == [];
    }
  }

  /** What is left to report before and after one round of the eviction loop. */
  lemma EvictOne(t: Table, protect: string, i: nat, events: seq<Event>)
    requires TableBytes(t) > BUDGET_BYTES && i == Oldest(t, protect, |t|) && i < |t|
    ensures Evict(t, protect).kept == Evict(RemoveAt(t, i), protect).kept
    ensures events + OverflowFaults(Evict(t, protect).dropped)
         == events + [OverflowFault(t[i].addon, t[i].id)] + OverflowFaults(Evict(RemoveAt(t, i), protect).dropped)
  {
    OverflowFaultsCons(t[i], Evict(RemoveAt(t, i), protect).dropped);
  }

  lemma EvictKeepsProtected(t: Table, i: nat)
    requires WellFormed(t) && i < |t| && t[i].Bytes() <= MESSAGE_MAX_BYTES
    ensures Find(Evict(t, t[i].key).kept, t[i].key) < |Evict(t, t[i].key).kept|
  {
    EvictDropsLeastRun(t, t[i].key);
    DroppingMembers(t, KeysOf(Evict(t, t[i].key).dropped));
    assert t[i] in Evict(t, t[i].key).kept;
  }

  lemma SettleReport(t: Table, i: nat, events: seq<Event>)
    requires i < |t| && t[i].Bytes() <= MESSAGE_MAX_BYTES
    ensures events + Settle(t, i).events
         == events + OverflowFaults(Evict(t, t[i].key).dropped)
            + if t[i].Complete() then [Binary(t[i].addon, t[i].mime, t[i].Message())] else []
  {
  }

  /** The handler for a chunk in range, by the outcome of looking for its slot. */
  lemma HandlePlaced(t: Table, c: Chunk, now: int)
    requires WellFormed(t) && InRange(c) && Place(t, c).Placed?
    ensures
      var i, grown := Find(t, MessageKey(c.addon, c.id)), Grow(t, c, now);
      i < |grown| && NumberFits(c, grown[i]) && HandleChunk(t, c, now) == StoreOnce(grown, i, c)
  {
  }

  lemma HandleRefused(t: Table, c: Chunk, now: int)
    requires WellFormed(t) && InRange(c) && !Place(t, c).Placed?
    ensures HandleChunk(t, c, now) == if Place(t, c).NoArray? then Outcome(t, [], true) else Outcome(t, [MismatchFault], false)
  {
  }

  lemma {:induction false} TimeoutFaultsCons(s: Slot, rest: seq<Slot>)
    ensures TimeoutFaults([s] + rest) == [TimeoutFault(s.addon, s.id)] + TimeoutFaults(rest)
  {
    if rest != [] {
      TimeoutFaultsCons(s, rest[..|rest| - 1]);
      assert ([s] + rest)[..|rest|] == [s] + rest[..|rest| - 1];
    } else {
      assert [s] + rest == [s] && [s][..0] == [];
    }
  }

  /** What is left to report before and after one deletion by the collector. */
  lemma CollectOneReport(t: Table, n: nat, now: int, events: seq<Event>)
    requires n < |t| && Stale(t[n], now)
    requires forall i :: 0 <= i < n ==> !Stale(t[i], now)
    ensures Collect(t, now).kept == Collect(RemoveAt(t, n), now).kept
    ensures events + TimeoutFaults(Collect(t, now).dropped)
         == events + [TimeoutFault(t[n].addon, t[n].id)] + TimeoutFaults(Collect(RemoveAt(t, n), now).dropped)
  {
    CollectOne(t, n, now);
    TimeoutFaultsCons(t[n], Collect(RemoveAt(t, n), now).dropped);
  }

  datatype Entry = Entry(key: string, slot: ReassemblySlot)

  class BinaryReceiver {
    /** The `Map`: its entries in insertion order. */
    var entries: seq<Entry>
    var reassemblyBytes: int
    var gcRunning: bool
    ghost var emitted: seq<Event>
    ghost var table: Table
    /** Every slot that has been in the map. */
    ghost var owned: set<ReassemblySlot>

    /** The map, its slots and the table fit together. */
    ghost predicate Coupled()
      reads this`entries, this`table, this`owned, owned
    {
      && |table| == |entries|
      && WellFormed(table)
      && forall i :: 0 <= i < |entries| ==>
           && entries[i].key == table[i].key
           && entries[i].slot in owned
           && entries[i].slot.Valid()
           && entries[i].slot.View() == table[i]
    }

    /** Holds throughout every handler. */
    ghost predicate Linked()
      reads this`entries, this`table, this`reassemblyBytes, this`owned, owned
    {
      Coupled() && reassemblyBytes == TableBytes(table)
    }

    /**
     * Between handler runs the byte counter is the sum of what is stored, the
     * timer runs exactly when something is stored, and the table is healthy.
     */
    ghost predicate Valid()
      reads this, owned
    {
      && Linked()
      && (gcRunning <==> entries != [])
      && Healthy(table)
    }

    constructor ()
      ensures Valid() && owned == {}
      ensures table == [] && emitted == []
    {
      entries, reassemblyBytes, gcRunning := [], 0, false;
      emitted, table := [], [];
      owned := {};
    }

    method StartGcIfNeeded()
      modifies this`gcRunning
      ensures gcRunning
    {
      if !gcRunning {
        gcRunning := true;
      }
    }

    method MaybeStopGc()
      modifies this`gcRunning
      ensures gcRunning <==> old(gcRunning) && entries != []
    {
      if |entries| == 0 && gcRunning {
        gcRunning := false;
      }
    }

    /** `Map.get`, as the position of the entry; the number of entries when there is none. */
    method Lookup(key: string) returns (i: nat)
      requires Linked()
      ensures i == Find(table, key)
    {
      for n := 0 to |entries|
        invariant forall j :: 0 <= j < n ==> table[j].key != key
      {
        if entries[n].key == key {
          FindAt(table, key, n);
          return n;
        }
      }
      i := |entries|;
    }

    /** `Map.delete` together with taking the slot's bytes off the counter. */
    method Drop(i: nat)
      requires Linked() && i < |entries|
      modifies this`entries, this`table, this`reassemblyBytes
      ensures Linked()
      ensures table == RemoveAt(old(table), i)
    {
      TableBytesSplit(table, i);
      WithoutWellFormed(table, i);
      reassemblyBytes := reassemblyBytes - entries[i].slot.bytes;
      entries := RemoveAt(entries, i);
      table := RemoveAt(table, i);
      forall n | 0 <= n < |entries|
        ensures entries[n].key == table[n].key && entries[n].slot in owned
        ensures entries[n].slot.Valid() && entries[n].slot.View() == table[n]
      {
        RemoveAtIndex(old(entries), i);
        RemoveAtIndex(old(table), i);
      }
    }

    /** The scan for the slot to drop: strictly smaller only, so the first wins a tie. */
    method OldestOther(protectKey: string) returns (oldest: Option<nat>)
      requires Linked()
      ensures Oldest(table, protectKey, |table|) == if oldest.Some? then oldest.value else |table|
      ensures oldest.Some? ==> oldest.value < |table|
    {
      oldest := None;
      for n := 0 to |entries|
        invariant Oldest(table, protectKey, n) == if oldest.Some? then oldest.value else |table|
        invariant oldest.Some? ==> oldest.value < n
      {
        assert entries[n].slot.View() == table[n];
        OldestNext(table, protectKey, n);
        if entries[n].key != protectKey {
          if oldest.None? || entries[n].slot.firstSeenAt < entries[oldest.value].slot.firstSeenAt {
            oldest := Some(n);
          }
        }
      }
    }

    method DropAndReport(i: nat, fault: Event)
      requires Linked() && i < |entries|
      modifies this`entries, this`table, this`reassemblyBytes, this`emitted
      ensures Linked()
      ensures table == RemoveAt(old(table), i) && emitted == old(emitted) + [fault]
    {
      Drop(i);
      emitted := emitted + [fault];
    }

    /** One round of the eviction loop; false when there is no other slot to drop. */
    method EvictOldest(protectKey: string) returns (found: bool)
      requires Linked() && TableBytes(table) > BUDGET_BYTES
      modifies this`entries, this`table, this`reassemblyBytes, this`emitted
      ensures Linked()
      ensures found ==> |table| < |old(table)|
      ensures !found ==> table == old(table) && Evict(table, protectKey).dropped == []
      ensures Evict(table, protectKey).kept == Evict(old(table), protectKey).kept
      ensures emitted + OverflowFaults(Evict(table, protectKey).dropped)
           == old(emitted) + OverflowFaults(Evict(old(table), protectKey).dropped)
    {
      var oldest := OldestOther(protectKey);
      found := oldest.Some?;
      if found {
        var slot := entries[oldest.value].slot;
        EvictOne(table, protectKey, oldest.value, emitted);
        DropAndReport(oldest.value, OverflowFault(slot.addon, slot.id));
      }
    }

    method EvictUntilUnderBudget(protectKey: string)
      requires Linked() && gcRunning
      modifies this`entries, this`table, this`reassemblyBytes, this`gcRunning, this`emitted
      ensures Linked()
      ensures table == Evict(old(table), protectKey).kept
      ensures emitted == old(emitted) + OverflowFaults(Evict(old(table), protectKey).dropped)
      ensures gcRunning <==> entries != []
    {
      while reassemblyBytes > BUDGET_BYTES
        invariant Linked() && gcRunning
        invariant Evict(table, protectKey).kept == Evict(old(table), protectKey).kept
        invariant emitted + OverflowFaults(Evict(table, protectKey).dropped)
               == old(emitted) + OverflowFaults(Evict(old(table), protectKey).dropped)
        decreases |table|
      {
        var found := EvictOldest(protectKey);
        if !found {
          return;
        }
      }
      MaybeStopGc();
    }

    /** `Map.set` of a slot that has no bytes yet. */
    method AddEntry(key: string, slot: ReassemblySlot)
      requires Linked() && slot !in owned && slot.Valid() && slot.View().key == key
      requires WellFormed(table + [slot.View()]) && TableBytes(table + [slot.View()]) == TableBytes(table)
      modifies this`entries, this`table, this`owned
      ensures Linked() && owned == old(owned) + {slot}
      ensures table == old(table) + [slot.View()]
    {
      entries := entries + [Entry(key, slot)];
      table := table + [slot.View()];
      owned := owned + {slot};
    }

    method Insert(c: Chunk, now: int)
      requires Linked() && c.total >= 0.0 && Find(table, MessageKey(c.addon, c.id)) == |table|
      modifies this`entries, this`table, this`owned
      ensures Linked() && fresh(owned - old(owned))
      ensures table == old(table) + [NewSlot(c, now)]
    {
      GrownWellFormed(table, c, now);
      var slot := new ReassemblySlot(c, now);
      AddEntry(MessageKey(c.addon, c.id), slot);
    }

    method PutFrame(i: nat, c: Chunk)
      requires Linked() && i < |table|
      requires NumberFits(c, table[i]) && table[i].At(c.seqNo).None?
      modifies this`table, this`reassemblyBytes, entries[i].slot
      ensures Linked()
      ensures table == Fill(old(table), i, c)
    {
      ghost var t := table;
      FillAdds(t, i, c);
      entries[i].slot.Put(c.seqNo, c.body);
      reassemblyBytes := reassemblyBytes + |c.body|;
      table := Fill(t, i, c);
      forall n | 0 <= n < |entries|
        ensures entries[n].key == table[n].key && entries[n].slot.Valid() && entries[n].slot.View() == table[n]
      {
        assert n != i ==> entries[n].slot != entries[i].slot;
      }
    }

    method RejectOversized(i: nat)
      requires Linked() && gcRunning && i < |table| && table[i].Bytes() > MESSAGE_MAX_BYTES
      modifies this`entries, this`table, this`reassemblyBytes, this`gcRunning, this`emitted
      ensures Linked() && (gcRunning <==> entries != [])
      ensures table == RemoveAt(old(table), i)
      ensures emitted == old(emitted) + [CapFault(old(table)[i].Bytes())]
    {
      var size := entries[i].slot.bytes;
      Drop(i);
      MaybeStopGc();
      emitted := emitted + [CapFault(size)];
    }

    /** Takes a slot out of the map and its bytes off the counter. */
    method Release(key: string)
      requires Linked() && gcRunning && Find(table, key) < |table|
      modifies this`entries, this`table, this`reassemblyBytes, this`gcRunning
      ensures Linked() && (gcRunning <==> entries != [])
      ensures table == WithoutKey(old(table), key)
    {
      var j := Lookup(key);
      Drop(j);
      MaybeStopGc();
    }

    method Deliver(key: string, slot: ReassemblySlot)
      requires Linked() && gcRunning && Find(table, key) < |table|
      requires slot.Valid()
      modifies this`entries, this`table, this`reassemblyBytes, this`gcRunning, this`emitted
      ensures Linked() && (gcRunning <==> entries != [])
      ensures table == WithoutKey(old(table), key)
      ensures emitted == old(emitted) + [Binary(slot.addon, slot.mime, slot.View().Message())]
    {
      var out := slot.CopyOut();
      Release(key);
      emitted := emitted + [Binary(slot.addon, slot.mime, out[..])];
    }

    /** The cap, the budget and the delivery, once a frame has been stored. */
    method SettleSlot(i: nat)
      requires Linked() && gcRunning && i < |table|
      modifies this`entries, this`table, this`reassemblyBytes, this`gcRunning, this`emitted
      ensures Linked() && (gcRunning <==> entries != [])
      ensures table == Settle(old(table), i).table
      ensures emitted == old(emitted) + Settle(old(table), i).events
    {
      var key, slot := entries[i].key, entries[i].slot;
      if slot.bytes > MESSAGE_MAX_BYTES {
        RejectOversized(i);
      } else {
        ghost var t := table;
        EvictKeepsProtected(t, i);
        SettleReport(t, i, emitted);
        EvictUntilUnderBudget(key);
        if slot.receivedFrames == slot.total {
          Deliver(key, slot);
        }
      }
    }

    /** Where the slot of a chunk is or would go, and whether the chunk fits it. */
    method FindSlot(c: Chunk) returns (i: nat, verdict: Placement)
      requires Linked()
      ensures i == Find(table, MessageKey(c.addon, c.id))
      ensures verdict == Place(table, c)
    {
      i := Lookup(MessageKey(c.addon, c.id));
      if i == |entries| {
        verdict := if Makeable(c.total) then Placed else NoArray;
      } else {
        var slot := entries[i].slot;
        assert slot.View() == table[i];
        verdict := if slot.total as real != c.total || slot.mime != c.mime then Mismatch else Placed;
      }
    }

    /** Makes the slot of a chunk when there is none yet, and starts the timer for it. */
    method EnsureSlot(c: Chunk, now: int, i: nat)
      requires Linked() && (gcRunning <==> entries != []) && InRange(c)
      requires i == Find(table, MessageKey(c.addon, c.id))
      modifies this`entries, this`table, this`owned, this`gcRunning
      ensures Linked() && gcRunning && fresh(owned - old(owned))
      ensures table == Grow(old(table), c, now)
    {
      if i == |entries| {
        Insert(c, now);
        StartGcIfNeeded();
      }
    }

    /** Does to the map what Reassembly.HandleChunk does to the table. */
    method HandleChunk(c: Chunk, now: int) returns (threw: bool)
      requires Valid()
      modifies this, owned
      ensures Valid() && fresh(owned - old(owned))
      ensures table == Reassembly.HandleChunk(old(table), c, now).table
      ensures emitted == old(emitted) + Reassembly.HandleChunk(old(table), c, now).events
      ensures threw == Reassembly.HandleChunk(old(table), c, now).threw
    {
      threw := false;
      HandleChunkKeepsHealthy(table, c, now);
      if c.total < 1.0 || c.seqNo < 0.0 || c.seqNo >= c.total {
        emitted := emitted + [RangeFault];
        return;
      }
      threw := Process(c, now);
    }

    /** Makes the slot when there is none, and stores the frame unless it is there. */
    method StorePlaced(c: Chunk, now: int, i: nat)
      requires Linked() && (gcRunning <==> entries != []) && InRange(c)
      requires i == Find(table, MessageKey(c.addon, c.id)) && Place(table, c).Placed?
      modifies this, owned
      ensures Linked() && (gcRunning <==> entries != []) && fresh(owned - old(owned))
      ensures
        var o := StoreOnce(Grow(old(table), c, now), i, c);
        table == o.table && emitted == old(emitted) + o.events
    {
      HandlePlaced(table, c, now);
      EnsureSlot(c, now, i);
      ghost var mine := owned;
      StoreFrame(i, c);
      assert owned == mine;
    }

    method StoreChunk(c: Chunk, now: int, i: nat)
      requires Linked() && (gcRunning <==> entries != []) && InRange(c)
      requires i == Find(table, MessageKey(c.addon, c.id)) && Place(table, c).Placed?
      modifies this, owned
      ensures Linked() && (gcRunning <==> entries != []) && fresh(owned - old(owned))
      ensures table == Reassembly.HandleChunk(old(table), c, now).table
      ensures emitted == old(emitted) + Reassembly.HandleChunk(old(table), c, now).events
      ensures !Reassembly.HandleChunk(old(table), c, now).threw
    {
      HandlePlaced(table, c, now);
      StorePlaced(c, now, i);
    }

    method Process(c: Chunk, now: int) returns (threw: bool)
      requires Linked() && (gcRunning <==> entries != []) && InRange(c)
      modifies this, owned
      ensures Linked() && (gcRunning <==> entries != []) && fresh(owned - old(owned))
      ensures table == Reassembly.HandleChunk(old(table), c, now).table
      ensures emitted == old(emitted) + Reassembly.HandleChunk(old(table), c, now).events
      ensures threw == Reassembly.HandleChunk(old(table), c, now).threw
    {
      var i, verdict := FindSlot(c);
      threw := verdict == NoArray;
      if verdict == Placed {
        StoreChunk(c, now, i);
      } else {
        HandleRefused(table, c, now);
        if verdict == Mismatch {
          emitted := emitted + [MismatchFault];
        }
      }
    }

    method StoreFrame(i: nat, c: Chunk)
      requires Linked() && gcRunning && i < |table| && NumberFits(c, table[i])
      modifies this`entries, this`table, this`reassemblyBytes, this`gcRunning, this`emitted, entries[i].slot
      ensures Linked() && (gcRunning <==> entries != [])
      ensures table == StoreOnce(old(table), i, c).table
      ensures emitted == old(emitted) + StoreOnce(old(table), i, c).events
    {
      var there := entries[i].slot.Get(c.seqNo);
      if there.None? {
        PutFrame(i, c);
        SettleSlot(i);
      }
    }

    /** Drops what is at least a timeout old while iterating over the map. */
    method GcStaleReassemblies(now: int)
      requires Valid()
      modifies this
      ensures Valid() && owned == old(owned)
      ensures table == Collect(old(table), now).kept
      ensures emitted == old(emitted) + TimeoutFaults(Collect(old(table), now).dropped)
    {
      StepKeepsHealthy(table, Tick(now));
      Sweep(now);
      MaybeStopGc();
    }

    method Sweep(now: int)
      requires Linked()
      modifies this`entries, this`table, this`reassemblyBytes, this`emitted
      ensures Linked()
      ensures table == Collect(old(table), now).kept
      ensures emitted == old(emitted) + TimeoutFaults(Collect(old(table), now).dropped)
      ensures old(entries) == [] ==> entries == []
    {
      var n := 0;
      while n < |entries|
        invariant Linked()
        invariant n <= |table| && forall j :: 0 <= j < n ==> !Stale(table[j], now)
        invariant Collect(table, now).kept == Collect(old(table), now).kept
        invariant emitted + TimeoutFaults(Collect(table, now).dropped)
               == old(emitted) + TimeoutFaults(Collect(old(table), now).dropped)
        invariant old(entries) == [] ==> entries == []
        decreases |entries| - n
      {
        if now - entries[n].slot.firstSeenAt < TIMEOUT_MS {
          n := n + 1;
        } else {
          DropStale(n, now);
        }
      }
      CollectFresh(table, now);
      assert TimeoutFaults([]) == [];
    }

    method DropStale(n: nat, now: int)
      requires Linked() && n < |table| && Stale(table[n], now)
      requires forall j :: 0 <= j < n ==> !Stale(table[j], now)
      modifies this`entries, this`table, this`reassemblyBytes, this`emitted
      ensures Linked() && |table| == |old(table)| - 1
      ensures forall j :: 0 <= j < n ==> table[j] == old(table)[j]
      ensures Collect(table, now).kept == Collect(old(table), now).kept
      ensures emitted + TimeoutFaults(Collect(table, now).dropped)
           == old(emitted) + TimeoutFaults(Collect(old(table), now).dropped)
    {
      var slot := entries[n].slot;
      CollectOneReport(table, n, now, emitted);
      DropAndReport(n, TimeoutFault(slot.addon, slot.id));
    }

    /** One buffer from the channel: an error event, a whole message, or a chunk step. */
    method HandleBinaryFrame(read: ReadHeader, buf: Bytes, now: int) returns (threw: bool)
      requires Valid()
      modifies this, owned
      ensures Valid() && fresh(owned - old(owned))
      ensures
        var o := Step(old(table), Arrival(Parse(read, buf), now));
        table == o.table && emitted == old(emitted) + o.events && threw == o.threw
    {
      threw := false;
      match Parse(read, buf) {
        case Rejected(fault) => emitted := emitted + [FrameError(fault)];
        case Threw => threw := true;
        case Whole(addon, mime, bytes) => emitted := emitted + [Binary(addon, mime, bytes)];
        case Chunked(c) => threw := HandleChunk(c, now);
      }
    }

    /** The clean-up at the end of `close`. */
    method Close()
      requires Valid()
      modifies this
      ensures Valid() && table == [] && emitted == old(emitted) && !gcRunning && reassemblyBytes == 0
    {
      entries, table, reassemblyBytes := [], [], 0;
      gcRunning := false;
    }
  }
}
