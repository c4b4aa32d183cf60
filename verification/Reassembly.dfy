/**
 * What the receiving half of a PeerSession does with chunked binary messages,
 * as a function on values. The table is the JavaScript `Map` of partly received
 * messages, in insertion order; the byte and frame counters that the code keeps
 * beside it are derived here, so that the class in BinaryReceiver.dfy has
 * something to keep its counters in step with.
 */
module Reassembly {
  import opened Common

  const MESSAGE_MAX_BYTES: int := 4 * 1024 * 1024
  const BUDGET_BYTES: int := 16 * 1024 * 1024
  const TIMEOUT_MS: int := 60_000
  /** `new Array(n)` throws a RangeError above this length. */
  const ARRAY_LENGTH_MAX: int := 4_294_967_295
  const UNIT_SEPARATOR: char := 0x1f as char

  /**
   * One frame of a chunked message, after its header has been accepted. The header
   * is only asked for numbers, so neither of them need be integral.
   */
  datatype Chunk = Chunk(addon: string, mime: string, id: string, seqNo: real, total: real, body: Bytes)

  predicate Integral(x: real) {
    x == x.Floor as real
  }

  datatype Event =
    | Binary(addon: string, mime: string, bytes: Bytes)
    | FrameError(reason: FrameFault)
    | RangeFault
    | MismatchFault
    | CapFault(size: nat)
    | OverflowFault(addon: string, id: string)
    | TimeoutFault(addon: string, id: string)

  datatype FrameFault = TooShort | HeaderLength | HeaderParse | HeaderSchema | BodySize

  function MessageKey(addon: string, id: string): string {
    addon + [UNIT_SEPARATOR] + id
  }

  /** A frame stored under a number that is no array index, as a property beside the elements. */
  datatype OddFrame = OddFrame(number: real, body: Bytes)

  datatype Slot = Slot(key: string, id: string, addon: string, mime: string, total: nat,
                       frames: seq<Option<Bytes>>, odd: seq<OddFrame>, firstSeenAt: int) {
    function Bytes(): nat {
      FramesBytes(frames) + OddBytes(odd)
    }

    function Received(): nat {
      FramesCount(frames) + |odd|
    }

    predicate Complete() {
      Received() == total
    }

    /** The frame with this number: an element of the array or a property of it. */
    function At(number: real): Option<Bytes> {
      if !Integral(number) then OddAt(odd, number)
      else if 0 <= number.Floor < |frames| then frames[number.Floor]
      else None
    }

    function With(number: real, body: Bytes): Slot
      requires 0.0 <= number < |frames| as real
    {
      if Integral(number) then this.(frames := frames[number.Floor := Some(body)])
      else this.(odd := odd + [OddFrame(number, body)])
    }

    /**
     * What the copying loop makes of the slot: it visits the elements of the array
     * only, so the room that was set aside for the other frames stays zero.
     */
    function Message(): Bytes {
      Assemble(frames) + Zeros(OddBytes(odd))
    }
  }

  function OddAt(odd: seq<OddFrame>, number: real): Option<Bytes> {
    if odd == [] then None
    else if odd[|odd| - 1].number == number then Some(odd[|odd| - 1].body)
    else OddAt(odd[..|odd| - 1], number)
  }

  function OddBytes(odd: seq<OddFrame>): nat {
    if odd == [] then 0 else OddBytes(odd[..|odd| - 1]) + |odd[|odd| - 1].body|
  }

  function Zeros(n: nat): Bytes {
    seq(n, _ => 0)
  }

  type Table = seq<Slot>

  function FrameBody(f: Option<Bytes>): Bytes {
    if f.Some? then f.value else []
  }

  function FramesBytes(frames: seq<Option<Bytes>>): nat {
    if frames == [] then 0 else FramesBytes(frames[..|frames| - 1]) + |FrameBody(frames[|frames| - 1])|
  }

  function FramesCount(frames: seq<Option<Bytes>>): nat {
    if frames == [] then 0
    else FramesCount(frames[..|frames| - 1]) + if frames[|frames| - 1].Some? then 1 else 0
  }

  /** The stored bodies in frame order, skipping gaps as the copying loop does. */
  function Assemble(frames: seq<Option<Bytes>>): Bytes {
    if frames == [] then []
    else Assemble(frames[..|frames| - 1]) + FrameBody(frames[|frames| - 1])
  }

  function TableBytes(t: Table): nat {
    if t == [] then 0 else TableBytes(t[..|t| - 1]) + t[|t| - 1].Bytes()
  }

  function Find(t: Table, key: string): (i: nat)
    ensures i <= |t|
    ensures i < |t| ==> t[i].key == key
    ensures forall j :: 0 <= j < i ==> t[j].key != key
  {
    if t == [] then 0
    else if t[0].key == key then 0
    else
      var rest := Find(t[1..], key);
      assert forall j :: 1 <= j < rest + 1 ==> t[j] == t[1..][j - 1];
      rest + 1
  }

  function WithoutKey(t: Table, key: string): Table {
    var i := Find(t, key);
    if i < |t| then RemoveAt(t, i) else t
  }

  predicate DistinctKeys(t: Table) {
    forall i, j :: 0 <= i < j < |t| ==> t[i].key != t[j].key
  }

  // ----- eviction and garbage collection

  datatype Purge = Purge(kept: Table, dropped: seq<Slot>)

  /**
   * Index of the slot with the smallest `firstSeenAt` among the first `n`, the
   * protected key aside and the earliest inserted on a tie; `|t|` when there is none.
   */
  function Oldest(t: Table, protect: string, n: nat): (i: nat)
    requires n <= |t|
    ensures i < n || i == |t|
    ensures i < n ==> t[i].key != protect
    ensures i < n ==> forall j :: 0 <= j < n && t[j].key != protect && j != i ==> Older(t, i, j)
    ensures i == |t| ==> forall j :: 0 <= j < n ==> t[j].key == protect
  {
    if n == 0 then |t|
    else
      var i := Oldest(t, protect, n - 1);
      if t[n - 1].key == protect then i
      else if i == |t| || t[n - 1].firstSeenAt < t[i].firstSeenAt then n - 1
      else i
  }

  lemma OldestNext(t: Table, protect: string, n: nat)
    requires n < |t|
    ensures
      var i := Oldest(t, protect, n);
      Oldest(t, protect, n + 1) ==
        if t[n].key == protect then i
        else if i == |t| || t[n].firstSeenAt < t[i].firstSeenAt then n
        else i
  {
  }

  predicate Older(t: Table, i: nat, j: nat)
    requires i < |t| && j < |t|
  {
    t[i].firstSeenAt < t[j].firstSeenAt || (t[i].firstSeenAt == t[j].firstSeenAt && i < j)
  }

  function Evict(t: Table, protect: string): Purge
    decreases |t|
  {
    var i := Oldest(t, protect, |t|);
    if TableBytes(t) <= BUDGET_BYTES || i == |t| then Purge(t, [])
    else
      var rest := Evict(RemoveAt(t, i), protect);
      Purge(rest.kept, [t[i]] + rest.dropped)
  }

  predicate Stale(s: Slot, now: int) {
    now - s.firstSeenAt >= TIMEOUT_MS
  }

  function Collect(t: Table, now: int): Purge {
    if t == [] then Purge([], [])
    else
      var front := Collect(t[..|t| - 1], now);
      var last := t[|t| - 1];
      if Stale(last, now) then Purge(front.kept, front.dropped + [last])
      else Purge(front.kept + [last], front.dropped)
  }

  function OverflowFaults(dropped: seq<Slot>): seq<Event> {
    if dropped == [] then []
    else
      var last := dropped[|dropped| - 1];
      OverflowFaults(dropped[..|dropped| - 1]) + [OverflowFault(last.addon, last.id)]
  }

  function TimeoutFaults(dropped: seq<Slot>): seq<Event> {
    if dropped == [] then []
    else
      var last := dropped[|dropped| - 1];
      TimeoutFaults(dropped[..|dropped| - 1]) + [TimeoutFault(last.addon, last.id)]
  }

  // ----- one step of the receiver

  /** The outcome of a handler; `threw` when an exception leaves it. */
  datatype Outcome = Outcome(table: Table, events: seq<Event>, threw: bool)

  /** What a received buffer turned out to be. */
  datatype Parsed =
    | Rejected(fault: FrameFault)
    | Threw
    | Whole(addon: string, mime: string, bytes: Bytes)
    | Chunked(chunk: Chunk)

  datatype Input = Arrival(parsed: Parsed, now: int) | Tick(now: int)

  function NewSlot(c: Chunk, now: int): Slot
    requires c.total >= 0.0
  {
    var total := c.total.Floor;
    Slot(MessageKey(c.addon, c.id), c.id, c.addon, c.mime, total, seq(total, _ => None), [], now)
  }

  predicate InRange(c: Chunk) {
    1.0 <= c.total && 0.0 <= c.seqNo < c.total
  }

  /** The number of the chunk is below the length of the slot's array. */
  predicate NumberFits(c: Chunk, s: Slot) {
    0.0 <= c.seqNo < |s.frames| as real
  }

  function Fill(t: Table, i: nat, c: Chunk): Table
    requires i < |t| && NumberFits(c, t[i])
  {
    t[i := t[i].With(c.seqNo, c.body)]
  }

  /** What follows once the slot at index `i` has taken its frame. */
  function Settle(filled: Table, i: nat): Outcome
    requires i < |filled|
  {
    var slot := filled[i];
    if slot.Bytes() > MESSAGE_MAX_BYTES then
      Outcome(RemoveAt(filled, i), [CapFault(slot.Bytes())], false)
    else
      var purge := Evict(filled, slot.key);
      if slot.Complete() then
        Outcome(WithoutKey(purge.kept, slot.key),
                OverflowFaults(purge.dropped) + [Binary(slot.addon, slot.mime, slot.Message())], false)
      else
        Outcome(purge.kept, OverflowFaults(purge.dropped), false)
  }

  /** Everything from `slot.frames[seq] = body` on, for the slot at index `i`. */
  function Store(t: Table, i: nat, c: Chunk): Outcome
    requires i < |t| && NumberFits(c, t[i])
  {
    Settle(Fill(t, i, c), i)
  }

  datatype Placement = Placed | Mismatch | NoArray

  /** `new Array(total)` gives an array and does not throw a RangeError. */
  predicate Makeable(total: real) {
    Integral(total) && 0 <= total.Floor <= ARRAY_LENGTH_MAX
  }

  /** Whether a chunk finds a slot that fits it, or one can be made. */
  function Place(t: Table, c: Chunk): Placement {
    var i := Find(t, MessageKey(c.addon, c.id));
    if i == |t| then
      if Makeable(c.total) then Placed else NoArray
    else if t[i].total as real != c.total || t[i].mime != c.mime then Mismatch
    else Placed
  }

  /** The table with a slot for the chunk, a new one at the end when there was none. */
  function Grow(t: Table, c: Chunk, now: int): Table
    requires c.total >= 0.0
  {
    if Find(t, MessageKey(c.addon, c.id)) < |t| then t else t + [NewSlot(c, now)]
  }

  /** A frame that is already there is ignored. */
  function StoreOnce(t: Table, i: nat, c: Chunk): Outcome
    requires i < |t| && NumberFits(c, t[i])
  {
    if t[i].At(c.seqNo).Some? then Outcome(t, [], false) else Store(t, i, c)
  }

  function HandleChunk(t: Table, c: Chunk, now: int): Outcome
    requires WellFormed(t)
  {
    if !InRange(c) then Outcome(t, [RangeFault], false)
    else
      match Place(t, c)
      case NoArray => Outcome(t, [], true)
      case Mismatch => Outcome(t, [MismatchFault], false)
      case Placed => StoreOnce(Grow(t, c, now), Find(t, MessageKey(c.addon, c.id)), c)
  }

  function Step(t: Table, x: Input): Outcome
    requires WellFormed(t)
  {
    match x
    case Tick(now) =>
      var purge := Collect(t, now);
      Outcome(purge.kept, TimeoutFaults(purge.dropped), false)
    case Arrival(Rejected(fault), _) => Outcome(t, [FrameError(fault)], false)
    case Arrival(Threw, _) => Outcome(t, [], true)
    case Arrival(Whole(addon, mime, bytes), _) => Outcome(t, [Binary(addon, mime, bytes)], false)
    case Arrival(Chunked(c), now) => HandleChunk(t, c, now)
  }

  ghost predicate WellFormed(t: Table) {
    && DistinctKeys(t)
    && forall i :: 0 <= i < |t| ==> |t[i].frames| == t[i].total
  }
}
