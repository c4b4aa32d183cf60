/**
 * The sending half: cutting a message into frames, numbering messages, and what
 * can go wrong half-way through a message.
 */
module BinarySender {
  import opened Common
  import opened Reassembly
  import opened FrameCodec

  const BODY_PER_FRAME: int := 60 * 1024
  const COUNTER_MODULUS: int := 0xff_ffff

  datatype Message = Message(addon: string, mime: string, bytes: Bytes)

  // ----- cutting

  /** `Math.max(1, Math.ceil(size / BODY_PER_FRAME))`. */
  function FrameCount(size: nat): nat {
    var n := (size + BODY_PER_FRAME - 1) / BODY_PER_FRAME;
    if n < 1 then 1 else n
  }

  function Min(a: int, b: int): int {
    if a < b then a else b
  }

  function Slice(bytes: Bytes, q: nat): Bytes
    requires q < FrameCount(|bytes|)
  {
    bytes[q * BODY_PER_FRAME..Min(q * BODY_PER_FRAME + BODY_PER_FRAME, |bytes|)]
  }

  /** Frame `q` of a message; a message of one frame carries no part fields. */
  function FrameAt(m: Message, id: string, q: nat): Frame
    requires q < FrameCount(|m.bytes|)
  {
    var total := FrameCount(|m.bytes|);
    Frame(m.addon, m.mime, Slice(m.bytes, q), if total == 1 then None else Some(Part(id, q, total)))
  }

  function Slices(bytes: Bytes, n: nat): seq<Bytes>
    requires n <= FrameCount(|bytes|)
  {
    seq(n, q requires 0 <= q < n => Slice(bytes, q))
  }

  lemma FrameCountBounds(size: nat)
    ensures size <= FrameCount(size) * BODY_PER_FRAME
    ensures FrameCount(size) > 1 ==> (FrameCount(size) - 1) * BODY_PER_FRAME < size
    ensures FrameCount(size) == 1 <==> size <= BODY_PER_FRAME
  {
    var n := (size + 61439) / 61440;
    assert n * 61440 <= size + 61439 < n * 61440 + 61440;
  }

  lemma Below(q: nat, n: nat)
    requires q + 1 < n
    ensures (q + 1) * BODY_PER_FRAME <= (n - 1) * BODY_PER_FRAME
  {
  }

  lemma SliceSize(bytes: Bytes, q: nat)
    requires q < FrameCount(|bytes|)
    ensures |Slice(bytes, q)| <= BODY_PER_FRAME
    ensures |Slice(bytes, q)| == BODY_PER_FRAME <==> |bytes| >= (q + 1) * BODY_PER_FRAME
    ensures q + 1 < FrameCount(|bytes|) ==> |Slice(bytes, q)| == BODY_PER_FRAME
    ensures FrameCount(|bytes|) > 1 ==> |Slice(bytes, q)| > 0
  {
    var n := FrameCount(|bytes|);
    FrameCountBounds(|bytes|);
    if q + 1 < n {
      Below(q, n);
    }
  }

  function End(bytes: Bytes, n: nat): nat {
    Min(n * BODY_PER_FRAME, |bytes|)
  }

  lemma SliceExtends(bytes: Bytes, q: nat)
    requires q < FrameCount(|bytes|)
    ensures bytes[..End(bytes, q)] + Slice(bytes, q) == bytes[..End(bytes, q + 1)]
  {
    SliceSize(bytes, q);
    var a, b := q * BODY_PER_FRAME, Min(q * BODY_PER_FRAME + BODY_PER_FRAME, |bytes|);
    assert bytes[..a] + bytes[a..b] == bytes[..b];
  }

  /** The first `n` slices, joined, are the first bytes of the message. */
  lemma {:induction false} SlicesJoin(bytes: Bytes, n: nat)
    requires n <= FrameCount(|bytes|)
    ensures Flatten(Slices(bytes, n)) == bytes[..End(bytes, n)]
  {
    if n > 0 {
      SlicesJoin(bytes, n - 1);
      assert Slices(bytes, n)[..n - 1] == Slices(bytes, n - 1);
      SliceExtends(bytes, n - 1);
    }
  }

  /**
   * Cutting is exact for every size: the slices partition the bytes in order, and
   * within the message cap there are at most 69 of them.
   */
  lemma SlicesPartition(bytes: Bytes)
    ensures Flatten(Slices(bytes, FrameCount(|bytes|))) == bytes
    ensures |bytes| <= MESSAGE_MAX_BYTES ==> FrameCount(|bytes|) <= 69
  {
    FrameCountBounds(|bytes|);
    SlicesJoin(bytes, FrameCount(|bytes|));
  }

  /**
   * What frame `q` of a message says: its bytes from 61,440 times `q` on, at most
   * 61,440 of them, and, when the message is longer than that, which frame of how
   * many it is.
   */
  lemma FrameSays(m: Message, id: string, q: nat)
    requires q < FrameCount(|m.bytes|)
    ensures
      var f, size, total := FrameAt(m, id, q), |m.bytes|, FrameCount(|m.bytes|);
      && f.addon == m.addon && f.mime == m.mime
      && 61_440 * q <= size && f.body == (if size - 61_440 * q > 61_440 then m.bytes[61_440 * q..61_440 * q + 61_440] else m.bytes[61_440 * q..])
      && (size <= 61_440 ==> q == 0 && total == 1 && f.part == None)
      && (size > 61_440 ==> f.part == Some(Part(id, q, total)) && 61_440 * (total - 1) < size <= 61_440 * total)
  {
    FrameCountBounds(|m.bytes|);
    SliceSize(m.bytes, q);
  }

  // ----- header lengths

  /** The header bytes that do not depend on which frame of the message it is. */
  function HeaderBase(quote: Quote, m: Message, id: string): nat {
    |Ascii("{\"v\":1,\"addon\":")| + |quote(m.addon)| + |Ascii(",\"mime\":")| + |quote(m.mime)| + |Ascii(",\"size\":")|
    + |Ascii(",\"id\":")| + |quote(id)| + |Ascii(",\"seq\":")| + |Ascii(",\"total\":")| + |Ascii("}")|
    + Digits(FrameCount(|m.bytes|))
  }

  lemma HeaderLength(quote: Quote, m: Message, id: string, q: nat)
    requires q < FrameCount(|m.bytes|) && FrameCount(|m.bytes|) > 1
    ensures |PrintHeader(quote, FrameAt(m, id, q))| == HeaderBase(quote, m, id) + Digits(|Slice(m.bytes, q)|) + Digits(q)
  {
  }

  lemma SmallDigits(q: nat, size: nat)
    requires q < 69 && size <= BODY_PER_FRAME
    ensures Digits(q) == if q < 10 then 1 else 2
    ensures Digits(size) <= 5 && Digits(BODY_PER_FRAME) == 5
  {
    FiveDigits(size);
    FiveDigits(BODY_PER_FRAME);
  }

  lemma FiveDigits(n: nat)
    requires n < 100_000
    ensures Digits(n) <= 5
    ensures n >= 10_000 ==> Digits(n) == 5
  {
    var a := n / 10;
    var b := a / 10;
    var c := b / 10;
    var d := c / 10;
    assert d < 10 && (n >= 10_000 ==> d >= 1);
    assert Digits(d) == 1;
    assert Digits(c) <= 2 && (c >= 10 ==> Digits(c) == 2);
    assert Digits(b) <= 3 && (b >= 100 ==> Digits(b) == 3);
    assert Digits(a) <= 4 && (a >= 1_000 ==> Digits(a) == 4);
  }

  lemma FitArithmetic(base: nat, q: nat, size: nat)
    requires q < 69 && size <= BODY_PER_FRAME
    ensures
      var first := base + Digits(BODY_PER_FRAME) + Digits(0);
      first <= 4092 ==>
        (4 + (base + Digits(size) + Digits(q)) + size <= FRAME_MAX_BYTES <==> q < 10 || first < 4092 || size < BODY_PER_FRAME)
  {
    SmallDigits(0, BODY_PER_FRAME);
    SmallDigits(q, size);
  }

  /** Which frames of a message fit, in terms of the header length of frame 0. */
  lemma FrameFits(quote: Quote, m: Message, id: string, q: nat)
    requires q < FrameCount(|m.bytes|) && FrameCount(|m.bytes|) > 1 && |m.bytes| <= MESSAGE_MAX_BYTES
    ensures
      var first := |PrintHeader(quote, FrameAt(m, id, 0))|;
      first <= 4092 ==>
        (Fits(quote, FrameAt(m, id, q)) <==> q < 10 || first < 4092 || |m.bytes| < (q + 1) * BODY_PER_FRAME)
    ensures Fits(quote, FrameAt(m, id, 0)) <==> |PrintHeader(quote, FrameAt(m, id, 0))| <= 4092
  {
    SlicesPartition(m.bytes);
    SliceSize(m.bytes, 0);
    SliceSize(m.bytes, q);
    HeaderLength(quote, m, id, 0);
    HeaderLength(quote, m, id, q);
    FitArithmetic(HeaderBase(quote, m, id), q, |Slice(m.bytes, q)|);
  }

  /** How many frames, of the first `n`, are sent before one is too large. */
  function FittingPrefix(quote: Quote, m: Message, id: string, n: nat): (k: nat)
    requires n <= FrameCount(|m.bytes|)
    ensures k <= n
    ensures forall q :: 0 <= q < k ==> Fits(quote, FrameAt(m, id, q))
    ensures k < n ==> !Fits(quote, FrameAt(m, id, k))
  {
    if n == 0 then 0
    else
      var k := FittingPrefix(quote, m, id, n - 1);
      if k == n - 1 && Fits(quote, FrameAt(m, id, n - 1)) then n else k
  }

  function SentPrefix(quote: Quote, m: Message, id: string): nat {
    FittingPrefix(quote, m, id, FrameCount(|m.bytes|))
  }

  /**
   * A message is sent in part, some frames going out before one throws, exactly
   * when the header of frame 0 is 4,092 bytes long and the message has a full
   * frame with a two-digit number. One byte less and every frame goes out; one
   * byte more and none does.
   */
  lemma SentInPartExactly(quote: Quote, m: Message, id: string)
    requires FrameCount(|m.bytes|) > 1 && |m.bytes| <= MESSAGE_MAX_BYTES
    ensures
      var first := |PrintHeader(quote, FrameAt(m, id, 0))|;
      var k := SentPrefix(quote, m, id);
      && (0 < k < FrameCount(|m.bytes|) <==> first == 4092 && |m.bytes| >= 11 * BODY_PER_FRAME)
      && (k == FrameCount(|m.bytes|) <==> first < 4092 || (first == 4092 && |m.bytes| < 11 * BODY_PER_FRAME))
      && (0 < k < FrameCount(|m.bytes|) ==> k == 10)
  {
    var k := SentPrefix(quote, m, id);
    FrameFits(quote, m, id, 0);
    FrameCountBounds(|m.bytes|);
    if k < FrameCount(|m.bytes|) {
      FrameFits(quote, m, id, k);
    }
    if |m.bytes| >= 11 * BODY_PER_FRAME {
      FullFrames(|m.bytes|, 10);
      FrameFits(quote, m, id, 10);
    } else if k < FrameCount(|m.bytes|) {
      FewFrames(|m.bytes|, k);
    }
  }

  lemma FullFrames(size: nat, q: nat)
    requires size >= (q + 1) * BODY_PER_FRAME
    ensures q < FrameCount(size)
  {
    FrameCountBounds(size);
    assert (q + 1) * BODY_PER_FRAME <= FrameCount(size) * BODY_PER_FRAME;
  }

  lemma FewFrames(size: nat, q: nat)
    requires size < 11 * BODY_PER_FRAME
    ensures q >= 10 ==> size < (q + 1) * BODY_PER_FRAME
  {
    assert q >= 10 ==> (q + 1) * BODY_PER_FRAME >= 11 * BODY_PER_FRAME;
  }

  // ----- message ids

  function Digit36(d: nat): char
    requires d < 36
  {
    if d < 10 then ('0' as int + d) as char else ('a' as int + d - 10) as char
  }

  /** `toString(36)` of a natural number. */
  function Base36(n: nat): string {
    if n < 36 then [Digit36(n)] else Base36(n / 36) + [Digit36(n % 36)]
  }

  function Value36(s: string): int {
    if s == [] then 0
    else
      var c := s[|s| - 1] as int;
      36 * Value36(s[..|s| - 1]) + if c <= '9' as int then c - '0' as int else c - 'a' as int + 10
  }

  lemma {:induction false} Base36Value(n: nat)
    ensures Value36(Base36(n)) == n
    ensures forall i :: 0 <= i < |Base36(n)| ==> '0' <= Base36(n)[i] <= '9' || 'a' <= Base36(n)[i] <= 'z'
  {
    if n >= 36 {
      Base36Value(n / 36);
      assert Base36(n)[..|Base36(n)| - 1] == Base36(n / 36);
    } else {
      assert Base36(n)[..0] == [];
    }
  }

  function MessageId(now: nat, counter: nat): string {
    "m_" + Base36(now) + ['_'] + Base36(counter)
  }

  /** The counter can be read back from an id, whatever the clock said. */
  lemma MessageIdCounter(now: nat, c: nat, now': nat, c': nat)
    requires MessageId(now, c) == MessageId(now', c')
    ensures c == c' && now == now'
  {
    Base36Value(now);
    Base36Value(now');
    Base36Value(c);
    Base36Value(c');
    LastSeparatorUnique("m_" + Base36(now), Base36(c), "m_" + Base36(now'), Base36(c'), '_');
    assert ("m_" + Base36(now))[2..] == Base36(now);
    assert ("m_" + Base36(now'))[2..] == Base36(now');
  }

  lemma {:induction false} Base36Starts(n: nat)
    ensures Base36(n) != "" && (n > 0 ==> Base36(n)[0] != '0')
  {
    if n >= 36 {
      Base36Starts(n / 36);
    }
  }

  /**
   * The id of a call is `m_`, the clock, an underscore and the counter, both in base
   * 36 without leading zeros.
   */
  lemma MessageIdSays(start: nat, nows: seq<nat>, i: nat) returns (clock: string, counter: string)
    requires i < |nows|
    ensures IdOfCall(start, nows, i) == ['m', '_'] + clock + ['_'] + counter
    ensures Value36(clock) == nows[i] && clock != "" && (nows[i] > 0 ==> clock[0] != '0')
    ensures Value36(counter) == (start + i + 1) % 16_777_215 && counter != ""
    ensures Value36(counter) > 0 ==> counter[0] != '0'
  {
    clock, counter := Base36(nows[i]), Base36(CounterAfter(start, i + 1));
    Base36Value(nows[i]);
    Base36Value(CounterAfter(start, i + 1));
    Base36Starts(nows[i]);
    Base36Starts(CounterAfter(start, i + 1));
    CounterValue(start, i + 1);
  }

  lemma MessageIdPlain(now: nat, c: nat)
    ensures UNIT_SEPARATOR !in MessageId(now, c)
  {
    Base36Value(now);
    Base36Value(c);
  }

  /** The counter after `n` calls of `newMessageId`. */
  function CounterAfter(start: nat, n: nat): nat {
    if n == 0 then start else (CounterAfter(start, n - 1) + 1) % COUNTER_MODULUS
  }

  /** The id that call number `i` returns when the counter started at `start`. */
  function IdOfCall(start: nat, nows: seq<nat>, i: nat): string
    requires i < |nows|
  {
    MessageId(nows[i], CounterAfter(start, i + 1))
  }

  lemma NextModulo(x: nat)
    ensures (x % COUNTER_MODULUS + 1) % COUNTER_MODULUS == (x + 1) % COUNTER_MODULUS
  {
    CounterShift(x, 1);
  }

  lemma {:induction false} CounterValue(start: nat, n: nat)
    requires n > 0
    ensures CounterAfter(start, n) == (start + n) % COUNTER_MODULUS
  {
    if n > 1 {
      CounterValue(start, n - 1);
      NextModulo(start + n - 1);
    } else {
      assert CounterAfter(start, 0) == start;
    }
  }

  lemma CounterShift(x: nat, d: nat)
    requires 0 < d <= COUNTER_MODULUS
    ensures (x + d) % COUNTER_MODULUS
         == if x % COUNTER_MODULUS + d < COUNTER_MODULUS then x % COUNTER_MODULUS + d else x % COUNTER_MODULUS + d - COUNTER_MODULUS
  {
    assert COUNTER_MODULUS == 16_777_215;
  }

  lemma CounterDistance(start: nat, i: nat, j: nat)
    requires i < j
    ensures j - i < COUNTER_MODULUS ==> CounterAfter(start, i + 1) != CounterAfter(start, j + 1)
    ensures j - i == COUNTER_MODULUS ==> CounterAfter(start, i + 1) == CounterAfter(start, j + 1)
  {
    CounterValue(start, i + 1);
    CounterValue(start, j + 1);
    if j - i <= COUNTER_MODULUS {
      CounterShift(start + 1 + i, j - i);
    }
  }

  /**
   * Two ids from calls fewer than the counter's modulus apart differ whatever the
   * clock does; calls exactly that far apart collide when the clock reads the same.
   */
  lemma IdsDistinct(start: nat, nows: seq<nat>, i: nat, j: nat)
    requires i < j < |nows|
    ensures j - i < COUNTER_MODULUS ==> IdOfCall(start, nows, i) != IdOfCall(start, nows, j)
    ensures j - i == COUNTER_MODULUS && nows[i] == nows[j] ==> IdOfCall(start, nows, i) == IdOfCall(start, nows, j)
  {
    CounterDistance(start, i, j);
    if IdOfCall(start, nows, i) == IdOfCall(start, nows, j) {
      MessageIdCounter(nows[i], CounterAfter(start, i + 1), nows[j], CounterAfter(start, j + 1));
    }
  }

  /**
   * The reassembly key separates messages of different add-ons or ids as long as
   * the ids contain no unit separator, which no generated id does.
   */
  lemma KeyInjective(addon: string, id: string, addon': string, id': string)
    requires UNIT_SEPARATOR !in id && UNIT_SEPARATOR !in id'
    ensures MessageKey(addon, id) == MessageKey(addon', id') <==> addon == addon' && id == id'
  {
    if MessageKey(addon, id) == MessageKey(addon', id') {
      LastSeparatorUnique(addon, id, addon', id', UNIT_SEPARATOR);
    }
  }

  lemma SharedKeyExtends(a: string, i: string, b: string, j: string)
    requires MessageKey(a, i) == MessageKey(b, j) && |a| <= |b| && a != b
    ensures a + [UNIT_SEPARATOR] <= b
  {
    assert MessageKey(a, i)[..|a|] == a && MessageKey(b, j)[..|a|] == b[..|a|];
    if |a| < |b| {
      assert MessageKey(a, i)[|a|] == UNIT_SEPARATOR && MessageKey(b, j)[|a|] == b[|a|];
    }
  }

  lemma ExtendedShares(a: string, b: string, j: string)
    requires a + [UNIT_SEPARATOR] <= b
    ensures MessageKey(b, j) == MessageKey(a, b[|a| + 1..] + [UNIT_SEPARATOR] + j)
  {
    assert b == a + [UNIT_SEPARATOR] + b[|a| + 1..];
  }

  /**
   * Without a restriction on ids, messages of two add-ons can share a key exactly when
   * the name of one is that of the other with a unit separator and more appended.
   */
  lemma KeysCollideExactly(a: string, b: string)
    requires a != b
    ensures (exists i, j :: MessageKey(a, i) == MessageKey(b, j)) <==>
              a + [UNIT_SEPARATOR] <= b || b + [UNIT_SEPARATOR] <= a
  {
    if i, j :| MessageKey(a, i) == MessageKey(b, j) {
      if |a| <= |b| {
        SharedKeyExtends(a, i, b, j);
      } else {
        SharedKeyExtends(b, j, a, i);
      }
    }
    if a + [UNIT_SEPARATOR] <= b {
      ExtendedShares(a, b, "");
    }
    if b + [UNIT_SEPARATOR] <= a {
      ExtendedShares(b, a, "");
    }
  }

  // ----- the sender

  datatype SendOutcome =
    | Sent
    | NotConnected
    | EmptyAddon
    | TooLarge
    | ChannelClosed
    | FrameTooLarge(length: nat)

  /** The frames of a message as they go to the channel, the first `k` of them. */
  function Wire(quote: Quote, m: Message, id: string, k: nat): seq<Bytes>
    requires k <= SentPrefix(quote, m, id)
  {
    seq(k, q requires 0 <= q < k => Encode(quote, FrameAt(m, id, q)))
  }

  class BinarySender {
    var connected: bool
    var channelOpen: bool
    var nextSendId: nat
    /** What has been handed to the data channel. */
    var sent: seq<Bytes>

    constructor ()
      ensures !connected && !channelOpen && nextSendId == 0 && sent == []
    {
      connected, channelOpen, nextSendId, sent := false, false, 0, [];
    }

    method NewMessageId(now: nat) returns (id: string)
      modifies this`nextSendId
      ensures nextSendId == (old(nextSendId) + 1) % COUNTER_MODULUS
      ensures id == MessageId(now, nextSendId)
    {
      nextSendId := (nextSendId + 1) % COUNTER_MODULUS;
      id := MessageId(now, nextSendId);
    }

    method SendOneFrame(quote: Quote, f: Frame) returns (outcome: SendOutcome)
      modifies this`sent
      ensures Fits(quote, f) ==> outcome == Sent && sent == old(sent) + [Encode(quote, f)]
      ensures !Fits(quote, f) ==> outcome == FrameTooLarge(FrameLength(quote, f)) && sent == old(sent)
    {
      if FrameLength(quote, f) > FRAME_MAX_BYTES {
        return FrameTooLarge(FrameLength(quote, f));
      }
      sent := sent + [Encode(quote, f)];
      outcome := Sent;
    }

    /**
     * Refused calls change nothing. Otherwise the channel gets the frames of the
     * message up to the first that is too large, and the call succeeds exactly
     * when that is all of them.
     */
    method SendBinary(quote: Quote, m: Message, now: nat) returns (outcome: SendOutcome)
      modifies this`sent, this`nextSendId
      ensures !connected ==> outcome == NotConnected
      ensures connected && m.addon == "" ==> outcome == EmptyAddon
      ensures connected && m.addon != "" && |m.bytes| > MESSAGE_MAX_BYTES ==> outcome == TooLarge
      ensures connected && m.addon != "" && |m.bytes| <= MESSAGE_MAX_BYTES && !channelOpen ==> outcome == ChannelClosed
      ensures outcome in {NotConnected, EmptyAddon, TooLarge, ChannelClosed} ==>
                sent == old(sent) && nextSendId == old(nextSendId)
      ensures connected && m.addon != "" && |m.bytes| <= MESSAGE_MAX_BYTES && channelOpen ==>
        var id := MessageId(now, (old(nextSendId) + 1) % COUNTER_MODULUS);
        var k := SentPrefix(quote, m, id);
        && sent == old(sent) + Wire(quote, m, id, k)
        && (outcome == Sent <==> k == FrameCount(|m.bytes|))
        && (k < FrameCount(|m.bytes|) ==> outcome == FrameTooLarge(FrameLength(quote, FrameAt(m, id, k))))
        && nextSendId == if FrameCount(|m.bytes|) == 1 then old(nextSendId) else (old(nextSendId) + 1) % COUNTER_MODULUS
    {
      if !connected {
        return NotConnected;
      }
      if m.addon == "" {
        return EmptyAddon;
      }
      if |m.bytes| > MESSAGE_MAX_BYTES {
        return TooLarge;
      }
      if !channelOpen {
        return ChannelClosed;
      }
      if FrameCount(|m.bytes|) == 1 {
        SingleFrame(quote, m, MessageId(now, (nextSendId + 1) % COUNTER_MODULUS));
        outcome := SendOneFrame(quote, Frame(m.addon, m.mime, m.bytes, None));
        return;
      }
      var id := NewMessageId(now);
      outcome := SendFrames(quote, m, id);
    }

    /** The loop over the slices of a message. */
    method SendFrames(quote: Quote, m: Message, id: string) returns (outcome: SendOutcome)
      modifies this`sent
      ensures sent == old(sent) + Wire(quote, m, id, SentPrefix(quote, m, id))
      ensures SentPrefix(quote, m, id) == FrameCount(|m.bytes|) ==> outcome == Sent
      ensures SentPrefix(quote, m, id) < FrameCount(|m.bytes|) ==>
                outcome == FrameTooLarge(FrameLength(quote, FrameAt(m, id, SentPrefix(quote, m, id))))
    {
      var total := FrameCount(|m.bytes|);
      ghost var k := SentPrefix(quote, m, id);
      outcome := Sent;
      for q := 0 to total
        invariant outcome == Sent
        invariant FittingPrefix(quote, m, id, q) == q <= k
        invariant sent == old(sent) + Wire(quote, m, id, q)
      {
        PrefixAt(quote, m, id, q);
        outcome := SendOneFrame(quote, FrameAt(m, id, q));
        if outcome != Sent {
          return;
        }
        WireSnoc(quote, m, id, q);
      }
    }
  }

  lemma WireSnoc(quote: Quote, m: Message, id: string, q: nat)
    requires q < SentPrefix(quote, m, id)
    ensures Wire(quote, m, id, q + 1) == Wire(quote, m, id, q) + [Encode(quote, FrameAt(m, id, q))]
  {
  }

  lemma SingleFrame(quote: Quote, m: Message, id: string)
    requires FrameCount(|m.bytes|) == 1
    ensures FrameAt(m, id, 0) == Frame(m.addon, m.mime, m.bytes, None)
    ensures SentPrefix(quote, m, id) == if Fits(quote, FrameAt(m, id, 0)) then 1 else 0
  {
    FrameCountBounds(|m.bytes|);
    assert FittingPrefix(quote, m, id, 0) == 0;
  }

  lemma {:induction false} PrefixStops(quote: Quote, m: Message, id: string, q: nat, n: nat)
    requires q <= n <= FrameCount(|m.bytes|)
    requires FittingPrefix(quote, m, id, q) == q
    ensures FittingPrefix(quote, m, id, n) >= q
    ensures q < n && !Fits(quote, FrameAt(m, id, q)) ==> FittingPrefix(quote, m, id, n) == q
    decreases n
  {
    if q < n {
      PrefixStops(quote, m, id, q, n - 1);
    }
  }

  /** One round of the sending loop moves the fitting prefix on, or ends it. */
  lemma PrefixAt(quote: Quote, m: Message, id: string, q: nat)
    requires q < FrameCount(|m.bytes|) && FittingPrefix(quote, m, id, q) == q
    ensures Fits(quote, FrameAt(m, id, q)) ==> FittingPrefix(quote, m, id, q + 1) == q + 1 <= SentPrefix(quote, m, id)
    ensures !Fits(quote, FrameAt(m, id, q)) ==> SentPrefix(quote, m, id) == q
  {
    PrefixStops(quote, m, id, q, FrameCount(|m.bytes|));
    if Fits(quote, FrameAt(m, id, q)) {
      PrefixStops(quote, m, id, q + 1, FrameCount(|m.bytes|));
    }
  }
}
