/**
 * The wire frame of the binary channel: a little-endian header length, a JSON
 * header, and the body. JSON and UTF-8 are library code, so the printer takes
 * the quoting of strings, and the parser the reading of a header, as parameters;
 * everything else about the header text is written out.
 */
module FrameCodec {
  import opened Common
  import opened Reassembly

  const FRAME_MAX_BYTES: int := 64 * 1024

  /**
   * One field of a parsed header; `Other` stands for booleans, null, arrays and
   * objects. A number need not be integral.
   */
  datatype Json = Absent | Number(n: real) | Text(s: string) | Other

  datatype Header = Header(v: Json, addon: Json, mime: Json, size: Json, id: Json, seqNo: Json, total: Json)

  /**
   * The outcome of decoding and parsing header bytes. The text `null` is set
   * apart because reading a property of it throws; any other value that is not an
   * object simply has none of the fields.
   */
  datatype HeaderText = SyntaxError | JsonNull | Fields(header: Header)

  type Quote = string -> Bytes
  type ReadHeader = Bytes -> HeaderText

  /** `id`, `seq` and `total` of a frame that is part of a larger message. */
  datatype Part = Part(id: string, seqNo: nat, total: nat)

  datatype Frame = Frame(addon: string, mime: string, body: Bytes, part: Option<Part>)

  // ----- printing

  function Ascii(s: string): Bytes {
    seq(|s|, i requires 0 <= i < |s| => s[i] as int % 256)
  }

  function Decimal(n: nat): (r: Bytes)
    ensures |r| == Digits(n)
  {
    if n < 10 then [48 + n] else Decimal(n / 10) + [48 + n % 10]
  }

  function Digits(n: nat): nat {
    if n < 10 then 1 else Digits(n / 10) + 1
  }

  function PartText(quote: Quote, part: Option<Part>): Bytes {
    match part
    case None => []
    case Some(p) =>
      Ascii(",\"id\":") + quote(p.id) + Ascii(",\"seq\":") + Decimal(p.seqNo) + Ascii(",\"total\":") + Decimal(p.total)
  }

  function PrintHeader(quote: Quote, f: Frame): Bytes {
    Ascii("{\"v\":1,\"addon\":") + quote(f.addon) + Ascii(",\"mime\":") + quote(f.mime)
    + Ascii(",\"size\":") + Decimal(|f.body|) + PartText(quote, f.part) + Ascii("}")
  }

  function HeaderOf(f: Frame): Header {
    var base := Header(Number(1.0), Text(f.addon), Text(f.mime), Number(|f.body| as real), Absent, Absent, Absent);
    match f.part
    case None => base
    case Some(p) => base.(id := Text(p.id), seqNo := Number(p.seqNo as real), total := Number(p.total as real))
  }

  /** Reading a printed header gives back its fields. */
  ghost predicate JsonLaw(quote: Quote, read: ReadHeader) {
    forall f: Frame :: read(PrintHeader(quote, f)) == Fields(HeaderOf(f))
  }

  function U32(n: nat): Bytes
    requires n < 0x1_0000_0000
  {
    [n % 256, n / 256 % 256, n / 65536 % 256, n / 16777216]
  }

  function ReadU32(b: Bytes): nat
    requires |b| >= 4
  {
    var b0: int, b1: int, b2: int, b3: int := b[0], b[1], b[2], b[3];
    b0 + 256 * b1 + 65536 * b2 + 16777216 * b3
  }

  function FrameLength(quote: Quote, f: Frame): nat {
    4 + |PrintHeader(quote, f)| + |f.body|
  }

  predicate Fits(quote: Quote, f: Frame) {
    FrameLength(quote, f) <= FRAME_MAX_BYTES
  }

  function Encode(quote: Quote, f: Frame): Bytes
    requires Fits(quote, f)
  {
    var header := PrintHeader(quote, f);
    U32(|header|) + header + f.body
  }

  // ----- parsing

  predicate SchemaOk(h: Header) {
    && h.v == Number(1.0)
    && h.addon.Text? && h.addon.s != ""
    && h.mime.Text?
    && h.size.Number?
  }

  predicate IsChunked(h: Header) {
    h.id.Text? && h.seqNo.Number? && h.total.Number? && h.total.n > 1.0
  }

  function Classify(h: Header, body: Bytes): Parsed {
    if !SchemaOk(h) then Rejected(HeaderSchema)
    else if h.size.n != |body| as real then Rejected(BodySize)
    else if !IsChunked(h) then Whole(h.addon.s, h.mime.s, body)
    else Chunked(Chunk(h.addon.s, h.mime.s, h.id.s, h.seqNo.n, h.total.n, body))
  }

  function Parse(read: ReadHeader, buf: Bytes): Parsed {
    if |buf| < 4 then Rejected(TooShort)
    else
      var headerLen := ReadU32(buf);
      if headerLen == 0 || 4 + headerLen > |buf| then Rejected(HeaderLength)
      else
        match read(buf[4..4 + headerLen])
        case SyntaxError => Rejected(HeaderParse)
        case JsonNull => Threw
        case Fields(h) => Classify(h, buf[4 + headerLen..])
  }

  // ----- properties

  lemma LowByte(n: nat, low: int, rest: int)
    requires 0 <= low < 256 && 0 <= rest && n == low + 256 * rest
    ensures n % 256 == low && n / 256 == rest
  {
  }

  lemma Quotients(n: nat)
    ensures n / 65536 == n / 256 / 256 && n / 16777216 == n / 256 / 256 / 256
  {
  }

  lemma U32RoundTrip(n: nat, rest: Bytes)
    requires n < 0x1_0000_0000
    ensures ReadU32(U32(n) + rest) == n
  {
    assert n / 256 / 256 == n / 65536 && n / 65536 / 256 == n / 16777216;
    assert n == n % 256 + 256 * (n / 256 % 256 + 256 * (n / 65536 % 256 + 256 * (n / 16777216)));
  }

  lemma U32Unique(b: Bytes)
    requires |b| >= 4
    ensures ReadU32(b) < 0x1_0000_0000 && U32(ReadU32(b)) == b[..4]
  {
    var b0: int, b1: int, b2: int, b3: int := b[0], b[1], b[2], b[3];
    var n := ReadU32(b);
    var n1, n2 := b1 + 256 * b2 + 65536 * b3, b2 + 256 * b3;
    LowByte(n, b0, n1);
    LowByte(n1, b1, n2);
    LowByte(n2, b2, b3);
    Quotients(n);
  }

  /** A buffer laid out as a frame: length, non-empty header, body. */
  ghost predicate LaidOut(buf: Bytes, header: Bytes, body: Bytes) {
    0 < |header| < 0x1_0000_0000 && buf == U32(|header|) + header + body
  }

  lemma ParseLaidOut(read: ReadHeader, buf: Bytes, header: Bytes, body: Bytes)
    requires LaidOut(buf, header, body)
    ensures Parse(read, buf) ==
      match read(header)
      case SyntaxError => Rejected(HeaderParse)
      case JsonNull => Threw
      case Fields(h) => Classify(h, body)
  {
    U32RoundTrip(|header|, header + body);
    assert U32(|header|) + header + body == U32(|header|) + (header + body);
    assert buf[4..4 + |header|] == header && buf[4 + |header|..] == body;
  }

  /**
   * The parser gives a whole message or a chunk exactly for the buffers that are
   * laid out as a frame whose header reads as that message with the body's size.
   */
  lemma ParseAcceptsExactly(read: ReadHeader, buf: Bytes, p: Parsed)
    requires p.Whole? || p.Chunked?
    ensures Parse(read, buf) == p <==>
            exists header, body :: LaidOut(buf, header, body) && read(header).Fields? && Classify(read(header).header, body) == p
  {
    if Parse(read, buf) == p {
      var n := ReadU32(buf);
      var header, body := buf[4..4 + n], buf[4 + n..];
      U32Unique(buf);
      assert buf == buf[..4] + header + body;
      assert LaidOut(buf, header, body);
    }
    forall header, body | LaidOut(buf, header, body) && read(header).Fields? && Classify(read(header).header, body) == p
      ensures Parse(read, buf) == p
    {
      ParseLaidOut(read, buf, header, body);
    }
  }

  /**
   * Parsing a buffer leads to an exception, instead of to an error event, a message
   * or a chunk, exactly when its header is in bounds and is the JSON text `null`.
   */
  lemma ParseThrowsExactly(read: ReadHeader, buf: Bytes)
    ensures Parse(read, buf).Threw? <==>
            exists header, body :: LaidOut(buf, header, body) && read(header).JsonNull?
  {
    if Parse(read, buf).Threw? {
      var n := ReadU32(buf);
      U32Unique(buf);
      assert buf == buf[..4] + buf[4..4 + n] + buf[4 + n..];
      assert LaidOut(buf, buf[4..4 + n], buf[4 + n..]);
    }
    forall header, body | LaidOut(buf, header, body) && read(header).JsonNull?
      ensures Parse(read, buf).Threw?
    {
      ParseLaidOut(read, buf, header, body);
    }
  }

  /**
   * The chunk would begin a new message of more frames than an array can have, or
   * of a fractional number of frames.
   */
  predicate UnmakeableAnew(t: Table, c: Chunk) {
    && InRange(c) && Find(t, MessageKey(c.addon, c.id)) == |t|
    && (c.total > ARRAY_LENGTH_MAX as real || !Integral(c.total))
  }

  /**
   * The whole handler throws in three cases, and in those changes and reports
   * nothing: the header is the JSON text `null`, or a chunk with a frame number in
   * range begins a message whose total is above what an array can have, or is not
   * integral. A message that is already in the table does not throw, whatever total
   * a chunk of it states.
   */
  lemma HandlerThrowsExactly(read: ReadHeader, buf: Bytes, t: Table, now: int)
    requires WellFormed(t)
    ensures Step(t, Arrival(Parse(read, buf), now)).threw <==>
            || (exists header, body :: LaidOut(buf, header, body) && read(header).JsonNull?)
            || (exists header, body, c ::
                  && LaidOut(buf, header, body) && read(header).Fields?
                  && Classify(read(header).header, body) == Chunked(c) && UnmakeableAnew(t, c))
    ensures Step(t, Arrival(Parse(read, buf), now)).threw ==> Step(t, Arrival(Parse(read, buf), now)) == Outcome(t, [], true)
  {
    ParseThrowsExactly(read, buf);
    var p := Parse(read, buf);
    if p.Chunked? {
      ChunkThrowsExactly(read, buf, p.chunk, t, now);
    }
    forall header, body, c |
      && LaidOut(buf, header, body) && read(header).Fields?
      && Classify(read(header).header, body) == Chunked(c) && UnmakeableAnew(t, c)
      ensures p == Chunked(c)
    {
      ParseLaidOut(read, buf, header, body);
    }
  }

  lemma ChunkThrowsExactly(read: ReadHeader, buf: Bytes, c: Chunk, t: Table, now: int)
    requires WellFormed(t) && Parse(read, buf) == Chunked(c)
    ensures HandleChunk(t, c, now).threw <==> UnmakeableAnew(t, c)
    ensures exists header, body :: LaidOut(buf, header, body) && read(header).Fields? && Classify(read(header).header, body) == Chunked(c)
    ensures HandleChunk(t, c, now).threw ==> HandleChunk(t, c, now) == Outcome(t, [], true)
  {
    ParseAcceptsExactly(read, buf, Chunked(c));
  }

  /** What the receiver should make of a frame that was sent. */
  function Meaning(f: Frame): Parsed {
    if f.part.Some? && f.part.value.total > 1 then
      var p := f.part.value;
      Chunked(Chunk(f.addon, f.mime, p.id, p.seqNo as real, p.total as real, f.body))
    else Whole(f.addon, f.mime, f.body)
  }

  /** Parsing a frame that was sent gives back its fields and its body. */
  lemma ParseEncode(quote: Quote, read: ReadHeader, f: Frame)
    requires JsonLaw(quote, read) && Fits(quote, f) && f.addon != ""
    ensures Parse(read, Encode(quote, f)) == Meaning(f)
  {
    var header := PrintHeader(quote, f);
    assert |header| > 0;
    assert LaidOut(Encode(quote, f), header, f.body);
    ParseLaidOut(read, Encode(quote, f), header, f.body);
    assert read(header) == Fields(HeaderOf(f));
  }

  // ----- from the bytes alone

  function LittleEndian(b: Bytes): nat {
    if b == [] then 0 else b[0] + 256 * LittleEndian(b[1..])
  }

  lemma LittleEndianFour(b: Bytes)
    requires |b| == 4
    ensures LittleEndian(b) == ReadU32(b)
  {
    var b0: int, b1: int, b2: int, b3: int := b[0], b[1], b[2], b[3];
    assert b[1..][1..] == b[2..] && b[2..][1..] == b[3..] && b[3..][1..] == [];
    assert LittleEndian(b[3..]) == b3 && LittleEndian(b[2..]) == b2 + 256 * b3;
    assert LittleEndian(b[1..]) == b1 + 256 * (b2 + 256 * b3);
  }

  /** The length of the header goes first, lowest byte first, and a frame is at most 65,536 bytes. */
  lemma LengthFirst(quote: Quote, f: Frame)
    requires Fits(quote, f)
    ensures
      var frame, header := Encode(quote, f), PrintHeader(quote, f);
      && |frame| == 4 + |header| + |f.body| <= 65_536
      && LittleEndian(frame[..4]) == |header| && frame[4..4 + |header|] == header && frame[4 + |header|..] == f.body
  {
    var header := PrintHeader(quote, f);
    assert Encode(quote, f)[..4] == U32(|header|);
    LittleEndianFour(U32(|header|));
    U32RoundTrip(|header|, []);
    assert U32(|header|) + [] == U32(|header|);
  }

  /** The length is in the buffer, is not zero, and is not more than the buffer holds. */
  predicate InBounds(buf: Bytes) {
    |buf| >= 4 && 0 < LittleEndian(buf[..4]) <= |buf| - 4
  }

  function HeaderBytes(buf: Bytes): Bytes
    requires InBounds(buf)
  {
    buf[4..4 + LittleEndian(buf[..4])]
  }

  function BodyBytes(buf: Bytes): Bytes
    requires InBounds(buf)
  {
    buf[4 + LittleEndian(buf[..4])..]
  }

  lemma LengthRead(buf: Bytes)
    requires |buf| >= 4
    ensures ReadU32(buf) == LittleEndian(buf[..4])
  {
    LittleEndianFour(buf[..4]);
  }

  /** The faults before the header is looked at. */
  lemma EarlyFaultsExactly(read: ReadHeader, buf: Bytes)
    ensures Parse(read, buf) == Rejected(TooShort) <==> |buf| < 4
    ensures Parse(read, buf) == Rejected(HeaderLength) <==> |buf| >= 4 && !InBounds(buf)
    ensures Parse(read, buf) == Rejected(HeaderParse) <==> InBounds(buf) && read(HeaderBytes(buf)).SyntaxError?
    ensures Parse(read, buf) == Threw <==> InBounds(buf) && read(HeaderBytes(buf)).JsonNull?
  {
    if |buf| >= 4 {
      LengthRead(buf);
    }
  }

  /**
   * What a header that is an object leads to: a schema fault unless it has version 1,
   * a non-empty add-on, a mime text and a size; then a size fault unless the size is
   * that of the body; then a chunk if it has an id, a frame number and a total above
   * one, and a whole message otherwise.
   */
  lemma FieldsDecide(read: ReadHeader, buf: Bytes, h: Header)
    requires InBounds(buf) && read(HeaderBytes(buf)) == Fields(h)
    ensures
      var parsed, body := Parse(read, buf), BodyBytes(buf);
      if h.v != Number(1.0) || !h.addon.Text? || |h.addon.s| == 0 || !h.mime.Text? || !h.size.Number? then
        parsed == Rejected(HeaderSchema)
      else if h.size.n != |body| as real then
        parsed == Rejected(BodySize)
      else if h.id.Text? && h.seqNo.Number? && h.total.Number? && h.total.n > 1.0 then
        && parsed.Chunked? && parsed.chunk.body == body
        && parsed.chunk.addon == h.addon.s && parsed.chunk.mime == h.mime.s && parsed.chunk.id == h.id.s
        && parsed.chunk.seqNo == h.seqNo.n && parsed.chunk.total == h.total.n
      else
        parsed.Whole? && parsed.addon == h.addon.s && parsed.mime == h.mime.s && parsed.bytes == body
  {
    LengthRead(buf);
  }
}
