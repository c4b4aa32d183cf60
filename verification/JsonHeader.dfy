/**
 * A frame header as text that can be read: the quoting of strings as JSON and UTF-8
 * (RFC 8259 and RFC 3629), and a reader that goes through the bytes, finds the
 * members of the object and looks the fields up by their names.
 */
module JsonHeader {
  import opened Common
  import opened Reassembly
  import opened FrameCodec

  const QUOTE: byte := 34
  const BACKSLASH: byte := 92

  // ----- strings

  function Utf8(n: nat): Bytes
    requires n < 0x11_0000
  {
    if n < 0x80 then [n]
    else if n < 0x800 then [192 + n / 64, 128 + n % 64]
    else if n < 0x1_0000 then [224 + n / 4096, 128 + n / 64 % 64, 128 + n % 64]
    else [240 + n / 262144, 128 + n / 4096 % 64, 128 + n / 64 % 64, 128 + n % 64]
  }

  function Hex(d: nat): byte
    requires d < 16
  {
    if d < 10 then 48 + d else 87 + d
  }

  /** A character as `JSON.stringify` and the encoder write it. */
  function JsonChar(c: char): Bytes {
    var n := c as int;
    if n == 34 then [BACKSLASH, 34]
    else if n == 92 then [BACKSLASH, 92]
    else if n == 8 then [BACKSLASH, 98]
    else if n == 9 then [BACKSLASH, 116]
    else if n == 10 then [BACKSLASH, 110]
    else if n == 12 then [BACKSLASH, 102]
    else if n == 13 then [BACKSLASH, 114]
    else if n < 32 then [BACKSLASH, 117, 48, 48, Hex(n / 16), Hex(n % 16)]
    else Utf8(n)
  }

  function JsonChars(s: string): Bytes {
    if s == "" then [] else JsonChar(s[0]) + JsonChars(s[1..])
  }

  function JsonQuote(s: string): Bytes {
    [QUOTE] + JsonChars(s) + [QUOTE]
  }

  // ----- the reader

  predicate Follows(b: byte) {
    128 <= b < 192
  }

  function Low6(b: byte): nat
    requires Follows(b)
  {
    b - 128
  }

  predicate IsScalar(n: int) {
    0 <= n < 0xD800 || 0xE000 <= n < 0x11_0000
  }

  datatype CharRead = CharRead(c: char, size: nat)

  function ScalarRead(n: int, size: nat): Option<CharRead> {
    if IsScalar(n) then Some(CharRead(n as char, size)) else None
  }

  function ReadUtf8(b: Bytes): Option<CharRead>
    requires b != []
  {
    var b0: int := b[0];
    if b0 < 128 then ScalarRead(b0, 1)
    else if 192 <= b0 < 224 && |b| >= 2 && Follows(b[1]) then
      ScalarRead((b0 - 192) * 64 + Low6(b[1]), 2)
    else if 224 <= b0 < 240 && |b| >= 3 && Follows(b[1]) && Follows(b[2]) then
      ScalarRead((b0 - 224) * 4096 + Low6(b[1]) * 64 + Low6(b[2]), 3)
    else if 240 <= b0 < 248 && |b| >= 4 && Follows(b[1]) && Follows(b[2]) && Follows(b[3]) then
      ScalarRead((b0 - 240) * 262144 + Low6(b[1]) * 4096 + Low6(b[2]) * 64 + Low6(b[3]), 4)
    else None
  }

  function HexValue(b: byte): Option<nat> {
    if 48 <= b <= 57 then Some(b - 48)
    else if 97 <= b <= 102 then Some(b - 87)
    else if 65 <= b <= 70 then Some(b - 55)
    else None
  }

  function ReadEscape(b: Bytes): Option<CharRead>
    requires |b| >= 2
  {
    match b[1] as int
    case 34 => ScalarRead(34, 2)
    case 92 => ScalarRead(92, 2)
    case 47 => ScalarRead(47, 2)
    case 98 => ScalarRead(8, 2)
    case 116 => ScalarRead(9, 2)
    case 110 => ScalarRead(10, 2)
    case 102 => ScalarRead(12, 2)
    case 114 => ScalarRead(13, 2)
    case 117 =>
      if |b| >= 6 && HexValue(b[2]).Some? && HexValue(b[3]).Some? && HexValue(b[4]).Some? && HexValue(b[5]).Some? then
        ScalarRead(4096 * HexValue(b[2]).value + 256 * HexValue(b[3]).value + 16 * HexValue(b[4]).value + HexValue(b[5]).value, 6)
      else None
    case _ => None
  }

  /** The next character of a string: not the closing quote, and no bare control character. */
  function ReadChar(b: Bytes): Option<CharRead> {
    if b == [] || b[0] == QUOTE || b[0] < 32 then None
    else if b[0] == BACKSLASH then if |b| >= 2 then ReadEscape(b) else None
    else ReadUtf8(b)
  }

  datatype Read<+T> = Read(value: T, rest: Bytes)

  /** The rest of a string, from behind its opening quote. */
  function ReadChars(b: Bytes): Option<Read<string>>
    decreases |b|
  {
    if b != [] && b[0] == QUOTE then Some(Read("", b[1..]))
    else
      match ReadChar(b)
      case None => None
      case Some(r) =>
        if r.size == 0 || r.size > |b| then None
        else
          match ReadChars(b[r.size..])
          case None => None
          case Some(more) => Some(Read([r.c] + more.value, more.rest))
  }

  predicate Digit(b: byte) {
    48 <= b <= 57
  }

  /** The digits at the front of a text and the number that they are, `n` having been read so far. */
  function ReadDigits(n: nat, b: Bytes): Read<nat>
    decreases |b|
  {
    if b != [] && Digit(b[0]) then ReadDigits(10 * n + (b[0] - 48), b[1..]) else Read(n, b)
  }

  function ReadValue(b: Bytes): Option<Read<Json>> {
    if b == [] then None
    else if b[0] == QUOTE then
      match ReadChars(b[1..])
      case None => None
      case Some(r) => Some(Read(Text(r.value), r.rest))
    else if Digit(b[0]) then
      var r := ReadDigits(0, b);
      Some(Read(Number(r.value as real), r.rest))
    else None
  }

  datatype Member = Member(name: string, value: Json)

  /** A name, a colon and a value. */
  function ReadMember(b: Bytes): Option<Read<Member>> {
    if b == [] || b[0] != QUOTE then None
    else
      match ReadChars(b[1..])
      case None => None
      case Some(name) =>
        if name.rest == [] || name.rest[0] != 58 then None
        else
          match ReadValue(name.rest[1..])
          case None => None
          case Some(value) => Some(Read(Member(name.value, value.value), value.rest))
  }

  /** The members of an object, from behind its opening brace to the end of the text. */
  function ReadMembers(b: Bytes): Option<seq<Member>>
    decreases |b|
  {
    match ReadMember(b)
    case None => None
    case Some(first) =>
      if first.rest == [125] then Some([first.value])
      else if first.rest == [] || first.rest[0] != 44 || |first.rest| > |b| then None
      else
        match ReadMembers(first.rest[1..])
        case None => None
        case Some(more) => Some([first.value] + more)
  }

  /** The value of a name; the last one counts. */
  function Field(members: seq<Member>, name: string): Json {
    if members == [] then Absent
    else if members[|members| - 1].name == name then members[|members| - 1].value
    else Field(members[..|members| - 1], name)
  }

  function ReadHeaderText(b: Bytes): HeaderText {
    if b == [110, 117, 108, 108] then JsonNull
    else if b == [] || b[0] != 123 then SyntaxError
    else
      match ReadMembers(b[1..])
      case None => SyntaxError
      case Some(members) => Fields(HeaderFrom(members))
  }

  function HeaderFrom(m: seq<Member>): Header {
    Header(Field(m, "v"), Field(m, "addon"), Field(m, "mime"), Field(m, "size"), Field(m, "id"), Field(m, "seq"), Field(m, "total"))
  }

  // ----- what is written is read

  lemma HexReadsBack(d: nat)
    requires d < 16
    ensures HexValue(Hex(d)) == Some(d)
  {
  }

  lemma Utf8ReadsBack(n: nat, rest: Bytes)
    requires IsScalar(n)
    ensures Utf8(n) != [] && (Utf8(n)[0] == n || Utf8(n)[0] >= 128)
    ensures ReadUtf8(Utf8(n) + rest) == Some(CharRead(n as char, |Utf8(n)|))
  {
    var b := Utf8(n) + rest;
    if n < 0x800 {
      assert n == 64 * (n / 64) + n % 64;
    } else if n < 0x1_0000 {
      assert n / 4096 == n / 64 / 64 && n == 64 * (64 * (n / 64 / 64) + n / 64 % 64) + n % 64;
    } else {
      assert n / 4096 == n / 64 / 64 && n / 262144 == n / 64 / 64 / 64;
      assert n == 64 * (64 * (64 * (n / 262144) + n / 4096 % 64) + n / 64 % 64) + n % 64;
    }
  }

  lemma ControlReadsBack(n: nat, rest: Bytes)
    requires n < 32
    ensures ReadEscape([BACKSLASH, 117, 48, 48, Hex(n / 16), Hex(n % 16)] + rest) == Some(CharRead(n as char, 6))
  {
    HexReadsBack(n / 16);
    HexReadsBack(n % 16);
  }

  /** A written character is read back, and all of it is. */
  lemma CharReadsBack(c: char, rest: Bytes)
    ensures ReadChar(JsonChar(c) + rest) == Some(CharRead(c, |JsonChar(c)|))
    ensures JsonChar(c) != [] && JsonChar(c)[0] != QUOTE
  {
    var n := c as int;
    if n < 32 && n !in {8, 9, 10, 12, 13} {
      ControlReadsBack(n, rest);
    } else if n >= 32 && n != 34 && n != 92 {
      Utf8ReadsBack(n, rest);
    }
  }

  lemma CharThenChars(b: Bytes, c: char, size: nat, tail: Read<string>)
    requires b != [] && b[0] != QUOTE && ReadChar(b) == Some(CharRead(c, size))
    requires 0 < size <= |b| && ReadChars(b[size..]) == Some(tail)
    ensures ReadChars(b) == Some(Read([c] + tail.value, tail.rest))
  {
  }

  lemma Spell(s: string, x: Bytes)
    requires s != ""
    ensures JsonChars(s) + x == JsonChar(s[0]) + (JsonChars(s[1..]) + x)
  {
  }

  lemma DropFront(a: Bytes, b: Bytes)
    ensures (a + b)[|a|..] == b
  {
  }

  lemma QuoteFirst(rest: Bytes)
    ensures ReadChars([QUOTE] + rest) == Some(Read("", rest))
  {
    DropFront([QUOTE], rest);
  }

  lemma {:induction false} CharsReadBack(s: string, rest: Bytes)
    ensures ReadChars(JsonChars(s) + ([QUOTE] + rest)) == Some(Read(s, rest))
  {
    if s == "" {
      QuoteFirst(rest);
      assert [] + ([QUOTE] + rest) == [QUOTE] + rest;
    } else {
      var one, more := JsonChar(s[0]), JsonChars(s[1..]) + ([QUOTE] + rest);
      CharReadsBack(s[0], more);
      CharsReadBack(s[1..], rest);
      Spell(s, [QUOTE] + rest);
      DropFront(one, more);
      CharThenChars(one + more, s[0], |one|, Read(s[1..], rest));
      assert s == [s[0]] + s[1..];
    }
  }

  lemma QuotedSpelled(s: string, rest: Bytes)
    ensures JsonQuote(s) + rest == [QUOTE] + (JsonChars(s) + ([QUOTE] + rest))
  {
    Reassociate([QUOTE], JsonChars(s), [QUOTE]);
    Reassociate([QUOTE], JsonChars(s) + [QUOTE], rest);
    Reassociate(JsonChars(s), [QUOTE], rest);
  }

  lemma QuotedReadsBack(s: string, rest: Bytes)
    ensures ReadValue(JsonQuote(s) + rest) == Some(Read(Text(s), rest))
  {
    QuotedSpelled(s, rest);
    DropFront([QUOTE], JsonChars(s) + ([QUOTE] + rest));
    CharsReadBack(s, rest);
  }

  /** A text that does not go on with a digit. */
  predicate AfterNumber(x: Bytes) {
    x == [] || !Digit(x[0])
  }

  function Power10(n: nat): nat {
    if n < 10 then 10 else 10 * Power10(n / 10)
  }

  lemma OneDigit(before: nat, d: nat, rest: Bytes)
    requires d < 10
    ensures ReadDigits(before, [48 + d] + rest) == ReadDigits(10 * before + d, rest)
  {
    DropFront([48 + d], rest);
  }

  lemma {:induction false} DigitsReadOn(before: nat, n: nat, rest: Bytes)
    ensures ReadDigits(before, Decimal(n) + rest) == ReadDigits(before * Power10(n) + n, rest)
  {
    if n < 10 {
      OneDigit(before, n, rest);
    } else {
      var last := [48 + n % 10] + rest;
      Reassociate(Decimal(n / 10), [48 + n % 10], rest);
      DigitsReadOn(before, n / 10, last);
      OneDigit(before * Power10(n / 10) + n / 10, n % 10, rest);
      TenTimes(before, Power10(n / 10), n);
    }
  }

  lemma TenTimes(before: nat, power: nat, n: nat)
    ensures 10 * (before * power + n / 10) + n % 10 == before * (10 * power) + n
  {
  }

  /** The digits in a header denote the number. */
  lemma DecimalReadsBack(n: nat, rest: Bytes)
    requires AfterNumber(rest)
    ensures ReadDigits(0, Decimal(n) + rest) == Read(n, rest)
    ensures ReadValue(Decimal(n) + rest) == Some(Read(Number(n as real), rest))
  {
    DigitsReadOn(0, n, rest);
    assert ReadDigits(n, rest) == Read(n, rest);
    DecimalStarts(n, rest);
    NumberRead(Decimal(n) + rest, n, rest);
  }

  lemma NumberRead(b: Bytes, n: nat, rest: Bytes)
    requires b != [] && Digit(b[0]) && ReadDigits(0, b) == Read(n, rest)
    ensures ReadValue(b) == Some(Read(Number(n as real), rest))
  {
  }

  lemma {:induction false} DecimalStarts(n: nat, rest: Bytes)
    ensures Decimal(n) != [] && Digit((Decimal(n) + rest)[0])
  {
    if n >= 10 {
      DecimalStarts(n / 10, [48 + n % 10] + rest);
      assert Decimal(n) + rest == Decimal(n / 10) + ([48 + n % 10] + rest);
    }
  }

  // ----- members

  predicate PlainName(name: string) {
    forall i :: 0 <= i < |name| ==> 'a' <= name[i] <= 'z'
  }

  lemma AsciiConcat(a: string, b: string)
    ensures Ascii(a + b) == Ascii(a) + Ascii(b)
  {
  }

  lemma {:induction false} PlainChars(name: string)
    requires PlainName(name)
    ensures JsonChars(name) == Ascii(name)
  {
    if name != "" {
      PlainChars(name[1..]);
      assert name == [name[0]] + name[1..];
      AsciiConcat([name[0]], name[1..]);
      assert JsonChar(name[0]) == [name[0] as int] == Ascii([name[0]]);
    }
  }

  /** A name in quotation marks, and the colon. */
  function Name(name: string): Bytes {
    [QUOTE] + Ascii(name) + [QUOTE, 58]
  }

  lemma NameSpelled(ascii: Bytes, v: Bytes)
    ensures [QUOTE] + ascii + [QUOTE, 58] + v == [QUOTE] + (ascii + ([QUOTE] + ([58] + v)))
  {
    assert [QUOTE, 58] == [QUOTE] + [58];
    Reassociate([QUOTE] + ascii, [QUOTE, 58], v);
    Reassociate([QUOTE], ascii, [QUOTE, 58] + v);
    Reassociate([QUOTE], [58], v);
  }

  lemma NameReadsBack(name: string, v: Bytes)
    requires PlainName(name)
    ensures Name(name) + v == [QUOTE] + (JsonChars(name) + ([QUOTE] + ([58] + v)))
    ensures ReadChars((Name(name) + v)[1..]) == Some(Read(name, [58] + v))
  {
    PlainChars(name);
    NameSpelled(Ascii(name), v);
    DropFront([QUOTE], JsonChars(name) + ([QUOTE] + ([58] + v)));
    CharsReadBack(name, [58] + v);
  }

  lemma MemberReadsBack(name: string, v: Bytes, value: Json, rest: Bytes)
    requires PlainName(name) && ReadValue(v) == Some(Read(value, rest))
    ensures ReadMember(Name(name) + v) == Some(Read(Member(name, value), rest))
  {
    NameReadsBack(name, v);
    DropFront([58], v);
  }

  /** The last member, with the closing brace behind it. */
  lemma LastMember(name: string, v: Bytes, value: Json)
    requires PlainName(name) && ReadValue(v) == Some(Read(value, [125]))
    ensures ReadMembers(Name(name) + v) == Some([Member(name, value)])
  {
    MemberReadsBack(name, v, value, [125]);
  }

  lemma MoreMembers(name: string, v: Bytes, value: Json, rest: Bytes, more: seq<Member>)
    requires PlainName(name) && ReadValue(v) == Some(Read(value, [44] + rest)) && |rest| < |v|
    requires ReadMembers(rest) == Some(more)
    ensures ReadMembers(Name(name) + v) == Some([Member(name, value)] + more)
  {
    MemberReadsBack(name, v, value, [44] + rest);
    DropFront([44], rest);
  }

  lemma TextMember(name: string, s: string, rest: Bytes, more: seq<Member>)
    requires PlainName(name) && ReadMembers(rest) == Some(more)
    ensures ReadMembers(Name(name) + (JsonQuote(s) + ([44] + rest))) == Some([Member(name, Text(s))] + more)
  {
    QuotedReadsBack(s, [44] + rest);
    MoreMembers(name, JsonQuote(s) + ([44] + rest), Text(s), rest, more);
  }

  lemma NumberMember(name: string, n: nat, rest: Bytes, more: seq<Member>)
    requires PlainName(name) && ReadMembers(rest) == Some(more)
    ensures ReadMembers(Name(name) + (Decimal(n) + ([44] + rest))) == Some([Member(name, Number(n as real))] + more)
  {
    DecimalReadsBack(n, [44] + rest);
    MoreMembers(name, Decimal(n) + ([44] + rest), Number(n as real), rest, more);
  }

  lemma LastNumber(name: string, n: nat)
    requires PlainName(name)
    ensures ReadMembers(Name(name) + (Decimal(n) + [125])) == Some([Member(name, Number(n as real))])
  {
    DecimalReadsBack(n, [125]);
    LastMember(name, Decimal(n) + [125], Number(n as real));
  }

  // ----- the header

  /** The members of a header from one of them to the closing brace, as text and as a list. */
  function TotalOn(p: Part): Bytes {
    Name("total") + (Decimal(p.total) + [125])
  }

  function SeqOn(p: Part): Bytes {
    Name("seq") + (Decimal(p.seqNo) + ([44] + TotalOn(p)))
  }

  function IdOn(p: Part): Bytes {
    Name("id") + (JsonQuote(p.id) + ([44] + SeqOn(p)))
  }

  function SizeOn(f: Frame): Bytes {
    Name("size") + (Decimal(|f.body|) + if f.part.Some? then [44] + IdOn(f.part.value) else [125])
  }

  function MimeOn(f: Frame): Bytes {
    Name("mime") + (JsonQuote(f.mime) + ([44] + SizeOn(f)))
  }

  function AddonOn(f: Frame): Bytes {
    Name("addon") + (JsonQuote(f.addon) + ([44] + MimeOn(f)))
  }

  function TotalList(p: Part): seq<Member> {
    [Member("total", Number(p.total as real))]
  }

  function SeqList(p: Part): seq<Member> {
    [Member("seq", Number(p.seqNo as real))] + TotalList(p)
  }

  function IdList(p: Part): seq<Member> {
    [Member("id", Text(p.id))] + SeqList(p)
  }

  function SizeList(f: Frame): seq<Member> {
    [Member("size", Number(|f.body| as real))] + if f.part.Some? then IdList(f.part.value) else []
  }

  function MimeList(f: Frame): seq<Member> {
    [Member("mime", Text(f.mime))] + SizeList(f)
  }

  function AddonList(f: Frame): seq<Member> {
    [Member("addon", Text(f.addon))] + MimeList(f)
  }

  lemma SeqReadsBack(p: Part)
    ensures ReadMembers(SeqOn(p)) == Some(SeqList(p))
  {
    LastNumber("total", p.total);
    NumberMember("seq", p.seqNo, TotalOn(p), TotalList(p));
  }

  lemma IdReadsBack(p: Part)
    ensures ReadMembers(IdOn(p)) == Some(IdList(p))
  {
    SeqReadsBack(p);
    TextMember("id", p.id, SeqOn(p), SeqList(p));
  }

  lemma SizeReadsBack(f: Frame)
    ensures ReadMembers(SizeOn(f)) == Some(SizeList(f))
  {
    if f.part.Some? {
      IdReadsBack(f.part.value);
      NumberMember("size", |f.body|, IdOn(f.part.value), IdList(f.part.value));
    } else {
      LastNumber("size", |f.body|);
      assert SizeList(f) == [Member("size", Number(|f.body| as real))];
    }
  }

  lemma MimeReadsBack(f: Frame)
    ensures ReadMembers(MimeOn(f)) == Some(MimeList(f))
  {
    SizeReadsBack(f);
    TextMember("mime", f.mime, SizeOn(f), SizeList(f));
  }

  lemma AddonReadsBack(f: Frame)
    ensures ReadMembers(AddonOn(f)) == Some(AddonList(f))
  {
    MimeReadsBack(f);
    TextMember("addon", f.addon, MimeOn(f), MimeList(f));
  }

  lemma MembersReadBack(f: Frame)
    ensures ReadMembers(Name("v") + (Decimal(1) + ([44] + AddonOn(f)))) == Some([Member("v", Number(1.0))] + AddonList(f))
  {
    AddonReadsBack(f);
    NumberMember("v", 1, AddonOn(f), AddonList(f));
  }

  // ----- the header as it is printed

  lemma NameInText(name: string, before: string, text: string)
    requires text == before + "\"" + name + "\":"
    ensures Ascii(text) == Ascii(before) + Name(name)
  {
    AsciiConcat(before + "\"" + name, "\":");
    AsciiConcat(before + "\"", name);
    AsciiConcat(before, "\"");
    assert Ascii("\"") == [QUOTE] && Ascii("\":") == [QUOTE, 58];
  }

  lemma AfterComma(name: string, text: string)
    requires text == ",\"" + name + "\":"
    ensures Ascii(text) == [44] + Name(name)
  {
    assert Ascii(",") == [44] && text == "," + "\"" + name + "\":";
    NameInText(name, ",", text);
  }

  /** What stands before a member moves to the front. */
  lemma Moved(front: Bytes, name: Bytes, value: Bytes, rest: Bytes)
    ensures front + ([44] + name) + value + rest == front + ([44] + (name + (value + rest)))
  {
    Reassociate(front + ([44] + name), value, rest);
    Reassociate(front, [44] + name, value + rest);
    Reassociate([44], name, value + rest);
  }

  lemma PartPrinted(p: Part)
    ensures PartText(JsonQuote, Some(p)) + [125] == [44] + IdOn(p)
  {
    AfterComma("id", ",\"id\":");
    AfterComma("seq", ",\"seq\":");
    AfterComma("total", ",\"total\":");
    var ids, seqs := [44] + Name("id") + JsonQuote(p.id), Name("seq");
    var front := ids + ([44] + seqs) + Decimal(p.seqNo);
    Moved(front, Name("total"), Decimal(p.total), [125]);
    Moved(ids, seqs, Decimal(p.seqNo), [44] + TotalOn(p));
    Reassociate([44], Name("id"), JsonQuote(p.id));
    Reassociate([44], Name("id") + JsonQuote(p.id), [44] + SeqOn(p));
    Reassociate(Name("id"), JsonQuote(p.id), [44] + SeqOn(p));
  }

  /** What is printed after the name of the size. */
  function AfterSize(f: Frame): Bytes {
    if f.part.Some? then [44] + IdOn(f.part.value) else [125]
  }

  lemma SizePrinted(f: Frame)
    ensures PartText(JsonQuote, f.part) + Ascii("}") == AfterSize(f)
    ensures SizeOn(f) == Name("size") + (Decimal(|f.body|) + AfterSize(f))
  {
    assert Ascii("}") == [125];
    if f.part.Some? {
      PartPrinted(f.part.value);
    } else {
      assert PartText(JsonQuote, f.part) == [];
    }
  }

  lemma StartPrinted()
    ensures Ascii("{\"v\":1,\"addon\":") == [123] + Name("v") + Decimal(1) + ([44] + Name("addon"))
  {
    var front, back := "{\"v\":", "1,\"addon\":";
    assert "{\"v\":1,\"addon\":" == front + back;
    AsciiConcat(front, back);
    NameInText("v", "{", front);
    NameInText("addon", "1,", back);
    assert Ascii("{") == [123] && Ascii("1,") == [49, 44] == Decimal(1) + [44];
    Reassociate([123] + Name("v") + Decimal(1), [44], Name("addon"));
    Reassociate([123] + Name("v"), Decimal(1), [44]);
    Reassociate([123] + Name("v"), Decimal(1) + [44], Name("addon"));
  }

  lemma FrontPrinted(f: Frame, start: Bytes)
    requires start == [123] + Name("v") + Decimal(1)
    ensures start + ([44] + AddonOn(f)) == [123] + (Name("v") + (Decimal(1) + ([44] + AddonOn(f))))
  {
    Reassociate([123] + Name("v"), Decimal(1), [44] + AddonOn(f));
    Reassociate([123], Name("v"), Decimal(1) + ([44] + AddonOn(f)));
  }

  /** Three members one after another, as they are printed and nested. */
  lemma ThreeMoved(start: Bytes, name: Bytes, value: Bytes, name': Bytes, value': Bytes, name'': Bytes, rest: Bytes)
    ensures start + ([44] + name) + value + ([44] + name') + value' + ([44] + name'') + rest
         == start + ([44] + (name + (value + ([44] + (name' + (value' + ([44] + (name'' + rest))))))))
  {
    var front := start + ([44] + name) + value;
    Reassociate(front + ([44] + name') + value', [44] + name'', rest);
    Reassociate([44], name'', rest);
    var more := [44] + (name'' + rest);
    Moved(front, name', value', more);
    Moved(start, name, value, [44] + (name' + (value' + more)));
  }

  lemma LastTwo(front: Bytes, size: Bytes, part: Bytes, brace: Bytes)
    ensures front + size + part + brace == front + (size + (part + brace))
  {
    Reassociate(front + size, part, brace);
    Reassociate(front, size, part + brace);
  }

  lemma HeaderPrinted(f: Frame)
    ensures PrintHeader(JsonQuote, f) == [123] + (Name("v") + (Decimal(1) + ([44] + AddonOn(f))))
  {
    StartPrinted();
    AfterComma("mime", ",\"mime\":");
    AfterComma("size", ",\"size\":");
    SizePrinted(f);
    var start := [123] + Name("v") + Decimal(1);
    var front := start + ([44] + Name("addon")) + JsonQuote(f.addon) + ([44] + Name("mime")) + JsonQuote(f.mime) + ([44] + Name("size"));
    LastTwo(front, Decimal(|f.body|), PartText(JsonQuote, f.part), Ascii("}"));
    ThreeMoved(start, Name("addon"), JsonQuote(f.addon), Name("mime"), JsonQuote(f.mime), Name("size"), Decimal(|f.body|) + AfterSize(f));
    FrontPrinted(f, start);
  }

  // ----- looking fields up

  lemma {:induction false} FieldFirst(m: Member, rest: seq<Member>, name: string)
    ensures Field([m] + rest, name) ==
              if exists x :: x in rest && x.name == name then Field(rest, name)
              else if m.name == name then m.value else Absent
  {
    if rest == [] {
      assert [m] + rest == [m] && [m][..0] == [];
    } else {
      var front, last := rest[..|rest| - 1], rest[|rest| - 1];
      assert ([m] + rest)[..|rest|] == [m] + front;
      assert rest == front + [last];
      FieldFirst(m, front, name);
    }
  }

  /** A name that does not come again has the value that comes first. */
  lemma Found(m: Member, rest: seq<Member>)
    requires forall x :: x in rest ==> x.name != m.name
    ensures Field([m] + rest, m.name) == m.value
  {
    FieldFirst(m, rest, m.name);
  }

  lemma Passed(m: Member, rest: seq<Member>, name: string)
    requires m.name != name
    ensures Field([m] + rest, name) == Field(rest, name)
  {
    FieldFirst(m, rest, name);
    NotThere(rest, name);
  }

  lemma {:induction false} NotThere(rest: seq<Member>, name: string)
    ensures (forall x :: x in rest ==> x.name != name) ==> Field(rest, name) == Absent
  {
    if rest != [] {
      NotThere(rest[..|rest| - 1], name);
      assert rest[|rest| - 1] in rest;
    }
  }

  lemma PartFields(p: Part)
    ensures Field(IdList(p), "id") == Text(p.id) && Field(IdList(p), "seq") == Number(p.seqNo as real)
    ensures Field(IdList(p), "total") == Number(p.total as real)
    ensures forall x :: x in IdList(p) ==> x.name in ["id", "seq", "total"]
  {
    var id, seqs, total := Member("id", Text(p.id)), Member("seq", Number(p.seqNo as real)), Member("total", Number(p.total as real));
    assert TotalList(p) == [total] + [];
    Found(total, []);
    Passed(seqs, TotalList(p), "total");
    Found(seqs, TotalList(p));
    Passed(id, SeqList(p), "total");
    Passed(id, SeqList(p), "seq");
    Found(id, SeqList(p));
  }

  /** The part fields behind the size, or their absence. */
  lemma SizeFields(f: Frame)
    ensures Field(SizeList(f), "size") == Number(|f.body| as real)
    ensures forall x :: x in SizeList(f) ==> x.name in ["size", "id", "seq", "total"]
    ensures f.part.None? ==>
              Field(SizeList(f), "id") == Absent && Field(SizeList(f), "seq") == Absent && Field(SizeList(f), "total") == Absent
    ensures f.part.Some? ==>
              && Field(SizeList(f), "id") == Text(f.part.value.id)
              && Field(SizeList(f), "seq") == Number(f.part.value.seqNo as real)
              && Field(SizeList(f), "total") == Number(f.part.value.total as real)
  {
    var size, more := Member("size", Number(|f.body| as real)), if f.part.Some? then IdList(f.part.value) else [];
    if f.part.Some? {
      PartFields(f.part.value);
    }
    Found(size, more);
    Passed(size, more, "id");
    Passed(size, more, "seq");
    Passed(size, more, "total");
  }

  predicate LaterName(name: string) {
    name in ["size", "id", "seq", "total"]
  }

  lemma FrontFields(f: Frame, all: seq<Member>)
    requires all == [Member("v", Number(1.0))] + AddonList(f)
    requires forall x :: x in SizeList(f) ==> LaterName(x.name)
    ensures Field(all, "v") == Number(1.0) && Field(all, "addon") == Text(f.addon) && Field(all, "mime") == Text(f.mime)
  {
    var v, addon := Member("v", Number(1.0)), Member("addon", Text(f.addon));
    Found(v, AddonList(f));
    Passed(v, AddonList(f), "addon");
    Found(addon, MimeList(f));
    Passed(v, AddonList(f), "mime");
    MimeField(f);
  }

  lemma MimeField(f: Frame)
    requires forall x :: x in SizeList(f) ==> LaterName(x.name)
    ensures Field(AddonList(f), "mime") == Text(f.mime)
  {
    Passed(Member("addon", Text(f.addon)), MimeList(f), "mime");
    Found(Member("mime", Text(f.mime)), SizeList(f));
  }

  lemma LaterField(f: Frame, all: seq<Member>, name: string)
    requires all == [Member("v", Number(1.0))] + AddonList(f) && LaterName(name)
    ensures Field(all, name) == Field(SizeList(f), name)
  {
    Passed(Member("v", Number(1.0)), AddonList(f), name);
    Passed(Member("addon", Text(f.addon)), MimeList(f), name);
    Passed(Member("mime", Text(f.mime)), SizeList(f), name);
  }

  lemma FieldsReadBack(f: Frame)
    ensures HeaderFrom([Member("v", Number(1.0))] + AddonList(f)) == HeaderOf(f)
  {
    var all := [Member("v", Number(1.0))] + AddonList(f);
    SizeFields(f);
    FrontFields(f, all);
    LaterField(f, all, "size");
    LaterField(f, all, "id");
    LaterField(f, all, "seq");
    LaterField(f, all, "total");
  }

  lemma ObjectReadsBack(b: Bytes, members: seq<Member>)
    requires ReadMembers(b) == Some(members)
    ensures ReadHeaderText([123] + b) == Fields(HeaderFrom(members))
  {
    DropFront([123], b);
    assert ([123] + b)[0] == 123 != [110, 117, 108, 108][0];
  }

  /** A printed header is read back field by field. */
  lemma HeaderReadsBack(f: Frame)
    ensures ReadHeaderText(PrintHeader(JsonQuote, f)) == Fields(HeaderOf(f))
  {
    HeaderPrinted(f);
    MembersReadBack(f);
    ObjectReadsBack(Name("v") + (Decimal(1) + ([44] + AddonOn(f))), [Member("v", Number(1.0))] + AddonList(f));
    FieldsReadBack(f);
  }

  /** The law of headers holds for JSON. */
  lemma JsonLawHolds()
    ensures JsonLaw(JsonQuote, ReadHeaderText)
  {
    forall f: Frame ensures ReadHeaderText(PrintHeader(JsonQuote, f)) == Fields(HeaderOf(f)) {
      HeaderReadsBack(f);
    }
  }

  /** A frame that was sent, read as JSON, gives back what was put in, with nothing assumed. */
  lemma FrameReadsBack(f: Frame)
    requires Fits(JsonQuote, f) && f.addon != ""
    ensures Parse(ReadHeaderText, Encode(JsonQuote, f)) == Meaning(f)
  {
    JsonLawHolds();
    ParseEncode(JsonQuote, ReadHeaderText, f);
  }
}
