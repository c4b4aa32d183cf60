/** Room and peer ids: fixed-width base32 encodings of big-endian numbers. */
module Ids {
  import opened Common
  import opened Lexical

  const ALPHABET: string := "0123456789abcdefghjkmnpqrstvwxyz"
  const TIMESTAMP_MAX: int := 0xffff_ffff_ffff

  const ROOM_DIGITS: nat := 26
  const TIMESTAMP_DIGITS: nat := 10
  const RANDOM_DIGITS: nat := 16

  /** The character class `[0-9a-hjkmnp-tv-z]`. */
  predicate IsIdChar(c: char) {
    '0' <= c <= '9' || 'a' <= c <= 'h' || c == 'j' || c == 'k' || c == 'm' || c == 'n' || 'p' <= c <= 't' || 'v' <= c <= 'z'
  }

  predicate IsId(s: string) {
    |s| == 26 && forall i :: 0 <= i < |s| ==> IsIdChar(s[i])
  }

  // ----- numbers and digits

  function BigEndian(b: Bytes): nat {
    if b == [] then 0 else 256 * BigEndian(b[..|b| - 1]) + b[|b| - 1]
  }

  function Pow(b: nat, n: nat): nat {
    if n == 0 then 1 else b * Pow(b, n - 1)
  }

  /** The lowest `w` base32 digits of a number, most significant first. */
  function Digits32(n: nat, w: nat): (s: string)
    ensures |s| == w
  {
    if w == 0 then "" else Digits32(n / 32, w - 1) + [ALPHABET[n % 32]]
  }

  function CodesOf(s: string): Codes {
    seq(|s|, i requires 0 <= i < |s| => s[i] as int)
  }

  predicate Sooner(s: string, t: string) {
    LexLess(CodesOf(s), CodesOf(t))
  }

  lemma CodesConcat(s: string, t: string)
    ensures CodesOf(s + t) == CodesOf(s) + CodesOf(t)
  {
  }

  lemma CodesInjective(s: string, t: string)
    ensures CodesOf(s) == CodesOf(t) <==> s == t
  {
    if CodesOf(s) == CodesOf(t) {
      forall i | 0 <= i < |s| ensures s[i] == t[i] {
        assert CodesOf(s)[i] == CodesOf(t)[i];
      }
    }
  }

  lemma AlphabetDigit(i: nat)
    requires i < 10
    ensures ALPHABET[i] as int == 48 + i
  {
    var a := ALPHABET;
    assert a[0] == '0' && a[1] == '1' && a[2] == '2' && a[3] == '3' && a[4] == '4';
    assert a[5] == '5' && a[6] == '6' && a[7] == '7' && a[8] == '8' && a[9] == '9';
  }

  lemma AlphabetLow(i: nat)
    requires 10 <= i < 18
    ensures ALPHABET[i] as int == 87 + i
  {
    var a := ALPHABET;
    assert a[10] == 'a' && a[11] == 'b' && a[12] == 'c' && a[13] == 'd' && a[14] == 'e' && a[15] == 'f' && a[16] == 'g' && a[17] == 'h';
  }

  lemma AlphabetHigh(i: nat)
    requires 18 <= i < 32
    ensures ALPHABET[i] as int == if i < 20 then 88 + i else if i < 22 then 89 + i else if i < 27 then 90 + i else 91 + i
  {
    var a := ALPHABET;
    assert a[18] == 'j' && a[19] == 'k' && a[20] == 'm' && a[21] == 'n' && a[22] == 'p' && a[23] == 'q' && a[24] == 'r';
    assert a[25] == 's' && a[26] == 't' && a[27] == 'v' && a[28] == 'w' && a[29] == 'x' && a[30] == 'y' && a[31] == 'z';
  }

  lemma AlphabetAt(i: nat)
    requires i < 32
    ensures ALPHABET[i] as int ==
      if i < 10 then 48 + i else if i < 18 then 87 + i else if i < 20 then 88 + i
      else if i < 22 then 89 + i else if i < 27 then 90 + i else 91 + i
  {
    if i < 10 {
      AlphabetDigit(i);
    } else if i < 18 {
      AlphabetLow(i);
    } else {
      AlphabetHigh(i);
    }
  }

  lemma AlphabetOrdered(i: nat, j: nat)
    requires i < 32 && j < 32
    ensures ALPHABET[i] < ALPHABET[j] <==> i < j
    ensures ALPHABET[i] == ALPHABET[j] <==> i == j
    ensures IsIdChar(ALPHABET[i])
  {
    AlphabetAt(i);
    AlphabetAt(j);
  }

  lemma {:induction false} DigitsAreIdChars(n: nat, w: nat)
    ensures forall i :: 0 <= i < w ==> IsIdChar(Digits32(n, w)[i])
  {
    if w > 0 {
      DigitsAreIdChars(n / 32, w - 1);
      AlphabetOrdered(n % 32, n % 32);
    }
  }

  lemma SoonerSnoc(s: string, t: string, x: char, y: char)
    requires |s| == |t|
    ensures Sooner(s + [x], t + [y]) <==> Sooner(s, t) || (s == t && x < y)
  {
    CodesConcat(s, [x]);
    CodesConcat(t, [y]);
    CodesInjective(s, t);
    assert CodesOf([x]) == [x as int] && CodesOf([y]) == [y as int];
    LexSnoc(CodesOf(s), CodesOf(t), x as int, y as int);
  }

  lemma SoonerConcat(s: string, t: string, u: string, v: string)
    requires |s| == |t|
    ensures Sooner(s + u, t + v) <==> Sooner(s, t) || (s == t && Sooner(u, v))
  {
    CodesConcat(s, u);
    CodesConcat(t, v);
    CodesInjective(s, t);
    LexConcat(CodesOf(s), CodesOf(t), CodesOf(u), CodesOf(v));
  }

  /** Among numbers of `w` digits, comparing the digits is comparing the numbers. */
  lemma {:induction false} DigitsOrdered(n: nat, m: nat, w: nat)
    requires n < Pow(32, w) && m < Pow(32, w)
    ensures Sooner(Digits32(n, w), Digits32(m, w)) <==> n < m
    ensures Digits32(n, w) == Digits32(m, w) ==> n == m
  {
    if w > 0 {
      DigitsOrdered(n / 32, m / 32, w - 1);
      AlphabetOrdered(n % 32, m % 32);
      AlphabetOrdered(m % 32, n % 32);
      var s, t := Digits32(n / 32, w - 1), Digits32(m / 32, w - 1);
      SoonerSnoc(s, t, ALPHABET[n % 32], ALPHABET[m % 32]);
      LexIrreflexive(CodesOf(s));
      assert (s + [ALPHABET[n % 32]])[..w - 1] == s && (t + [ALPHABET[m % 32]])[..w - 1] == t;
    }
  }

  lemma {:induction false} BigEndianBound(b: Bytes)
    ensures BigEndian(b) < Pow(256, |b|)
  {
    if b != [] {
      BigEndianBound(b[..|b| - 1]);
    }
  }

  lemma {:induction false} BigEndianInjective(a: Bytes, b: Bytes)
    requires |a| == |b| && BigEndian(a) == BigEndian(b)
    ensures a == b
  {
    if a != [] {
      var n := |a| - 1;
      var x: int, y: int := a[n], b[n];
      assert x == BigEndian(a) % 256 && y == BigEndian(b) % 256;
      BigEndianInjective(a[..n], b[..n]);
      assert a == a[..n] + [a[n]] && b == b[..n] + [b[n]];
    }
  }

  lemma {:induction false} PowSplit(b: nat, n: nat, m: nat)
    ensures Pow(b, n + m) == Pow(b, n) * Pow(b, m)
  {
    if n > 0 {
      PowSplit(b, n - 1, m);
      assert b * (Pow(b, n - 1) * Pow(b, m)) == b * Pow(b, n - 1) * Pow(b, m);
    }
  }

  lemma Widths()
    ensures Pow(256, 16) * 4 == Pow(32, ROOM_DIGITS)
    ensures Pow(256, 10) == Pow(32, RANDOM_DIGITS)
    ensures TIMESTAMP_MAX < Pow(32, TIMESTAMP_DIGITS)
  {
    assert Pow(256, 5) == 0x100_0000_0000;
    assert Pow(32, 8) == 0x100_0000_0000;
    PowSplit(256, 5, 5);
    PowSplit(32, 8, 8);
    assert Pow(256, 1) == 256 && Pow(32, 2) == 1024;
    PowSplit(256, 10, 5);
    PowSplit(256, 15, 1);
    PowSplit(32, 16, 8);
    PowSplit(32, 24, 2);
    PowSplit(32, 8, 2);
  }

  /** The number shifted right by `i` digits of five bits. */
  function Shifted(n: nat, i: nat): nat {
    if i == 0 then n else Shifted(n, i - 1) / 32
  }

  // ----- the encoders

  function Base32Of130(bytes: Bytes): string
    requires |bytes| == 16
  {
    Digits32(4 * BigEndian(bytes), ROOM_DIGITS)
  }

  function Ulid(timestamp: nat, random: Bytes): string
    requires |random| == 10
  {
    Digits32(timestamp, TIMESTAMP_DIGITS) + Digits32(BigEndian(random), RANDOM_DIGITS)
  }

  datatype EncodeResult = Encoded(id: string) | WrongLength | TimestampOutOfRange

  method ReadBigEndian(bytes: Bytes) returns (n: nat)
    ensures n == BigEndian(bytes)
  {
    n := 0;
    for i := 0 to |bytes|
      invariant n == BigEndian(bytes[..i])
    {
      assert bytes[..i + 1][..i] == bytes[..i];
      n := n * 256 + bytes[i];
    }
    assert bytes[..|bytes|] == bytes;
  }

  /** The digit loop, from the most significant digit down. */
  method ShiftOut(n: nat, w: nat) returns (out: string)
    ensures out == Digits32(n, w)
  {
    out := "";
    for i := w downto 0
      invariant out == Digits32(Shifted(n, i), w - i)
    {
      out := out + [ALPHABET[Shifted(n, i) % 32]];
    }
  }

  method EncodeBase32Of130(bytes: Bytes) returns (r: EncodeResult)
    ensures r == if |bytes| == 16 then Encoded(Base32Of130(bytes)) else WrongLength
  {
    if |bytes| != 16 {
      return WrongLength;
    }
    var hi := ReadBigEndian(bytes);
    var out := ShiftOut(hi * 4, ROOM_DIGITS);
    r := Encoded(out);
  }

  function Reversed(s: string): string {
    if s == "" then "" else Reversed(s[1..]) + [s[0]]
  }

  lemma {:induction false} ReversedSnoc(s: string, c: char)
    ensures Reversed(s + [c]) == [c] + Reversed(s)
  {
    if s != "" {
      assert (s + [c])[1..] == s[1..] + [c];
      ReversedSnoc(s[1..], c);
    }
  }

  /** The timestamp loop: low digits first, then reversed. */
  method TimestampDigits(timestamp: nat) returns (head: string)
    ensures head == Digits32(timestamp, TIMESTAMP_DIGITS)
  {
    var ts := timestamp;
    head := "";
    for i := TIMESTAMP_DIGITS downto 0
      invariant Digits32(ts, i) + Reversed(head) == Digits32(timestamp, TIMESTAMP_DIGITS)
    {
      ghost var before := head;
      ReversedSnoc(head, ALPHABET[ts % 32]);
      head := head + [ALPHABET[ts % 32]];
      assert Digits32(ts, i + 1) == Digits32(ts / 32, i) + [ALPHABET[ts % 32]];
      assert Digits32(ts / 32, i) + ([ALPHABET[ts % 32]] + Reversed(before)) == Digits32(ts, i + 1) + Reversed(before);
      ts := ts / 32;
    }
    head := Reversed(head);
  }

  /** A timestamp that is not an integer, or does not fit into 48 bits, is refused. */
  method EncodeUlid(timestampMs: real, random: Bytes) returns (r: EncodeResult)
    ensures |random| != 10 ==> r == WrongLength
    ensures |random| == 10 && !(timestampMs == timestampMs.Floor as real && 0 <= timestampMs.Floor <= TIMESTAMP_MAX) ==>
              r == TimestampOutOfRange
    ensures |random| == 10 && timestampMs == timestampMs.Floor as real && 0 <= timestampMs.Floor <= TIMESTAMP_MAX ==>
              r == Encoded(Ulid(timestampMs.Floor, random))
  {
    if |random| != 10 {
      return WrongLength;
    }
    if timestampMs != timestampMs.Floor as real || timestampMs < 0.0 || timestampMs.Floor > TIMESTAMP_MAX {
      return TimestampOutOfRange;
    }
    var head := TimestampDigits(timestampMs.Floor);
    var n := ReadBigEndian(random);
    var tail := ShiftOut(n, RANDOM_DIGITS);
    r := Encoded(head + tail);
  }

  // ----- properties

  /** Room ids: every one matches the id pattern, and different bytes give different ids. */
  lemma RoomIdsDistinct(a: Bytes, b: Bytes)
    requires |a| == |b| == 16
    ensures IsId(Base32Of130(a))
    ensures Base32Of130(a) == Base32Of130(b) <==> a == b
  {
    DigitsAreIdChars(4 * BigEndian(a), ROOM_DIGITS);
    BigEndianBound(a);
    BigEndianBound(b);
    Widths();
    if Base32Of130(a) == Base32Of130(b) {
      DigitsOrdered(4 * BigEndian(a), 4 * BigEndian(b), ROOM_DIGITS);
      BigEndianInjective(a, b);
    }
  }

  /**
   * Peer ids sort as they were made: comparing two of them as strings compares the
   * timestamps and, for equal timestamps, the random numbers; and every one
   * matches the id pattern.
   */
  lemma UlidsOrdered(t: nat, a: Bytes, t': nat, b: Bytes)
    requires |a| == |b| == 10 && t <= TIMESTAMP_MAX && t' <= TIMESTAMP_MAX
    ensures IsId(Ulid(t, a))
    ensures Sooner(Ulid(t, a), Ulid(t', b)) <==> t < t' || (t == t' && BigEndian(a) < BigEndian(b))
    ensures Ulid(t, a) == Ulid(t', b) <==> t == t' && a == b
  {
    DigitsAreIdChars(t, TIMESTAMP_DIGITS);
    DigitsAreIdChars(BigEndian(a), RANDOM_DIGITS);
    BigEndianBound(a);
    BigEndianBound(b);
    Widths();
    var s, u := Digits32(t, TIMESTAMP_DIGITS), Digits32(BigEndian(a), RANDOM_DIGITS);
    var s', u' := Digits32(t', TIMESTAMP_DIGITS), Digits32(BigEndian(b), RANDOM_DIGITS);
    DigitsOrdered(t, t', TIMESTAMP_DIGITS);
    DigitsOrdered(BigEndian(a), BigEndian(b), RANDOM_DIGITS);
    SoonerConcat(s, s', u, u');
    if Ulid(t, a) == Ulid(t', b) {
      assert (s + u)[..TIMESTAMP_DIGITS] == s && (s' + u')[..TIMESTAMP_DIGITS] == s' && (s + u)[TIMESTAMP_DIGITS..] == u && (s' + u')[TIMESTAMP_DIGITS..] == u';
      BigEndianInjective(a, b);
    }
  }

  // ----- what an id says

  /** The value of a character of an id, by its place in the alphabet without i, l, o and u. */
  function DigitValue(c: char): int {
    if '0' <= c <= '9' then c as int - '0' as int
    else if 'a' <= c <= 'h' then c as int - 'a' as int + 10
    else if 'j' <= c <= 'k' then c as int - 'j' as int + 18
    else if 'm' <= c <= 'n' then c as int - 'm' as int + 20
    else if 'p' <= c <= 't' then c as int - 'p' as int + 22
    else c as int - 'v' as int + 27
  }

  /** An id read as a number in base 32. */
  function ReadBase32(s: string): int {
    if s == "" then 0 else 32 * ReadBase32(s[..|s| - 1]) + DigitValue(s[|s| - 1])
  }

  lemma DigitValueAt(i: nat)
    requires i < 32
    ensures DigitValue(ALPHABET[i]) == i
  {
    AlphabetAt(i);
  }

  lemma {:induction false} DigitsReadBack(n: nat, w: nat)
    requires n < Pow(32, w)
    ensures ReadBase32(Digits32(n, w)) == n
  {
    if w > 0 {
      DigitsReadBack(n / 32, w - 1);
      DigitValueAt(n % 32);
      assert Digits32(n, w)[..w - 1] == Digits32(n / 32, w - 1);
    }
  }

  /** Byte `i` of a number, counted from the low end. */
  function ByteOf(n: nat, i: nat): int {
    if i == 0 then n % 256 else ByteOf(n / 256, i - 1)
  }

  lemma {:induction false} ByteAt(b: Bytes, i: nat)
    requires i < |b|
    ensures ByteOf(BigEndian(b), |b| - 1 - i) == b[i]
  {
    var n := |b| - 1;
    var front, last: int := BigEndian(b[..n]), b[n];
    assert BigEndian(b) == 256 * front + last;
    if i < n {
      ByteAt(b[..n], i);
    }
  }

  /** A number in the range of 26 digits that is its top 128 bits, followed by two zeros. */
  lemma RoomNumber(bytes: Bytes, n: nat)
    requires |bytes| == 16 && n == 4 * BigEndian(bytes)
    ensures n % 4 == 0 && forall i :: 0 <= i < 16 ==> ByteOf(n / 4, 15 - i) == bytes[i]
  {
    forall i | 0 <= i < 16 ensures ByteOf(n / 4, 15 - i) == bytes[i] {
      ByteAt(bytes, i);
    }
  }

  /**
   * A room id, read as a number of 26 digits, has the sixteen bytes in order in the
   * upper 128 of its 130 bits, and zeros in the two lowest.
   */
  lemma RoomIdReadsBack(bytes: Bytes, n: int)
    requires |bytes| == 16 && n == ReadBase32(Base32Of130(bytes))
    ensures |Base32Of130(bytes)| == 26 && n >= 0
    ensures n % 4 == 0 && forall i :: 0 <= i < 16 ==> ByteOf(n / 4, 15 - i) == bytes[i]
  {
    BigEndianBound(bytes);
    Widths();
    DigitsReadBack(4 * BigEndian(bytes), ROOM_DIGITS);
    RoomNumber(bytes, n);
  }

  lemma UlidHalves(t: nat, random: Bytes)
    requires |random| == 10
    ensures Ulid(t, random)[..10] == Digits32(t, TIMESTAMP_DIGITS)
    ensures Ulid(t, random)[10..] == Digits32(BigEndian(random), RANDOM_DIGITS)
  {
  }

  lemma TimestampReadsBack(t: nat)
    requires t <= TIMESTAMP_MAX
    ensures ReadBase32(Digits32(t, TIMESTAMP_DIGITS)) == t
  {
    Widths();
    DigitsReadBack(t, TIMESTAMP_DIGITS);
  }

  lemma RandomReadsBack(random: Bytes, n: int)
    requires |random| == 10 && n == ReadBase32(Digits32(BigEndian(random), RANDOM_DIGITS))
    ensures n == BigEndian(random)
  {
    BigEndianBound(random);
    Widths();
    DigitsReadBack(BigEndian(random), RANDOM_DIGITS);
  }

  lemma BytesOf(random: Bytes, n: nat)
    requires |random| == 10 && n == BigEndian(random)
    ensures forall i :: 0 <= i < 10 ==> ByteOf(n, 9 - i) == random[i]
  {
    forall i | 0 <= i < 10 ensures ByteOf(n, 9 - i) == random[i] {
      ByteAt(random, i);
    }
  }

  /** The first ten characters of a peer id are the timestamp, the other sixteen the random bytes in order. */
  lemma UlidReadsBack(t: nat, random: Bytes, n: int)
    requires |random| == 10 && t <= TIMESTAMP_MAX && n == ReadBase32(Ulid(t, random)[10..])
    ensures |Ulid(t, random)| == 26 && ReadBase32(Ulid(t, random)[..10]) == t
    ensures n >= 0 && forall i :: 0 <= i < 10 ==> ByteOf(n, 9 - i) == random[i]
  {
    UlidHalves(t, random);
    TimestampReadsBack(t);
    RandomReadsBack(random, n);
    BytesOf(random, n);
  }
}
