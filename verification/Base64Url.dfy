/** base64url without padding (section 5 of RFC 4648). */
module Base64Url {
  import opened Common

  const UPPER: string := "ABCDEFGHIJKLMNOPQRSTUVWXYZ"
  const LOWER: string := "abcdefghijklmnopqrstuvwxyz"
  const REST: string := "0123456789-_"
  const ALPHABET: string := UPPER + LOWER + REST

  type Digit = d: int | 0 <= d < 64

  predicate InAlphabet(c: char) {
    'A' <= c <= 'Z' || 'a' <= c <= 'z' || '0' <= c <= '9' || c == '_' || c == '-'
  }

  predicate AllInAlphabet(s: string) {
    forall i :: 0 <= i < |s| ==> InAlphabet(s[i])
  }

  function Symbol(d: Digit): char {
    (if d < 26 then d + 65 else if d < 52 then d + 71 else if d < 62 then d - 4 else if d == 62 then 45 else 95) as char
  }

  function First(a: byte): Digit {
    a / 4
  }

  function Second(a: byte, b: byte): Digit {
    a % 4 * 16 + b / 16
  }

  function Third(b: byte, c: byte): Digit {
    b % 16 * 4 + c / 64
  }

  function Fourth(c: byte): Digit {
    c % 64
  }

  function Value(c: char): Digit
    requires InAlphabet(c)
  {
    if 'A' <= c <= 'Z' then c as int - 65
    else if 'a' <= c <= 'z' then c as int - 71
    else if '0' <= c <= '9' then c as int + 4
    else if c == '-' then 62
    else 63
  }

  /** The groups of up to three bytes, each as two to four digits. */
  function Encode(b: Bytes): string {
    if |b| == 0 then ""
    else if |b| == 1 then
      [Symbol(First(b[0])), Symbol(Second(b[0], 0))]
    else if |b| == 2 then
      [Symbol(First(b[0])), Symbol(Second(b[0], b[1])), Symbol(Third(b[1], 0))]
    else
      [Symbol(First(b[0])), Symbol(Second(b[0], b[1])), Symbol(Third(b[1], b[2])), Symbol(Fourth(b[2]))]
      + Encode(b[3..])
  }

  function Join(a: Digit, b: Digit): byte {
    a * 4 + b / 16
  }

  function Join'(b: Digit, c: Digit): byte {
    b % 16 * 16 + c / 4
  }

  function Join''(c: Digit, d: Digit): byte {
    c % 4 * 64 + d
  }

  /** A length that groups of four and a last one of two or three can have. */
  predicate Whole(n: nat) {
    n != 1 && (n < 4 || Whole(n - 4))
  }

  function DecodeGroups(s: string): Bytes
    requires AllInAlphabet(s) && Whole(|s|)
  {
    if |s| == 0 then []
    else if |s| == 2 then [Join(Value(s[0]), Value(s[1]))]
    else if |s| == 3 then [Join(Value(s[0]), Value(s[1])), Join'(Value(s[1]), Value(s[2]))]
    else
      [Join(Value(s[0]), Value(s[1])), Join'(Value(s[1]), Value(s[2])), Join''(Value(s[2]), Value(s[3]))]
      + DecodeGroups(s[4..])
  }

  function Decode(s: string): Option<Bytes> {
    if AllInAlphabet(s) && Whole(|s|) then Some(DecodeGroups(s)) else None
  }

  // ----- the alphabet

  lemma UpperAt(d: nat)
    requires d < 26
    ensures UPPER[d] as int == d + 65
  {
    var a := UPPER;
    assert a[0] == 'A' && a[1] == 'B' && a[2] == 'C' && a[3] == 'D' && a[4] == 'E' && a[5] == 'F' && a[6] == 'G' && a[7] == 'H';
    assert a[8] == 'I' && a[9] == 'J' && a[10] == 'K' && a[11] == 'L' && a[12] == 'M' && a[13] == 'N' && a[14] == 'O' && a[15] == 'P';
    assert a[16] == 'Q' && a[17] == 'R' && a[18] == 'S' && a[19] == 'T' && a[20] == 'U' && a[21] == 'V' && a[22] == 'W' && a[23] == 'X';
    assert a[24] == 'Y' && a[25] == 'Z';
  }

  lemma LowerAt(d: nat)
    requires d < 26
    ensures LOWER[d] as int == d + 97
  {
    var a := LOWER;
    assert a[0] == 'a' && a[1] == 'b' && a[2] == 'c' && a[3] == 'd' && a[4] == 'e' && a[5] == 'f' && a[6] == 'g' && a[7] == 'h';
    assert a[8] == 'i' && a[9] == 'j' && a[10] == 'k' && a[11] == 'l' && a[12] == 'm' && a[13] == 'n' && a[14] == 'o' && a[15] == 'p';
    assert a[16] == 'q' && a[17] == 'r' && a[18] == 's' && a[19] == 't' && a[20] == 'u' && a[21] == 'v' && a[22] == 'w' && a[23] == 'x';
    assert a[24] == 'y' && a[25] == 'z';
  }

  lemma RestAt(d: nat)
    requires d < 12
    ensures REST[d] as int == if d < 10 then d + 48 else if d == 10 then 45 else 95
  {
    var a := REST;
    assert a[0] == '0' && a[1] == '1' && a[2] == '2' && a[3] == '3' && a[4] == '4' && a[5] == '5' && a[6] == '6' && a[7] == '7';
    assert a[8] == '8' && a[9] == '9' && a[10] == '-' && a[11] == '_';
  }

  /** The alphabet, read at a position. */
  lemma AlphabetAt(d: Digit)
    ensures ALPHABET[d] == Symbol(d)
  {
    if d < 26 {
      UpperAt(d);
    } else if d < 52 {
      LowerAt(d - 26);
    } else {
      RestAt(d - 52);
    }
  }

  lemma SymbolValue(d: Digit)
    ensures InAlphabet(Symbol(d)) && Value(Symbol(d)) == d && Symbol(d) as int < 128
  {
  }

  lemma ValueSymbol(c: char)
    requires InAlphabet(c)
    ensures Symbol(Value(c)) == c
  {
  }

  // ----- one group

  lemma Split3(a: byte, b: byte, c: byte)
    ensures Join(First(a), Second(a, b)) == a
    ensures Join'(Second(a, b), Third(b, c)) == b
    ensures Join''(Third(b, c), Fourth(c)) == c
  {
  }

  lemma Join4(a: Digit, b: Digit, c: Digit, d: Digit)
    ensures First(Join(a, b)) == a
    ensures Second(Join(a, b), Join'(b, c)) == b
    ensures Third(Join'(b, c), Join''(c, d)) == c
    ensures Fourth(Join''(c, d)) == d
    ensures Second(Join(a, b), 0) == b <==> b % 16 == 0
    ensures Third(Join'(b, c), 0) == c <==> c % 4 == 0
  {
    var ab: int, bc: int, cd: int := Join(a, b), Join'(b, c), Join''(c, d);
    assert ab / 4 == a && ab % 4 == b / 16;
    assert bc / 16 == b % 16 && bc % 16 == c / 4;
    assert cd / 64 == c % 4 && cd % 64 == d;
  }

  lemma EncodeGroup(a: byte, b: byte, c: byte, rest: Bytes)
    ensures Encode([a, b, c] + rest)
         == [Symbol(First(a)), Symbol(Second(a, b)), Symbol(Third(b, c)), Symbol(Fourth(c))] + Encode(rest)
  {
    assert ([a, b, c] + rest)[3..] == rest;
  }

  lemma DecodeGroup(a: Digit, b: Digit, c: Digit, d: Digit, rest: string)
    requires AllInAlphabet(rest) && Whole(|rest|)
    ensures
      var s := [Symbol(a), Symbol(b), Symbol(c), Symbol(d)] + rest;
      AllInAlphabet(s) && Whole(|s|) && DecodeGroups(s) == [Join(a, b), Join'(b, c), Join''(c, d)] + DecodeGroups(rest)
  {
    var s := [Symbol(a), Symbol(b), Symbol(c), Symbol(d)] + rest;
    SymbolValue(a);
    SymbolValue(b);
    SymbolValue(c);
    SymbolValue(d);
    assert s[4..] == rest;
  }

  // ----- round trips

  /** Decoding inverts encoding, for all byte strings. */
  lemma {:induction false} DecodeEncode(b: Bytes)
    ensures Decode(Encode(b)) == Some(b)
    decreases |b|
  {
    if |b| == 1 {
      assert b == [b[0]];
      DecodeEncodeOne(b[0]);
    } else if |b| == 2 {
      assert b == [b[0], b[1]];
      DecodeEncodeTwo(b[0], b[1]);
    } else if |b| >= 3 {
      DecodeEncode(b[3..]);
      ThreeAndRest(b);
      DecodeEncodeGroup(b[0], b[1], b[2], b[3..]);
    }
  }

  lemma ThreeAndRest(b: Bytes)
    requires |b| >= 3
    ensures b == [b[0], b[1], b[2]] + b[3..]
  {
  }

  lemma DecodeEncodeOne(a: byte)
    ensures Decode(Encode([a])) == Some([a])
  {
    Split3(a, 0, 0);
    DecodeTwo(First(a), Second(a, 0));
  }

  lemma DecodeEncodeTwo(a: byte, b: byte)
    ensures Decode(Encode([a, b])) == Some([a, b])
  {
    Split3(a, b, 0);
    DecodeThree(First(a), Second(a, b), Third(b, 0));
  }

  lemma DecodeEncodeGroup(a: byte, b: byte, c: byte, rest: Bytes)
    requires Decode(Encode(rest)) == Some(rest)
    ensures Decode(Encode([a, b, c] + rest)) == Some([a, b, c] + rest)
  {
    Split3(a, b, c);
    EncodeGroup(a, b, c, rest);
    DecodeGroup(First(a), Second(a, b), Third(b, c), Fourth(c), Encode(rest));
  }

  lemma DecodeTwo(a: Digit, b: Digit)
    ensures Decode([Symbol(a), Symbol(b)]) == Some([Join(a, b)])
  {
    SymbolValue(a);
    SymbolValue(b);
  }

  lemma DecodeThree(a: Digit, b: Digit, c: Digit)
    ensures Decode([Symbol(a), Symbol(b), Symbol(c)]) == Some([Join(a, b), Join'(b, c)])
  {
    SymbolValue(a);
    SymbolValue(b);
    SymbolValue(c);
  }

  /** The bits of the last digit that decoding discards are zero. */
  predicate TailZero(s: string)
    requires AllInAlphabet(s)
  {
    if |s| >= 4 then TailZero(s[4..])
    else if |s| == 2 then Value(s[1]) % 16 == 0
    else if |s| == 3 then Value(s[2]) % 4 == 0
    else true
  }

  lemma SameSymbol(c: char, d: Digit)
    requires InAlphabet(c)
    ensures Symbol(d) == c <==> d == Value(c)
  {
    SymbolValue(d);
    ValueSymbol(c);
  }

  lemma EncodeDecode2(s: string)
    requires AllInAlphabet(s) && |s| == 2
    ensures Encode(DecodeGroups(s)) == s <==> TailZero(s)
  {
    var a, b := Value(s[0]), Value(s[1]);
    Join4(a, b, 0, 0);
    SameSymbol(s[0], First(Join(a, b)));
    SameSymbol(s[1], Second(Join(a, b), 0));
    assert s == [s[0], s[1]];
  }

  lemma EncodeDecode3(s: string)
    requires AllInAlphabet(s) && |s| == 3
    ensures Encode(DecodeGroups(s)) == s <==> TailZero(s)
  {
    var a, b, c := Value(s[0]), Value(s[1]), Value(s[2]);
    Join4(a, b, c, 0);
    SameSymbol(s[0], First(Join(a, b)));
    SameSymbol(s[1], Second(Join(a, b), Join'(b, c)));
    SameSymbol(s[2], Third(Join'(b, c), 0));
    assert s == [s[0], s[1], s[2]];
  }

  lemma DecodeUnfold(s: string)
    requires AllInAlphabet(s) && Whole(|s|) && |s| >= 4
    ensures DecodeGroups(s)
         == [Join(Value(s[0]), Value(s[1])), Join'(Value(s[1]), Value(s[2])), Join''(Value(s[2]), Value(s[3]))] + DecodeGroups(s[4..])
  {
  }

  lemma EncodeDecode4(s: string)
    requires AllInAlphabet(s) && Whole(|s|) && |s| >= 4
    ensures Encode(DecodeGroups(s)) == s[..4] + Encode(DecodeGroups(s[4..]))
  {
    var a, b, c, d := Value(s[0]), Value(s[1]), Value(s[2]), Value(s[3]);
    DecodeUnfold(s);
    Join4(a, b, c, d);
    EncodeGroup(Join(a, b), Join'(b, c), Join''(c, d), DecodeGroups(s[4..]));
    FourSymbols(s);
  }

  lemma FourSymbols(s: string)
    requires AllInAlphabet(s) && |s| >= 4
    ensures s[..4] == [Symbol(Value(s[0])), Symbol(Value(s[1])), Symbol(Value(s[2])), Symbol(Value(s[3]))]
  {
    ValueSymbol(s[0]);
    ValueSymbol(s[1]);
    ValueSymbol(s[2]);
    ValueSymbol(s[3]);
  }

  /** Encoding inverts decoding exactly when the discarded bits are zero (section 3.5 of RFC 4648). */
  lemma {:induction false} EncodeDecode(s: string)
    requires AllInAlphabet(s) && Whole(|s|)
    ensures Encode(DecodeGroups(s)) == s <==> TailZero(s)
    decreases |s|
  {
    if |s| == 2 {
      EncodeDecode2(s);
    } else if |s| == 3 {
      EncodeDecode3(s);
    } else if |s| > 0 {
      var rest := s[4..];
      EncodeDecode(rest);
      EncodeDecode4(s);
      assert s == s[..4] + rest;
      assert Encode(DecodeGroups(s))[4..] == Encode(DecodeGroups(rest));
    }
  }

  lemma {:induction false} WholeLength(n: nat)
    ensures Whole(n) <==> n % 4 != 1
    ensures 4 * (n / 4) + n % 4 == n
  {
    if n >= 4 {
      WholeLength(n - 4);
    }
  }

  /** Decoding succeeds exactly on strings over the alphabet whose length is not 1 modulo 4. */
  lemma DecodesExactly(s: string)
    ensures Decode(s).Some? <==> AllInAlphabet(s) && |s| % 4 != 1
  {
    WholeLength(|s|);
  }

  /** Which strings are the encoding of something: those that decode and have no stray bits. */
  lemma EncodingsExactly(s: string)
    ensures (exists b :: Encode(b) == s) <==> Decode(s).Some? && TailZero(s)
  {
    if Decode(s).Some? {
      EncodeDecode(s);
    }
    forall b | Encode(b) == s ensures Decode(s).Some? && TailZero(s) {
      DecodeEncode(b);
    }
  }

  // ----- the loops as they are written

  method SymbolFor(d: Digit) returns (c: char)
    ensures c == Symbol(d)
  {
    AlphabetAt(d);
    c := ALPHABET[d];
  }

  method EncodeThree(a: byte, b: byte, c: byte) returns (text: string)
    ensures text == [Symbol(First(a)), Symbol(Second(a, b)), Symbol(Third(b, c)), Symbol(Fourth(c))]
  {
    var c0 := SymbolFor(a / 4);
    var c1 := SymbolFor(a % 4 * 16 + b / 16);
    var c2 := SymbolFor(b % 16 * 4 + c / 64);
    var c3 := SymbolFor(c % 64);
    text := [c0, c1, c2, c3];
  }

  method EncodeRemainder(rest: Bytes) returns (text: string)
    requires |rest| < 3
    ensures text == Encode(rest)
  {
    text := "";
    if |rest| == 1 {
      var c0 := SymbolFor(rest[0] / 4);
      var c1 := SymbolFor(rest[0] % 4 * 16);
      text := [c0, c1];
    } else if |rest| == 2 {
      var c0 := SymbolFor(rest[0] / 4);
      var c1 := SymbolFor(rest[0] % 4 * 16 + rest[1] / 16);
      var c2 := SymbolFor(rest[1] % 16 * 4);
      text := [c0, c1, c2];
    }
  }

  method EncodeBytes(bytes: Bytes) returns (out: string)
    ensures out == Encode(bytes)
  {
    out := "";
    var i := 0;
    while i + 3 <= |bytes|
      invariant i <= |bytes| && out + Encode(bytes[i..]) == Encode(bytes)
    {
      var a, b, c := bytes[i], bytes[i + 1], bytes[i + 2];
      EncodeGroup(a, b, c, bytes[i + 3..]);
      assert bytes[i..] == [a, b, c] + bytes[i + 3..];
      var text := EncodeThree(a, b, c);
      Reassociate(out, text, Encode(bytes[i + 3..]));
      out := out + text;
      i := i + 3;
    }
    var text := EncodeRemainder(bytes[i..]);
    out := out + text;
  }

  method BuildLookup() returns (lookup: array<int>)
    ensures fresh(lookup) && IsLookup(lookup)
  {
    lookup := new int[128](_ => -1);
    for i := 0 to 64
      invariant forall d: Digit :: d < i ==> lookup[Position(d)] == d
    {
      PositionsApart(i);
      AlphabetAt(i);
      lookup[ALPHABET[i] as int] := i;
    }
    forall c: char | InAlphabet(c) ensures lookup[c as int] == Value(c) {
      ValueSymbol(c);
      assert Position(Value(c)) == c as int;
    }
  }

  function Position(d: Digit): (p: nat)
    ensures p < 128
  {
    SymbolValue(d);
    Symbol(d) as int
  }

  lemma PositionsApart(i: Digit)
    ensures forall d: Digit :: d < i ==> Position(d) != Position(i)
  {
    forall d: Digit | d < i ensures Position(d) != Position(i) {
      SymbolValue(d);
      SymbolValue(i);
    }
  }

  datatype DecodeResult = Decoded(bytes: Bytes) | NotBase64Url | InvalidLength

  /** The check of the alphabet comes before that of the length. */
  method DecodeText(s: string) returns (r: DecodeResult)
    ensures r == match Decode(s)
                 case Some(bytes) => Decoded(bytes)
                 case None => if AllInAlphabet(s) then InvalidLength else NotBase64Url
  {
    if !AllInAlphabet(s) {
      return NotBase64Url;
    }
    WholeLength(|s|);
    var lookup := BuildLookup();
    var fullGroups := |s| / 4;
    var tail := |s| - fullGroups * 4;
    if tail == 1 {
      return InvalidLength;
    }
    var out := new byte[fullGroups * 3 + if tail == 0 then 0 else tail - 1](_ => 0);
    DecodeInto(s, lookup, out, fullGroups, tail);
    r := Decoded(out[..]);
  }

  ghost predicate IsLookup(lookup: array<int>)
    reads lookup
  {
    lookup.Length == 128 && forall c: char :: InAlphabet(c) ==> lookup[c as int] == Value(c)
  }

  method DecodeFour(s: string, ii: nat, lookup: array<int>, out: array<byte>, oi: nat)
    requires ii + 4 <= |s| && AllInAlphabet(s) && IsLookup(lookup) && oi + 3 <= out.Length
    modifies out
    ensures out[..oi] == old(out[..oi])
    ensures out[oi..oi + 3] ==
              [Join(Value(s[ii]), Value(s[ii + 1])), Join'(Value(s[ii + 1]), Value(s[ii + 2])), Join''(Value(s[ii + 2]), Value(s[ii + 3]))]
  {
    var a: Digit, b: Digit, c: Digit, d: Digit :=
      lookup[s[ii] as int], lookup[s[ii + 1] as int], lookup[s[ii + 2] as int], lookup[s[ii + 3] as int];
    out[oi] := a * 4 + b / 16;
    out[oi + 1] := b % 16 * 16 + c / 4;
    out[oi + 2] := c % 4 * 64 + d;
  }

  method DecodeTail(s: string, ii: nat, lookup: array<int>, out: array<byte>, oi: nat)
    requires ii <= |s| && |s| - ii in {0, 2, 3} && AllInAlphabet(s) && IsLookup(lookup)
    requires out.Length == oi + if ii == |s| then 0 else |s| - ii - 1
    modifies out
    ensures out[..oi] == old(out[..oi]) && out[oi..] == DecodeGroups(s[ii..])
  {
    if |s| - ii == 2 {
      var a: Digit, b: Digit := lookup[s[ii] as int], lookup[s[ii + 1] as int];
      out[oi] := a * 4 + b / 16;
    } else if |s| - ii == 3 {
      var a: Digit, b: Digit, c: Digit := lookup[s[ii] as int], lookup[s[ii + 1] as int], lookup[s[ii + 2] as int];
      out[oi] := a * 4 + b / 16;
      out[oi + 1] := b % 16 * 16 + c / 4;
    }
  }

  lemma DecodeNext(s: string, ii: nat, done: Bytes)
    requires ii + 4 <= |s| && AllInAlphabet(s) && Whole(|s| - ii)
    ensures done + DecodeGroups(s[ii..])
         == done + [Join(Value(s[ii]), Value(s[ii + 1])), Join'(Value(s[ii + 1]), Value(s[ii + 2])), Join''(Value(s[ii + 2]), Value(s[ii + 3]))]
            + DecodeGroups(s[ii + 4..])
  {
    var rest := s[ii..];
    assert rest[4..] == s[ii + 4..];
  }

  method DecodeRound(s: string, ii: nat, lookup: array<int>, out: array<byte>, oi: nat)
    requires ii + 4 <= |s| && AllInAlphabet(s) && Whole(|s|) && IsLookup(lookup) && oi + 3 <= out.Length
    requires DecodedTo(s, ii, out[..oi])
    modifies out
    ensures DecodedTo(s, ii + 4, out[..oi + 3])
  {
    DecodeNext(s, ii, out[..oi]);
    DecodeFour(s, ii, lookup, out, oi);
    assert out[..oi + 3] == out[..oi] + out[oi..oi + 3];
  }

  /** The characters before `ii` have been decoded to `front`. */
  predicate DecodedTo(s: string, ii: nat, front: Bytes)
    requires AllInAlphabet(s) && Whole(|s|)
  {
    ii <= |s| && Whole(|s| - ii) && front + DecodeGroups(s[ii..]) == DecodeGroups(s)
  }

  lemma NothingDecoded(s: string, none: Bytes)
    requires AllInAlphabet(s) && Whole(|s|) && none == []
    ensures DecodedTo(s, 0, none)
  {
    assert s[0..] == s;
  }

  lemma MoreGroups(g: nat, fullGroups: nat, size: nat, room: nat)
    requires g < fullGroups && 4 * fullGroups <= size && 3 * fullGroups <= room
    ensures 4 * g + 4 <= size && 3 * g + 3 <= room
  {
  }

  method DecodeGroupAt(s: string, g: nat, lookup: array<int>, out: array<byte>, fullGroups: nat)
    requires AllInAlphabet(s) && Whole(|s|) && IsLookup(lookup)
    requires g < fullGroups && 4 * fullGroups <= |s| && 3 * fullGroups <= out.Length
    requires DecodedTo(s, 4 * g, out[..3 * g])
    modifies out
    ensures DecodedTo(s, 4 * (g + 1), out[..3 * (g + 1)])
  {
    MoreGroups(g, fullGroups, |s|, out.Length);
    DecodeRound(s, 4 * g, lookup, out, 3 * g);
  }

  method DecodeFullGroups(s: string, lookup: array<int>, out: array<byte>, fullGroups: nat)
    requires AllInAlphabet(s) && Whole(|s|) && IsLookup(lookup) && lookup != out as object
    requires 4 * fullGroups <= |s| && 3 * fullGroups <= out.Length
    modifies out
    ensures DecodedTo(s, 4 * fullGroups, out[..3 * fullGroups])
  {
    NothingDecoded(s, out[..0]);
    for g := 0 to fullGroups
      invariant IsLookup(lookup) && 3 * g <= out.Length
      invariant DecodedTo(s, 4 * g, out[..3 * g])
    {
      DecodeGroupAt(s, g, lookup, out, fullGroups);
    }
  }

  method DecodeInto(s: string, lookup: array<int>, out: array<byte>, fullGroups: nat, tail: nat)
    requires AllInAlphabet(s) && Whole(|s|) && IsLookup(lookup) && lookup != out as object
    requires |s| == 4 * fullGroups + tail && tail in {0, 2, 3}
    requires out.Length == fullGroups * 3 + if tail == 0 then 0 else tail - 1
    modifies out
    ensures out[..] == DecodeGroups(s)
  {
    var ii, oi := 4 * fullGroups, 3 * fullGroups;
    DecodeFullGroups(s, lookup, out, fullGroups);
    DecodeTail(s, ii, lookup, out, oi);
    assert out[..] == out[..oi] + out[oi..];
  }

  // ----- what a text says

  /** The value of a character, by its place among A to Z, a to z, 0 to 9, hyphen and underscore. */
  function Sextet(c: char): int {
    if 'A' <= c <= 'Z' then c as int - 'A' as int
    else if 'a' <= c <= 'z' then c as int - 'a' as int + 26
    else if '0' <= c <= '9' then c as int - '0' as int + 52
    else if c == '-' then 62
    else 63
  }

  lemma SextetOf(d: Digit)
    ensures Sextet(Symbol(d)) == d
  {
  }

  lemma SextetIsValue(c: char)
    requires InAlphabet(c)
    ensures Sextet(c) == Value(c)
  {
  }

  /** Four characters read as one number. */
  function Read4(s: string, at: nat): int
    requires at + 4 <= |s|
  {
    262_144 * Sextet(s[at]) + 4_096 * Sextet(s[at + 1]) + 64 * Sextet(s[at + 2]) + Sextet(s[at + 3])
  }

  function Bytes3(b: Bytes, at: nat): int
    requires at + 3 <= |b|
  {
    65_536 * b[at] as int + 256 * b[at + 1] as int + b[at + 2] as int
  }

  lemma GroupSays(a: byte, b: byte, c: byte)
    ensures 262_144 * First(a) + 4_096 * Second(a, b) + 64 * Third(b, c) + Fourth(c) == 65_536 * a as int + 256 * b as int + c as int
  {
  }

  lemma GroupOf(b: Bytes)
    requires |b| >= 3
    ensures |Encode(b)| == 4 + |Encode(b[3..])| && Encode(b)[4..] == Encode(b[3..])
    ensures Read4(Encode(b), 0) == Bytes3(b, 0)
  {
    GroupSays(b[0], b[1], b[2]);
    SextetOf(First(b[0]));
    SextetOf(Second(b[0], b[1]));
    SextetOf(Third(b[1], b[2]));
    SextetOf(Fourth(b[2]));
  }

  lemma ByThree(n: nat)
    requires n >= 3
    ensures (n - 3) % 3 == n % 3 && (n - 3) / 3 == n / 3 - 1
  {
  }

  lemma LeftOver(b: Bytes) returns (rest: Bytes)
    requires |b| >= 3
    ensures rest == b[3..] && |b| == |rest| + 3 && |rest| % 3 == |b| % 3 && |rest| / 3 == |b| / 3 - 1
    ensures |Encode(b)| == |Encode(rest)| + 4 && Encode(b)[4..] == Encode(rest)
    ensures Read4(Encode(b), 0) == Bytes3(b, 0)
  {
    rest := b[3..];
    ByThree(|b|);
    GroupOf(b);
  }

  lemma {:induction false} EncodedLength(b: Bytes)
    ensures |Encode(b)| == 4 * (|b| / 3) + if |b| % 3 == 0 then 0 else |b| % 3 + 1
    decreases |b|
  {
    if |b| >= 3 {
      var rest := LeftOver(b);
      EncodedLength(rest);
    }
  }

  /** Each three bytes, as a number, are what their four characters say. */
  lemma {:induction false} EncodingSays(b: Bytes, k: nat)
    requires 3 * k + 3 <= |b|
    ensures 4 * k + 4 <= |Encode(b)| && Read4(Encode(b), 4 * k) == Bytes3(b, 3 * k)
    decreases k
  {
    var rest := LeftOver(b);
    if k > 0 {
      EncodingSays(rest, k - 1);
      SameGroup(b, rest, Encode(b), Encode(rest), k);
    }
  }

  /** The last characters read as one number, and the last bytes. */
  function Last2(s: string): int
    requires |s| >= 2
  {
    64 * Sextet(s[|s| - 2]) + Sextet(s[|s| - 1])
  }

  function Last3(s: string): int
    requires |s| >= 3
  {
    4_096 * Sextet(s[|s| - 3]) + Last2(s)
  }

  function LastTwoBytes(b: Bytes): int
    requires |b| >= 2
  {
    256 * b[|b| - 2] as int + b[|b| - 1] as int
  }

  lemma OneLeft(a: byte)
    ensures |Encode([a])| == 2 && Last2(Encode([a])) == 16 * a as int
  {
    SextetOf(First(a));
    SextetOf(Second(a, 0));
  }

  lemma TwoLeft(a: byte, b: byte)
    ensures |Encode([a, b])| == 3 && Last3(Encode([a, b])) == 4 * LastTwoBytes([a, b])
  {
    SextetOf(First(a));
    SextetOf(Second(a, b));
    SextetOf(Third(b, 0));
    GroupSays(a, b, 0);
  }

  /** A group in front changes neither the last bytes nor the last characters. */
  lemma SameEnds(b: Bytes, c: Bytes, s: string, t: string)
    requires |b| == |c| + 3 && b[3..] == c && |s| == |t| + 4 && s[4..] == t
    ensures |c| >= 1 ==> b[|b| - 1] == c[|c| - 1]
    ensures |c| >= 2 ==> LastTwoBytes(b) == LastTwoBytes(c)
    ensures |t| >= 2 ==> Last2(s) == Last2(t)
    ensures |t| >= 3 ==> Last3(s) == Last3(t)
  {
    assert forall i :: 0 <= i < |c| ==> c[i] == b[i + 3];
    assert forall i :: 0 <= i < |t| ==> t[i] == s[i + 4];
  }

  /** One byte that is left over takes two characters, filled up with zero bits. */
  lemma {:induction false} OneLeftSays(b: Bytes)
    requires |b| % 3 == 1
    ensures |Encode(b)| >= 2 && Last2(Encode(b)) == 16 * b[|b| - 1] as int
    decreases |b|
  {
    if |b| >= 3 {
      var rest := LeftOver(b);
      OneLeftSays(rest);
      SameEnds(b, rest, Encode(b), Encode(rest));
    } else {
      OneLeft(b[0]);
      assert b == [b[0]];
    }
  }

  /** And two take three. */
  lemma {:induction false} TwoLeftSay(b: Bytes)
    requires |b| % 3 == 2
    ensures |Encode(b)| >= 3 && Last3(Encode(b)) == 4 * LastTwoBytes(b)
    decreases |b|
  {
    if |b| >= 3 {
      var rest := LeftOver(b);
      TwoLeftSay(rest);
      SameEnds(b, rest, Encode(b), Encode(rest));
    } else {
      TwoLeft(b[0], b[1]);
      assert b == [b[0], b[1]];
    }
  }

  lemma JoinedSays(a: Digit, b: Digit, c: Digit, d: Digit)
    ensures 65_536 * Join(a, b) as int + 256 * Join'(b, c) as int + Join''(c, d) as int == 262_144 * a + 4_096 * b + 64 * c + d
  {
  }

  lemma DecodedGroup(s: string)
    requires AllInAlphabet(s) && Whole(|s|) && |s| >= 4
    ensures |DecodeGroups(s)| == 3 + |DecodeGroups(s[4..])| && DecodeGroups(s)[3..] == DecodeGroups(s[4..])
    ensures Bytes3(DecodeGroups(s), 0) == Read4(s, 0)
  {
    DecodeUnfold(s);
    JoinedSays(Value(s[0]), Value(s[1]), Value(s[2]), Value(s[3]));
    SextetIsValue(s[0]);
    SextetIsValue(s[1]);
    SextetIsValue(s[2]);
    SextetIsValue(s[3]);
  }

  lemma WholeLess(n: nat)
    requires n >= 4 && Whole(n)
    ensures Whole(n - 4) && (n - 4) % 4 == n % 4 && (n - 4) / 4 == n / 4 - 1
  {
  }

  lemma AlphabetRest(s: string, rest: string)
    requires AllInAlphabet(s) && |s| >= 4 && rest == s[4..]
    ensures AllInAlphabet(rest)
  {
    assert forall i :: 0 <= i < |rest| ==> rest[i] == s[i + 4];
  }

  lemma RestOf(s: string) returns (rest: string)
    requires AllInAlphabet(s) && Whole(|s|) && |s| >= 4
    ensures rest == s[4..] && |s| == |rest| + 4 && AllInAlphabet(rest) && Whole(|rest|)
    ensures |rest| % 4 == |s| % 4 && |rest| / 4 == |s| / 4 - 1
    ensures |DecodeGroups(s)| == |DecodeGroups(rest)| + 3 && DecodeGroups(s)[3..] == DecodeGroups(rest)
    ensures Bytes3(DecodeGroups(s), 0) == Read4(s, 0)
  {
    rest := s[4..];
    WholeLess(|s|);
    AlphabetRest(s, rest);
    DecodedGroup(s);
  }

  lemma {:induction false} DecodedLength(s: string)
    requires AllInAlphabet(s) && Whole(|s|)
    ensures |DecodeGroups(s)| == 3 * (|s| / 4) + if |s| % 4 == 0 then 0 else |s| % 4 - 1
    decreases |s|
  {
    if |s| >= 4 {
      var rest := RestOf(s);
      DecodedLength(rest);
    }
  }

  lemma SameGroup(b: Bytes, c: Bytes, s: string, t: string, k: nat)
    requires |b| == |c| + 3 && b[3..] == c && |s| == |t| + 4 && s[4..] == t && k > 0
    ensures 3 * k <= |c| ==> 3 * k + 3 <= |b| && Bytes3(b, 3 * k) == Bytes3(c, 3 * (k - 1))
    ensures 4 * k <= |t| ==> 4 * k + 4 <= |s| && Read4(s, 4 * k) == Read4(t, 4 * (k - 1))
  {
    assert forall i :: 0 <= i < |c| ==> c[i] == b[i + 3];
    assert forall i :: 0 <= i < |t| ==> t[i] == s[i + 4];
  }

  /** Each four characters, as a number, are the three bytes decoded from them. */
  lemma {:induction false} DecodingSays(s: string, k: nat)
    requires AllInAlphabet(s) && Whole(|s|) && 4 * k + 4 <= |s|
    ensures 3 * k + 3 <= |DecodeGroups(s)| && Bytes3(DecodeGroups(s), 3 * k) == Read4(s, 4 * k)
    decreases k
  {
    var rest := RestOf(s);
    if k > 0 {
      DecodingSays(rest, k - 1);
      SameGroup(DecodeGroups(s), DecodeGroups(rest), s, rest, k);
    }
  }

  lemma TwoDecoded(s: string)
    requires AllInAlphabet(s) && |s| == 2
    ensures |DecodeGroups(s)| == 1 && DecodeGroups(s)[0] as int == Last2(s) / 16
  {
    SextetIsValue(s[0]);
    SextetIsValue(s[1]);
  }

  lemma ThreeDecoded(s: string)
    requires AllInAlphabet(s) && |s| == 3
    ensures |DecodeGroups(s)| == 2 && LastTwoBytes(DecodeGroups(s)) == Last3(s) / 4
  {
    SextetIsValue(s[0]);
    SextetIsValue(s[1]);
    SextetIsValue(s[2]);
  }

  /** Of two characters that are left over, the bits beyond one byte are dropped. */
  lemma {:induction false} TwoTailSays(s: string)
    requires AllInAlphabet(s) && Whole(|s|) && |s| % 4 == 2
    ensures |DecodeGroups(s)| >= 1 && DecodeGroups(s)[|DecodeGroups(s)| - 1] as int == Last2(s) / 16
    decreases |s|
  {
    if |s| >= 4 {
      var rest := RestOf(s);
      TwoTailSays(rest);
      SameEnds(DecodeGroups(s), DecodeGroups(rest), s, rest);
    } else {
      TwoDecoded(s);
    }
  }

  /** And of three those beyond two. */
  lemma {:induction false} ThreeTailSays(s: string)
    requires AllInAlphabet(s) && Whole(|s|) && |s| % 4 == 3
    ensures |DecodeGroups(s)| >= 2 && LastTwoBytes(DecodeGroups(s)) == Last3(s) / 4
    decreases |s|
  {
    if |s| >= 4 {
      var rest := RestOf(s);
      ThreeTailSays(rest);
      SameEnds(DecodeGroups(s), DecodeGroups(rest), s, rest);
    } else {
      ThreeDecoded(s);
    }
  }
}
