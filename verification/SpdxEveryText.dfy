/**
 * The license gate on texts of every kind: which texts are expressions at all, and
 * which of those that are not pass the gate.
 */
module SpdxEveryText {
  import opened Common
  import opened SpdxText
  import opened SpdxGate

  // ----- tokens

  function TokenEnd(t: string): (k: nat)
    ensures k <= |t| && forall i :: 0 <= i < k ==> !Space(t[i])
    ensures k < |t| ==> Space(t[k])
  {
    if t == "" || Space(t[0]) then 0
    else
      var k := TokenEnd(t[1..]);
      assert forall i :: 1 <= i < k + 1 ==> t[i] == t[1..][i - 1];
      k + 1
  }

  /** What stands between white space. */
  function Tokens(s: string): seq<string>
    decreases |s|
  {
    var t := TrimStart(s);
    if t == "" then [] else [t[..TokenEnd(t)]] + Tokens(t[TokenEnd(t)..])
  }

  /** License ids with the operator between them. */
  predicate IsList(tokens: seq<string>, op: Op) {
    && tokens != [] && IsIdString(tokens[0])
    && (|tokens| == 1 || (tokens[1] == OpText(op) && IsList(tokens[2..], op)))
  }

  predicate Spaceless(s: string) {
    s != "" && forall i :: 0 <= i < |s| ==> !Space(s[i])
  }

  lemma TokenEndAt(t: string, k: nat)
    requires k <= |t| && (forall i :: 0 <= i < k ==> !Space(t[i])) && (k < |t| ==> Space(t[k]))
    ensures TokenEnd(t) == k
  {
  }

  lemma {:induction false} TrimStartPadded(pad: string, t: string)
    requires Blank(pad)
    ensures TrimStart(pad + t) == TrimStart(t)
  {
    if pad == "" {
      assert pad + t == t;
    } else {
      assert (pad + t)[1..] == pad[1..] + t;
      TrimStartPadded(pad[1..], t);
    }
  }

  /** White space in front makes no difference. */
  lemma TokensPadded(pad: string, t: string)
    requires Blank(pad)
    ensures Tokens(pad + t) == Tokens(t)
  {
    TrimStartPadded(pad, t);
  }

  lemma TokensStart(t: string)
    requires t != "" && !Space(t[0])
    ensures Tokens(t) == [t[..TokenEnd(t)]] + Tokens(t[TokenEnd(t)..])
  {
  }

  lemma TokensBlank(pad: string)
    requires Blank(pad)
    ensures Tokens(pad) == []
  {
    TokensPadded(pad, "");
    assert pad + "" == pad;
  }

  /** The texts do not share a token. */
  predicate Parted(a: string, b: string) {
    a == "" || b == "" || Space(a[|a| - 1]) || Space(b[0])
  }

  lemma FirstToken(t: string, b: string)
    requires t != "" && !Space(t[0]) && Parted(t, b)
    ensures TokenEnd(t + b) == TokenEnd(t) > 0
    ensures (t + b)[..TokenEnd(t)] == t[..TokenEnd(t)] && (t + b)[TokenEnd(t)..] == t[TokenEnd(t)..] + b
    ensures Parted(t[TokenEnd(t)..], b)
  {
    TokenEndAt(t + b, TokenEnd(t));
  }

  lemma TokenThen(pad: string, t: string, b: string) returns (n: string, rest: string)
    requires Blank(pad) && t != "" && !Space(t[0]) && Parted(t, b)
    ensures Tokens(pad + t) == [n] + Tokens(rest) && Tokens(pad + t + b) == [n] + Tokens(rest + b)
    ensures Parted(rest, b) && |rest| < |t|
  {
    n, rest := t[..TokenEnd(t)], t[TokenEnd(t)..];
    FirstToken(t, b);
    TokensPadded(pad, t);
    TokensStart(t);
    Reassociate(pad, t, b);
    TokensPadded(pad, t + b);
    TokensStart(t + b);
  }

  lemma {:induction false} TokensConcat(a: string, b: string)
    requires Parted(a, b)
    ensures Tokens(a + b) == Tokens(a) + Tokens(b)
    decreases |a|
  {
    var pad := TrimStartPads(a);
    var t := TrimStart(a);
    if t == "" {
      TokensBlank(a);
      TokensPadded(a, b);
    } else {
      var n, rest := TokenThen(pad, t, b);
      TokensConcat(rest, b);
      Reassociate([n], Tokens(rest), Tokens(b));
    }
  }

  lemma OneToken(left: string, n: string, right: string)
    requires Blank(left) && Spaceless(n) && Blank(right)
    ensures Tokens(left + n + right) == [n]
  {
    assert left + n + right == left + (n + right);
    TokensPadded(left, n + right);
    TokenEndAt(n + right, |n|);
    TokensStart(n + right);
    TokensBlank(right);
    assert (n + right)[..|n|] == n && (n + right)[|n|..] == right;
  }

  lemma TokensAround(a: string, w: string, b: string)
    requires Spaceless(w) && a != "" && Space(a[|a| - 1]) && b != "" && Space(b[0])
    ensures Tokens(a + w + b) == Tokens(a) + [w] + Tokens(b)
  {
    OneToken("", w, "");
    assert "" + w + "" == w;
    TokensConcat(a, w);
    TokensConcat(a + w, b);
  }

  lemma {:induction false} ListConcat(a: seq<string>, b: seq<string>, op: Op)
    requires IsList(a, op) && IsList(b, op)
    ensures IsList(a + [OpText(op)] + b, op)
    decreases |a|
  {
    var all := a + [OpText(op)] + b;
    if |a| == 1 {
      assert all[2..] == b;
    } else {
      assert all[2..] == a[2..] + [OpText(op)] + b;
      ListConcat(a[2..], b, op);
    }
  }

  // ----- an expression's tokens

  lemma IdSpaceless(n: string)
    requires IsIdString(n)
    ensures Spaceless(n)
  {
  }

  lemma OpSpaceless(op: Op)
    ensures Spaceless(OpText(op))
  {
  }

  lemma FlatGaps(x: Written, level: nat)
    requires WellWritten(x, level) && Flat(x) && x.Infix?
    ensures Text(x.l) != "" && Space(Text(x.l)[|Text(x.l)| - 1])
    ensures Text(x.r) != "" && Space(Text(x.r)[0])
  {
    FlatChars(x.l, if x.op.AndOp? then 1 else 0);
    FlatChars(x.r, if x.op.AndOp? then 1 else 0);
    assert LicenseChar(Text(x.l)[|Text(x.l)| - 1]) && LicenseChar(Text(x.r)[0]);
  }

  /** The tokens of a flat list with one kind of operator are ids with the operator between them. */
  lemma {:induction false} WrittenIsList(x: Written, level: nat, op: Op)
    requires WellWritten(x, level) && Flat(x) && Only(Text(x), op)
    ensures IsList(Tokens(Text(x)), op)
  {
    match x
    case Single(left, license, right) =>
      OnlyBare(left, license, right, op);
      IdSpaceless(license.name);
      OneToken(left, license.name, right);
    case Infix(l, o, r) =>
      OnlySides(x, level, op);
      FlatGaps(x, level);
      var inner := if op.AndOp? then 1 else 0;
      WrittenIsList(l, inner, op);
      WrittenIsList(r, inner, op);
      OpSpaceless(op);
      TokensAround(Text(l), OpText(op), Text(r));
      ListConcat(Tokens(Text(l)), Tokens(Text(r)), op);
  }

  /** The first token of a text, with the white space before it and what follows it. */
  lemma TakeToken(s: string) returns (pad: string, n: string, rest: string)
    requires Tokens(s) != []
    ensures Blank(pad) && Spaceless(n) && s == pad + n + rest && (rest == "" || Space(rest[0]))
    ensures Tokens(s) == [n] + Tokens(rest) && |rest| < |s|
  {
    pad := TrimStartPads(s);
    var t := TrimStart(s);
    TokensPadded(pad, t);
    if t == "" {
      TokensBlank(t);
    }
    TokensStart(t);
    n, rest := t[..TokenEnd(t)], t[TokenEnd(t)..];
    assert t == n + rest;
    assert pad + (n + rest) == pad + n + rest;
  }

  lemma {:induction false} NoTokensBlank(s: string)
    requires Tokens(s) == []
    ensures Blank(s)
  {
    var pad := TrimStartPads(s);
    assert TrimStart(s) == "";
    assert pad + "" == pad;
  }

  lemma StartOf(gap: string, n: string, rest: string)
    requires n != ""
    ensures (gap + n + rest)[0] == if gap == "" then n[0] else gap[0]
  {
  }

  lemma OpStep(s: string, op: Op) returns (gap: string, rest: string)
    requires |Tokens(s)| > 1 && Tokens(s)[0] == OpText(op) && s != "" && Space(s[0])
    ensures Blank(gap) && gap != "" && s == gap + OpText(op) + rest && rest != "" && Space(rest[0])
    ensures Tokens(rest) == Tokens(s)[1..] && |rest| < |s|
  {
    var n;
    gap, n, rest := TakeToken(s);
    assert n == OpText(op);
    StartOf(gap, n, rest);
    if rest == "" {
      TokensBlank(rest);
    }
  }

  lemma JoinText(pad: string, n: string, gap: string, w: string, rest: string)
    ensures pad + n + (gap + w + rest) == pad + n + gap + w + rest
  {
  }

  /** Such tokens can be written out as an expression. */
  lemma {:induction false} ListIsWritten(s: string, op: Op) returns (x: Written)
    requires IsList(Tokens(s), op)
    ensures WellWritten(x, 0) && (op.AndOp? ==> WellWritten(x, 1)) && Text(x) == s
    decreases |s|
  {
    var pad, n, rest := TakeToken(s);
    if |Tokens(s)| == 1 {
      NoTokensBlank(rest);
      x := Single(pad, Bare(n), rest);
    } else {
      assert Tokens(rest) == Tokens(s)[1..];
      if rest == "" {
        TokensBlank(rest);
      }
      var gap, more := OpStep(rest, op);
      assert Tokens(more) == Tokens(s)[2..];
      var y := ListIsWritten(more, op);
      var l := Single(pad, Bare(n), gap);
      assert Text(l) == pad + n + gap && Text(l)[|Text(l)| - 1] == gap[|gap| - 1];
      JoinText(pad, n, gap, OpText(op), more);
      x := Infix(l, op, y);
    }
  }

  ghost predicate IsExpression(s: string) {
    exists x :: WellWritten(x, 0) && Text(x) == s
  }

  /**
   * A text without parentheses, exceptions and later versions and with one kind of
   * operator is an expression exactly when its tokens are ids with the operator
   * between them.
   */
  lemma ExpressionExactly(t: string, op: Op)
    requires '(' !in t && Only(t, op)
    ensures IsExpression(t) <==> IsList(Tokens(t), op)
  {
    if x :| WellWritten(x, 0) && Text(x) == t {
      FlatText(x);
      WrittenIsList(x, 0, op);
    }
    if IsList(Tokens(t), op) {
      var x := ListIsWritten(t, op);
    }
  }

  // ----- what passes

  lemma AllCons(first: string, rest: seq<string>, allowed: set<string>)
    ensures AllAllowed([first] + rest, allowed) <==> Trim(first) in allowed && AllAllowed(rest, allowed)
  {
    var parts := [first] + rest;
    assert parts[0] == first && parts[1..] == rest;
  }

  lemma AllowedToken(s: string, allowed: set<string>)
    requires SafeNames(allowed) && Trim(s) in allowed
    ensures IsList(Tokens(s), AndOp)
    ensures s != "" && (Word(s[0]) || Space(s[0])) && (Word(s[|s| - 1]) || Space(s[|s| - 1]))
  {
    var left, right := TrimPads(s);
    var n := Trim(s);
    assert SafeName(n);
    IdSpaceless(n);
    OneToken(left, n, right);
    PaddedEnds(left, n, right, s);
  }

  /** A padded name starts and ends with a letter, a digit or white space. */
  lemma PaddedEnds(left: string, n: string, right: string, s: string)
    requires Blank(left) && Blank(right) && SafeName(n) && s == left + n + right
    ensures s != "" && (Word(s[0]) || Space(s[0])) && (Word(s[|s| - 1]) || Space(s[|s| - 1]))
  {
    assert s[0] == if left != "" then left[0] else n[0];
    assert s[|s| - 1] == if right != "" then right[|right| - 1] else n[|n| - 1];
  }

  lemma FirstPartStarts(s: string, allowed: set<string>)
    requires SafeNames(allowed) && AllAllowed(SplitWord(s, "AND"), allowed)
    ensures s != "" && (Word(s[0]) || Space(s[0]))
  {
    var k := FindWord(s, "AND", 0);
    SplitUnfold(s, "AND", k);
    if k < |s| {
      AllCons(s[..k], SplitWord(s[k + 3..], "AND"), allowed);
      AllowedToken(s[..k], allowed);
    } else {
      OnePart(s, allowed);
      AllowedToken(s, allowed);
    }
  }

  lemma BesideAnd(s: string, k: nat)
    requires WordAt(s, "AND", k)
    ensures k > 0 ==> !Word(s[k - 1])
    ensures k + 3 < |s| ==> !Word(s[k + 3])
    ensures s == s[..k] + "AND" + s[k + 3..]
  {
    assert s[k..k + 3][0] == s[k] && s[k..k + 3][2] == s[k + 2];
  }

  lemma AndLists(first: string, rest: string)
    requires first != "" && Space(first[|first| - 1]) && rest != "" && Space(rest[0])
    requires IsList(Tokens(first), AndOp) && IsList(Tokens(rest), AndOp)
    ensures IsList(Tokens(first + "AND" + rest), AndOp)
  {
    TokensAround(first, "AND", rest);
    ListConcat(Tokens(first), Tokens(rest), AndOp);
  }

  /** At a word AND between allowed parts there is white space on either side. */
  lemma AllowedSides(s: string, k: nat, first: string, rest: string, allowed: set<string>)
    requires SafeNames(allowed) && k == FindWord(s, "AND", 0) < |s| && first == s[..k] && rest == s[k + 3..]
    requires AllAllowed(SplitWord(s, "AND"), allowed)
    ensures s == first + "AND" + rest && AllAllowed(SplitWord(rest, "AND"), allowed) && IsList(Tokens(first), AndOp)
    ensures first != "" && Space(first[|first| - 1]) && rest != "" && Space(rest[0])
  {
    SplitUnfold(s, "AND", k);
    AllCons(first, SplitWord(rest, "AND"), allowed);
    AllowedToken(first, allowed);
    FirstPartStarts(rest, allowed);
    BesideAnd(s, k);
  }

  /** A text whose parts between the words AND are all allowed is an AND list. */
  lemma {:induction false} AllAllowedIsList(s: string, allowed: set<string>)
    requires SafeNames(allowed) && AllAllowed(SplitWord(s, "AND"), allowed)
    ensures IsList(Tokens(s), AndOp)
    decreases |s|
  {
    var k := FindWord(s, "AND", 0);
    if k == |s| {
      SplitUnfold(s, "AND", k);
      OnePart(s, allowed);
      AllowedToken(s, allowed);
    } else {
      var first, rest := s[..k], s[k + 3..];
      AllowedSides(s, k, first, rest, allowed);
      AllAllowedIsList(rest, allowed);
      AndLists(first, rest);
    }
  }

  lemma PassesWithoutOr(t: string, allowed: set<string>)
    requires SafeNames(allowed) && EvaluateStripped(t, allowed) == Ok && !HasWord(t, "OR")
    ensures Unmixed(t) && IsList(Tokens(t), AndOp)
  {
    if HasWord(t, "AND") {
      FoundAny(SplitWord(t, "AND"), allowed);
      AllAllowedIsList(t, allowed);
    } else {
      assert SafeName(t);
      TrimmedName(t);
      AllowedToken(t, allowed);
    }
  }

  lemma TrimmedName(n: string)
    requires SafeName(n)
    ensures Trim(n) == n
  {
    TrimmedIsFixed(n);
  }

  lemma PassesWithOr(t: string, allowed: set<string>)
    requires HasWord(t, "OR")
    ensures EvaluateStripped(t, allowed) == Ok <==> Unmixed(t) && AnyAllowed(SplitWord(t, "OR"), allowed)
  {
    FoundAny(SplitWord(t, "OR"), allowed);
  }

  /** The text can be read as an expression that is true with only the allowed licenses. */
  ghost predicate IsTrue(s: string) {
    exists x :: WellWritten(x, 0) && Text(x) == s && True(Meaning(x), ALLOWED)
  }

  /**
   * Without outer parentheses, the text has the word OR and nothing the gate refuses
   * to look into, one part between the words OR is allowed, and its tokens are not
   * license ids with OR between them.
   */
  predicate MalformedOrList(s: string) {
    var t := Strip(s);
    Unmixed(t) && HasWord(t, "OR") && AnyAllowed(SplitWord(t, "OR"), ALLOWED) && !IsList(Tokens(t), OrOp)
  }

  lemma PassingListIsTrue(s: string, op: Op)
    requires Evaluate(s) == Ok && IsList(Tokens(Strip(s)), op)
    ensures IsTrue(s)
  {
    var y := ListIsWritten(Strip(s), op);
    var x := StripAddsNothing(s, y);
    GateExactly(x);
  }

  lemma ExpressionStrips(s: string)
    requires IsExpression(s)
    ensures IsExpression(Strip(s))
  {
    var x :| WellWritten(x, 0) && Text(x) == s;
    var y := StripKeepsMeaning(x);
  }

  /**
   * The gate on every text: what passes is an expression that is true with only the
   * allowed licenses, or else an OR list that is malformed; and what is malformed in
   * this way is not an expression and passes.
   */
  lemma FailsClosedExactly(s: string)
    ensures Evaluate(s) == Ok && !IsTrue(s) <==> MalformedOrList(s)
    ensures MalformedOrList(s) ==> !IsExpression(s)
  {
    var t := Strip(s);
    AllowListSafe();
    if HasWord(t, "OR") {
      PassesWithOr(t, ALLOWED);
      if Unmixed(t) {
        ExpressionExactly(t, OrOp);
        if IsExpression(s) {
          ExpressionStrips(s);
        }
        if Evaluate(s) == Ok && IsList(Tokens(t), OrOp) {
          PassingListIsTrue(s, OrOp);
        }
      }
    } else if Evaluate(s) == Ok {
      PassesWithoutOr(t, ALLOWED);
      PassingListIsTrue(s, AndOp);
    }
  }
}
