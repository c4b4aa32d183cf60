/**
 * The license gate: stripping outer parentheses, the evaluation of an SPDX
 * expression, and what the result says about the expression's meaning
 * (Annex D of the SPDX specification, version 2.3).
 */
module SpdxGate {
  import opened Common
  import opened SpdxText

  const ALLOWED: set<string> :=
    {"MIT", "Apache-2.0", "BSD-2-Clause", "BSD-3-Clause", "ISC", "0BSD", "CC0-1.0", "Unlicense"}

  const DISALLOWED_PREFIXES: seq<string> := ["GPL", "AGPL", "SSPL", "BUSL"]

  // ----- expressions and how they are written

  datatype License = Bare(name: string) | Later(name: string) | Except(license: string, gap: string, gap': string, exception: string)

  datatype Op = AndOp | OrOp

  /** A written expression: licenses and parentheses with the white space around them, and operators. */
  datatype Written =
    | Single(left: string, license: License, right: string)
    | Paren(left: string, inner: Written, right: string)
    | Infix(l: Written, op: Op, r: Written)

  predicate IdChar(c: char) {
    'a' <= c <= 'z' || 'A' <= c <= 'Z' || '0' <= c <= '9' || c == '-' || c == '.' || c == ':'
  }

  predicate IsIdString(s: string) {
    s != "" && s !in ["AND", "OR", "WITH"] && forall i :: 0 <= i < |s| ==> IdChar(s[i])
  }

  function OpText(op: Op): string {
    if op.AndOp? then "AND" else "OR"
  }

  function LicenseText(x: License): string {
    match x
    case Bare(n) => n
    case Later(n) => n + "+"
    case Except(n, gap, gap', e) => n + gap + "WITH" + gap' + e
  }

  function Text(x: Written): string {
    match x
    case Single(left, license, right) => left + LicenseText(license) + right
    case Paren(left, inner, right) => left + ("(" + Text(inner) + ")") + right
    case Infix(l, op, r) => Text(l) + OpText(op) + Text(r)
  }

  predicate IsLicense(x: License) {
    match x
    case Bare(n) => IsIdString(n)
    case Later(n) => IsIdString(n)
    case Except(n, gap, gap', e) =>
      && (IsIdString(n) || (n != "" && n[|n| - 1] == '+' && IsIdString(n[..|n| - 1])))
      && Blank(gap) && gap != "" && Blank(gap') && gap' != "" && IsIdString(e)
  }

  /** What may stand before an operator, and after one: white space or a parenthesis. */
  predicate Closes(s: string) {
    s != "" && (Space(s[|s| - 1]) || s[|s| - 1] == ')')
  }

  predicate Opens(s: string) {
    s != "" && (Space(s[0]) || s[0] == '(')
  }

  /** AND binds more tightly than OR: an OR list inside an AND list is in parentheses. */
  predicate WellWritten(x: Written, level: nat) {
    match x
    case Single(left, license, right) => Blank(left) && Blank(right) && IsLicense(license)
    case Paren(left, inner, right) => Blank(left) && Blank(right) && WellWritten(inner, 0)
    case Infix(l, op, r) =>
      && Closes(Text(l)) && Opens(Text(r))
      && if op.AndOp? then level <= 1 && WellWritten(l, 1) && WellWritten(r, 1)
         else level == 0 && WellWritten(l, 0) && WellWritten(r, 0)
  }

  /** The licenses and operators without white space and parentheses: what a stripped expression must keep. */
  datatype Expr = Leaf(license: License) | Node(l: Expr, op: Op, r: Expr)

  function Meaning(x: Written): Expr {
    match x
    case Single(_, license, _) => Leaf(license)
    case Paren(_, inner, _) => Meaning(inner)
    case Infix(l, op, r) => Node(Meaning(l), op, Meaning(r))
  }

  /** The meaning, when nothing but a bare allowed license counts as true. */
  predicate True(e: Expr, allowed: set<string>) {
    match e
    case Leaf(license) => license.Bare? && license.name in allowed
    case Node(l, op, r) => if op.AndOp? then True(l, allowed) && True(r, allowed) else True(l, allowed) || True(r, allowed)
  }

  // ----- stripping parentheses

  function Inner(t: string): string
    requires |t| >= 2
  {
    t[1..|t| - 1]
  }

  predicate Wrapped(t: string) {
    |t| >= 2 && t[0] == '(' && t[|t| - 1] == ')' && Balanced(Inner(t))
  }

  function Strip(s: string): (t: string)
    decreases |s|
  {
    var t := Trim(s);
    if Wrapped(t) then Strip(Inner(t)) else t
  }

  method ScanParens(inner: string) returns (ok: bool)
    ensures ok == Balanced(inner)
  {
    var depth := 0;
    for i := 0 to |inner|
      invariant depth == Depth(inner[..i]) && NeverNegative(inner[..i])
    {
      assert inner[..i + 1][..i] == inner[..i];
      var c := inner[i];
      if c == '(' {
        depth := depth + 1;
      } else if c == ')' {
        depth := depth - 1;
        if depth < 0 {
          assert Depth(inner[..i + 1]) < 0;
          if NeverNegative(inner) {
            PrefixNeverNegative(inner, i + 1);
          }
          return false;
        }
      }
    }
    assert inner[..|inner|] == inner;
    ok := depth == 0;
  }

  method StripBalancedOuterParens(expr: string) returns (e: string)
    ensures e == Strip(expr)
  {
    e := Trim(expr);
    while |e| >= 2 && e[0] == '(' && e[|e| - 1] == ')'
      invariant exists s :: e == Trim(s) && Strip(s) == Strip(expr)
      decreases |e|
    {
      var inner := e[1..|e| - 1];
      var balanced := ScanParens(inner);
      if !balanced {
        break;
      }
      e := Trim(inner);
    }
  }

  // ----- the gate

  datatype Refusal =
    | HasWith
    | HasPlus
    | Nested
    | Mixed
    | OrDisallowed(part: string)
    | OrNoneAllowed
    | AndDisallowed(part: string)
    | AndNotAllowed(part: string)
    | Disallowed
    | NotAllowed

  datatype Verdict = Ok | Refused(why: Refusal)

  predicate IsDisallowedSimple(license: string) {
    exists i :: 0 <= i < |DISALLOWED_PREFIXES| && (license == DISALLOWED_PREFIXES[i] || DISALLOWED_PREFIXES[i] + "-" <= license)
  }

  function TrimAll(parts: seq<string>): seq<string> {
    seq(|parts|, i requires 0 <= i < |parts| => Trim(parts[i]))
  }

  /** `parts.find(test)`, as an index. */
  function FindPart(parts: seq<string>, test: string -> bool): (i: nat)
    ensures i <= |parts|
    ensures i < |parts| ==> test(parts[i])
    ensures forall j :: 0 <= j < i ==> !test(parts[j])
  {
    if parts == [] then 0
    else if test(parts[0]) then 0
    else
      var rest := FindPart(parts[1..], test);
      assert forall j :: 1 <= j < rest + 1 ==> parts[j] == parts[1..][j - 1];
      rest + 1
  }

  function EvaluateOr(parts: seq<string>, allowed: set<string>): Verdict {
    if FindPart(parts, p => p in allowed) < |parts| then Ok
    else
      var i := FindPart(parts, p => IsDisallowedSimple(p));
      Refused(if i < |parts| then OrDisallowed(parts[i]) else OrNoneAllowed)
  }

  function EvaluateAnd(parts: seq<string>, allowed: set<string>): Verdict {
    var i := FindPart(parts, p => p !in allowed);
    if i == |parts| then Ok
    else Refused(if IsDisallowedSimple(parts[i]) then AndDisallowed(parts[i]) else AndNotAllowed(parts[i]))
  }

  function EvaluateSimple(expr: string, allowed: set<string>): Verdict {
    if expr in allowed then Ok else Refused(if IsDisallowedSimple(expr) then Disallowed else NotAllowed)
  }

  function EvaluateStripped(expr: string, allowed: set<string>): Verdict {
    if HasWord(expr, "WITH") then Refused(HasWith)
    else if '+' in expr then Refused(HasPlus)
    else if '(' in expr then Refused(Nested)
    else
      var hasOr, hasAnd := HasWord(expr, "OR"), HasWord(expr, "AND");
      if hasOr && hasAnd then Refused(Mixed)
      else if hasOr then EvaluateOr(TrimAll(SplitWord(expr, "OR")), allowed)
      else if hasAnd then EvaluateAnd(TrimAll(SplitWord(expr, "AND")), allowed)
      else EvaluateSimple(expr, allowed)
  }

  /** The gate, with its allow list. */
  function Evaluate(rawExpr: string): Verdict {
    EvaluateStripped(Strip(rawExpr), ALLOWED)
  }

  // ----- written expressions are balanced

  predicate LicenseChar(c: char) {
    IdChar(c) || c == '+' || Space(c)
  }

  predicate LicenseChars(s: string) {
    forall i :: 0 <= i < |s| ==> LicenseChar(s[i])
  }

  lemma CharsConcat(a: string, b: string)
    requires LicenseChars(a) && LicenseChars(b)
    ensures LicenseChars(a + b)
  {
  }

  lemma LicenseTextChars(x: License)
    requires IsLicense(x)
    ensures LicenseChars(LicenseText(x))
  {
    match x
    case Bare(n) =>
    case Later(n) => CharsConcat(n, "+");
    case Except(n, gap, gap', e) =>
      CharsConcat(n, gap);
      CharsConcat(n + gap, "WITH");
      CharsConcat(n + gap + "WITH", gap');
      CharsConcat(n + gap + "WITH" + gap', e);
  }

  lemma CharsBalanced(s: string)
    requires LicenseChars(s)
    ensures Plain(s) && Balanced(s)
  {
    PlainBalanced(s);
  }

  lemma BlankBalanced(s: string)
    requires Blank(s)
    ensures Plain(s) && Balanced(s)
  {
    PlainBalanced(s);
  }

  lemma BalancedAround(a: string, w: string, b: string)
    requires Balanced(a) && Balanced(w) && Balanced(b)
    ensures Balanced(a + w + b)
  {
    BalancedConcat(a, w);
    BalancedConcat(a + w, b);
  }

  lemma {:induction false} TextBalanced(x: Written, level: nat)
    requires WellWritten(x, level)
    ensures Balanced(Text(x))
  {
    match x
    case Single(left, license, right) =>
      BlankBalanced(left);
      BlankBalanced(right);
      LicenseTextChars(license);
      CharsBalanced(LicenseText(license));
      BalancedAround(left, LicenseText(license), right);
    case Paren(left, inner, right) =>
      BlankBalanced(left);
      BlankBalanced(right);
      TextBalanced(inner, 0);
      BalancedWrap(Text(inner));
      BalancedAround(left, "(" + Text(inner) + ")", right);
    case Infix(l, op, r) =>
      TextBalanced(l, if op.AndOp? then 1 else 0);
      TextBalanced(r, if op.AndOp? then 1 else 0);
      CharsBalanced(OpText(op));
      BalancedAround(Text(l), OpText(op), Text(r));
  }

  // ----- trimming a written expression

  function TrimLeft(x: Written): Written {
    match x
    case Single(_, license, right) => Single("", license, right)
    case Paren(_, inner, right) => Paren("", inner, right)
    case Infix(l, op, r) => Infix(TrimLeft(l), op, r)
  }

  function TrimRight(x: Written): Written {
    match x
    case Single(left, license, _) => Single(left, license, "")
    case Paren(left, inner, _) => Paren(left, inner, "")
    case Infix(l, op, r) => Infix(l, op, TrimRight(r))
  }

  lemma LicenseEnds(x: License)
    requires IsLicense(x)
    ensures Trimmed(LicenseText(x)) && LicenseText(x) != ""
  {
    var t := LicenseText(x);
    match x
    case Bare(n) =>
    case Later(n) => assert t[0] == n[0];
    case Except(n, gap, gap', e) => assert t[0] == n[0] && t[|t| - 1] == e[|e| - 1];
  }

  lemma PadFront(pad: string, t: string, more: string)
    requires t != ""
    ensures pad + t + more == pad + (t + more) && (t + more)[0] == t[0]
    ensures (t + more)[|t + more| - 1] == if more == "" then t[|t| - 1] else more[|more| - 1]
  {
  }

  lemma {:induction false} TrimLeftText(x: Written, level: nat) returns (pad: string)
    requires WellWritten(x, level)
    ensures Blank(pad) && Text(x) == pad + Text(TrimLeft(x))
    ensures Text(TrimLeft(x)) != "" && !Space(Text(TrimLeft(x))[0])
    ensures Text(x)[|Text(x)| - 1] == Text(TrimLeft(x))[|Text(TrimLeft(x))| - 1]
  {
    match x
    case Single(left, license, right) =>
      LicenseEnds(license);
      pad := left;
      PadFront(left, LicenseText(license), right);
      assert "" + LicenseText(license) == LicenseText(license);
    case Paren(left, inner, right) =>
      pad := left;
      var t := "(" + Text(inner) + ")";
      PadFront(left, t, right);
      assert "" + t == t;
    case Infix(l, op, r) =>
      pad := TrimLeftText(l, if op.AndOp? then 1 else 0);
      var t := Text(TrimLeft(l));
      PadFront(pad, t, OpText(op));
      PadFront(pad, t + OpText(op), Text(r));
  }

  lemma {:induction false} TrimLeftWell(x: Written, level: nat)
    requires WellWritten(x, level)
    ensures WellWritten(TrimLeft(x), level) && Meaning(TrimLeft(x)) == Meaning(x)
  {
    if x.Infix? {
      var inner := if x.op.AndOp? then 1 else 0;
      TrimLeftWell(x.l, inner);
      var pad := TrimLeftText(x.l, inner);
    }
  }

  lemma PadBack(front: string, t: string, pad: string)
    requires t != ""
    ensures front + (t + pad) == front + t + pad && (front + t)[|front + t| - 1] == t[|t| - 1]
    ensures (front + t)[0] == if front == "" then t[0] else front[0]
  {
  }

  lemma {:induction false} TrimRightText(x: Written, level: nat) returns (pad: string)
    requires WellWritten(x, level)
    ensures Blank(pad) && Text(x) == Text(TrimRight(x)) + pad
    ensures Text(TrimRight(x)) != "" && !Space(Text(TrimRight(x))[|Text(TrimRight(x))| - 1])
    ensures Text(x)[0] == Text(TrimRight(x))[0]
  {
    match x
    case Single(left, license, right) =>
      LicenseEnds(license);
      pad := right;
      PadBack(left, LicenseText(license), right);
      assert left + LicenseText(license) + "" == left + LicenseText(license);
    case Paren(left, inner, right) =>
      pad := right;
      var t := "(" + Text(inner) + ")";
      PadBack(left, t, right);
      assert left + t + "" == left + t;
    case Infix(l, op, r) =>
      pad := TrimRightText(r, if op.AndOp? then 1 else 0);
      PadBack(Text(l) + OpText(op), Text(TrimRight(r)), pad);
  }

  lemma {:induction false} TrimRightWell(x: Written, level: nat)
    requires WellWritten(x, level)
    ensures WellWritten(TrimRight(x), level) && Meaning(TrimRight(x)) == Meaning(x)
  {
    if x.Infix? {
      var inner := if x.op.AndOp? then 1 else 0;
      TrimRightWell(x.r, inner);
      var pad := TrimRightText(x.r, inner);
    }
  }

  function TrimTree(x: Written): Written {
    TrimRight(TrimLeft(x))
  }

  lemma TrimTreeText(x: Written)
    requires WellWritten(x, 0)
    ensures Text(TrimTree(x)) == Trim(Text(x)) && Trimmed(Text(TrimTree(x)))
    ensures WellWritten(TrimTree(x), 0) && Meaning(TrimTree(x)) == Meaning(x)
  {
    var left := TrimLeftText(x, 0);
    TrimLeftWell(x, 0);
    var right := TrimRightText(TrimLeft(x), 0);
    TrimRightWell(TrimLeft(x), 0);
    var t := Text(TrimTree(x));
    assert left + (t + right) == left + t + right;
    TrimOf(left, t, right);
  }

  // ----- stripping keeps the meaning

  lemma DepthInside(a: string)
    requires Balanced(a) && a != "" && a[0] == '('
    ensures Depth(a[1..]) == -1
  {
    assert a == "(" + a[1..];
    DepthConcat("(", a[1..]);
    assert "("[..0] == "";
  }

  /** A balanced text that opens a parenthesis and is cut short does not close it. */
  lemma CutShortNotWrapped(a: string, rest: string)
    requires Balanced(a) && a != "" && a[0] == '(' && rest != ""
    ensures !Wrapped(a + rest)
  {
    var t, k := a + rest, |a| - 1;
    DepthInside(a);
    if |t| >= 2 {
      assert Inner(t)[..k] == a[1..];
      if NeverNegative(Inner(t)) {
        PrefixNeverNegative(Inner(t), k);
      }
    }
  }

  lemma SingleNotWrapped(x: License)
    requires IsLicense(x)
    ensures !Wrapped(LicenseText(x))
  {
    LicenseTextChars(x);
    LicenseEnds(x);
    assert LicenseChar(LicenseText(x)[0]);
  }

  lemma FirstOfInfix(a: string, w: string, b: string)
    requires a != ""
    ensures (a + w + b)[0] == a[0] && a + w + b == a + (w + b)
  {
  }

  /**
   * Stripping gives another way to write the same expression: no well-written
   * expression is torn apart by it.
   */
  lemma {:induction false} StripKeepsMeaning(x: Written) returns (y: Written)
    requires WellWritten(x, 0)
    ensures WellWritten(y, 0) && Text(y) == Strip(Text(x)) && Meaning(y) == Meaning(x)
    decreases |Text(x)|
  {
    y := TrimTree(x);
    TrimTreeText(x);
    match y
    case Single(left, license, right) =>
      assert left == "" && right == "";
      assert Text(y) == LicenseText(license);
      SingleNotWrapped(license);
    case Paren(left, inner, right) =>
      assert left == "" && right == "";
      var t := "(" + Text(inner) + ")";
      assert Text(y) == t && Inner(t) == Text(inner);
      TextBalanced(inner, 0);
      y := StripKeepsMeaning(inner);
    case Infix(l, op, r) =>
      TextBalanced(l, if op.AndOp? then 1 else 0);
      FirstOfInfix(Text(l), OpText(op), Text(r));
      if Text(l)[0] == '(' {
        CutShortNotWrapped(Text(l), OpText(op) + Text(r));
      }
  }

  function PadTree(x: Written, left: string, right: string): Written {
    PadLeft(PadRight(x, right), left)
  }

  function PadLeft(x: Written, pad: string): Written {
    match x
    case Single(left, license, right) => Single(pad + left, license, right)
    case Paren(left, inner, right) => Paren(pad + left, inner, right)
    case Infix(l, op, r) => Infix(PadLeft(l, pad), op, r)
  }

  function PadRight(x: Written, pad: string): Written {
    match x
    case Single(left, license, right) => Single(left, license, right + pad)
    case Paren(left, inner, right) => Paren(left, inner, right + pad)
    case Infix(l, op, r) => Infix(l, op, PadRight(r, pad))
  }

  lemma Regroup(a: string, b: string, c: string, d: string)
    ensures a + b + c + d == a + (b + c + d)
  {
  }

  lemma {:induction false} PadLeftText(x: Written, level: nat, pad: string)
    requires WellWritten(x, level)
    ensures Text(PadLeft(x, pad)) == pad + Text(x)
  {
    match x
    case Single(left, license, right) =>
      Regroup(pad, left, LicenseText(license), right);
    case Paren(left, inner, right) =>
      Regroup(pad, left, "(" + Text(inner) + ")", right);
    case Infix(l, op, r) =>
      PadLeftText(l, if op.AndOp? then 1 else 0, pad);
      Regroup(pad, Text(l), OpText(op), Text(r));
  }

  lemma {:induction false} PadLeftWell(x: Written, level: nat, pad: string)
    requires WellWritten(x, level) && Blank(pad)
    ensures WellWritten(PadLeft(x, pad), level) && Meaning(PadLeft(x, pad)) == Meaning(x)
  {
    if x.Infix? {
      var inner := if x.op.AndOp? then 1 else 0;
      PadLeftWell(x.l, inner, pad);
      PadLeftText(x.l, inner, pad);
      assert (pad + Text(x.l))[|pad + Text(x.l)| - 1] == Text(x.l)[|Text(x.l)| - 1];
    }
  }

  lemma {:induction false} PadRightText(x: Written, level: nat, pad: string)
    requires WellWritten(x, level)
    ensures Text(PadRight(x, pad)) == Text(x) + pad
  {
    match x
    case Single(left, license, right) =>
      assert left + LicenseText(license) + (right + pad) == left + LicenseText(license) + right + pad;
    case Paren(left, inner, right) =>
      var t := "(" + Text(inner) + ")";
      assert left + t + (right + pad) == left + t + right + pad;
    case Infix(l, op, r) =>
      PadRightText(r, if op.AndOp? then 1 else 0, pad);
      assert Text(l) + OpText(op) + (Text(r) + pad) == Text(l) + OpText(op) + Text(r) + pad;
  }

  lemma {:induction false} PadRightWell(x: Written, level: nat, pad: string)
    requires WellWritten(x, level) && Blank(pad)
    ensures WellWritten(PadRight(x, pad), level) && Meaning(PadRight(x, pad)) == Meaning(x)
  {
    if x.Infix? {
      var inner := if x.op.AndOp? then 1 else 0;
      PadRightWell(x.r, inner, pad);
      PadRightText(x.r, inner, pad);
      assert (Text(x.r) + pad)[0] == Text(x.r)[0];
    }
  }

  lemma PadTreeText(y: Written, left: string, right: string)
    requires WellWritten(y, 0) && Blank(left) && Blank(right)
    ensures Text(PadTree(y, left, right)) == left + Text(y) + right
    ensures WellWritten(PadTree(y, left, right), 0) && Meaning(PadTree(y, left, right)) == Meaning(y)
  {
    PadRightText(y, 0, right);
    PadRightWell(y, 0, right);
    PadLeftText(PadRight(y, right), 0, left);
    PadLeftWell(PadRight(y, right), 0, left);
    assert left + (Text(y) + right) == left + Text(y) + right;
  }

  lemma WrapText(t: string)
    requires |t| >= 2 && t[0] == '(' && t[|t| - 1] == ')'
    ensures t == "(" + Inner(t) + ")"
  {
  }

  /** Stripping makes nothing well written that was not: what it gives can be put back. */
  lemma {:induction false} StripAddsNothing(s: string, y: Written) returns (x: Written)
    requires WellWritten(y, 0) && Text(y) == Strip(s)
    ensures WellWritten(x, 0) && Text(x) == s && Meaning(x) == Meaning(y)
    decreases |s|
  {
    var left, right := TrimPads(s);
    var t := Trim(s);
    if Wrapped(t) {
      var inner := StripAddsNothing(Inner(t), y);
      x := WrapBack(left, t, right, inner);
    } else {
      PadTreeText(y, left, right);
      x := PadTree(y, left, right);
    }
  }

  lemma WrapBack(left: string, t: string, right: string, inner: Written) returns (x: Written)
    requires Wrapped(t) && Text(inner) == Inner(t) && WellWritten(inner, 0) && Blank(left) && Blank(right)
    ensures WellWritten(x, 0) && Text(x) == left + t + right && Meaning(x) == Meaning(inner)
  {
    WrapText(t);
    x := Paren(left, inner, right);
  }

  // ----- splitting a list at its operator

  predicate Flat(x: Written) {
    match x
    case Single(_, _, _) => true
    case Paren(_, _, _) => false
    case Infix(l, _, r) => Flat(l) && Flat(r)
  }

  lemma OpensParen(left: string, inner: string, right: string)
    ensures '(' in left + ("(" + inner + ")") + right
  {
    assert (left + ("(" + inner + ")") + right)[|left|] == '(';
  }

  lemma {:induction false} FlatText(x: Written)
    requires '(' !in Text(x)
    ensures Flat(x)
  {
    match x
    case Single(_, _, _) =>
    case Paren(left, inner, right) =>
      OpensParen(left, Text(inner), right);
    case Infix(l, op, r) =>
      assert forall c :: c in Text(l) ==> c in Text(x);
      assert forall c :: c in Text(r) ==> c in Text(x);
      FlatText(l);
      FlatText(r);
  }

  lemma {:induction false} FlatChars(x: Written, level: nat)
    requires WellWritten(x, level) && Flat(x)
    ensures LicenseChars(Text(x))
  {
    match x
    case Single(left, license, right) =>
      LicenseTextChars(license);
      CharsConcat(left, LicenseText(license));
      CharsConcat(left + LicenseText(license), right);
    case Infix(l, op, r) =>
      FlatChars(l, if op.AndOp? then 1 else 0);
      FlatChars(r, if op.AndOp? then 1 else 0);
      CharsConcat(Text(l), OpText(op));
      CharsConcat(Text(l) + OpText(op), Text(r));
  }

  /** In a flat list an operator has white space on either side. */
  lemma FlatSides(x: Written, level: nat)
    requires WellWritten(x, level) && Flat(x) && x.Infix?
    ensures EndsOutside(Text(x.l)) && StartsOutside(Text(x.r)) && IsWord(OpText(x.op))
  {
    FlatChars(x.l, if x.op.AndOp? then 1 else 0);
    FlatChars(x.r, if x.op.AndOp? then 1 else 0);
    assert LicenseChar(Text(x.l)[|Text(x.l)| - 1]) && LicenseChar(Text(x.r)[0]);
  }

  // ----- a single license

  /** Begins and ends with a character of a word, and lacks a letter of each operator. */
  predicate SafeName(n: string) {
    IsIdString(n) && 'R' !in n && 'N' !in n && 'H' !in n && Word(n[0]) && Word(n[|n| - 1])
  }

  predicate SafeNames(allowed: set<string>) {
    forall n :: n in allowed ==> SafeName(n)
  }

  lemma WordLetter(s: string, w: string)
    requires HasWord(s, w)
    ensures forall c :: c in w ==> c in s
  {
    var k :| 0 <= k <= |s| && WordAt(s, w, k);
    forall c | c in w ensures c in s {
      var i :| 0 <= i < |w| && w[i] == c;
      assert s[k..k + |w|][i] == s[k + i];
    }
  }

  lemma LacksLetter(s: string, w: string, c: char)
    requires c in w && c !in s
    ensures !HasWord(s, w)
  {
    if HasWord(s, w) {
      WordLetter(s, w);
    }
  }

  predicate Keyword(w: string) {
    w in ["AND", "OR", "WITH"]
  }

  lemma KeywordIsWord(w: string)
    requires Keyword(w)
    ensures IsWord(w) && ('R' in w || 'N' in w || 'H' in w)
  {
    assert "OR"[1] == 'R' && "AND"[1] == 'N' && "WITH"[3] == 'H';
  }

  lemma AllowedHasNoKeyword(n: string, w: string, allowed: set<string>)
    requires SafeNames(allowed) && n in allowed && Keyword(w)
    ensures !HasWord(n, w)
  {
    assert SafeName(n);
    KeywordIsWord(w);
    if HasWord(n, w) {
      WordLetter(n, w);
    }
  }

  predicate AnyAllowed(parts: seq<string>, allowed: set<string>) {
    parts != [] && (Trim(parts[0]) in allowed || AnyAllowed(parts[1..], allowed))
  }

  predicate AllAllowed(parts: seq<string>, allowed: set<string>) {
    parts == [] || (Trim(parts[0]) in allowed && AllAllowed(parts[1..], allowed))
  }

  predicate IdChars(s: string) {
    forall i :: 0 <= i < |s| ==> IdChar(s[i])
  }

  lemma IdCharsTrim(left: string, n: string, right: string)
    requires Blank(left) && IdChars(n) && Blank(right)
    ensures Trim(left + n + right) == n
  {
    TrimOf(left, n, right);
  }

  lemma PadSpaces(left: string, n: string, right: string)
    requires Blank(left) && Blank(right)
    ensures forall j :: 0 <= j < |left + n + right| && !(|left| <= j < |left| + |n|) ==> Space((left + n + right)[j])
    ensures forall j :: 0 <= j < |n| ==> (left + n + right)[|left| + j] == n[j]
  {
  }

  /** A word inside padded id characters is inside the id characters. */
  lemma WordInPadded(left: string, n: string, right: string, w: string, k: nat)
    requires Blank(left) && IdChars(n) && Blank(right) && IsWord(w)
    requires WordAt(left + n + right, w, k)
    ensures |left| <= k && k + |w| <= |left| + |n|
    ensures n[k - |left|..k - |left| + |w|] == w
  {
    var s := left + n + right;
    PadSpaces(left, n, right);
    assert s[k..k + |w|][0] == s[k] && s[k..k + |w|][|w| - 1] == s[k + |w| - 1];
    assert Word(s[k]) && Word(s[k + |w| - 1]);
    assert n[k - |left|..k - |left| + |w|] == s[k..k + |w|];
  }

  /** Where such a word is cut out, no character of a word is next to the cut. */
  lemma CutPadded(left: string, n: string, right: string, w: string, k: nat)
    requires Blank(left) && IdChars(n) && Blank(right) && IsWord(w)
    requires WordAt(left + n + right, w, k)
    ensures |left| <= k && k + |w| <= |left| + |n|
    ensures
      var s, m := left + n + right, k - |left|;
      && s[..k] == left + n[..m] && s[k + |w|..] == n[m + |w|..] + right
      && (m > 0 ==> !Word(n[m - 1])) && (m + |w| < |n| ==> !Word(n[m + |w|]))
  {
    var s, m := left + n + right, k - |left|;
    WordInPadded(left, n, right, w, k);
    PadSpaces(left, n, right);
    assert s[k..k + |w|][0] == s[k] && s[k..k + |w|][|w| - 1] == s[k + |w| - 1];
    assert m > 0 ==> s[k - 1] == n[m - 1];
    assert m + |w| < |n| ==> s[k + |w|] == n[m + |w|];
  }

  lemma PaddedWord(left: string, n: string, right: string, w: string)
    requires Blank(left) && IdChars(n) && Blank(right) && IsWord(w)
    ensures HasWord(left + n + right, w) ==> HasWord(n, w)
  {
    var s := left + n + right;
    if HasWord(s, w) {
      var k :| 0 <= k <= |s| && WordAt(s, w, k);
      WordInPadded(left, n, right, w, k);
      CutPadded(left, n, right, w, k);
      assert WordAt(n, w, k - |left|);
    }
  }

  lemma OnePart(s: string, allowed: set<string>)
    ensures AnyAllowed([s], allowed) <==> Trim(s) in allowed
    ensures AllAllowed([s], allowed) <==> Trim(s) in allowed
  {
    var parts := [s];
    assert parts[0] == s;
    assert parts[1..] == [];
  }

  lemma AnyCons(first: string, rest: seq<string>, allowed: set<string>)
    ensures AnyAllowed([first] + rest, allowed) <==> Trim(first) in allowed || AnyAllowed(rest, allowed)
  {
    var parts := [first] + rest;
    assert parts[0] == first;
    assert parts[1..] == rest;
  }

  /** When the first part is not allowed and no later part is, none is. */
  lemma NoneOfSplit(s: string, w: string, k: nat, first: string, rest: string, allowed: set<string>)
    requires w != "" && k == FindWord(s, w, 0) < |s| && s[..k] == first && s[k + |w|..] == rest
    requires Trim(first) !in allowed && !AnyAllowed(SplitWord(rest, w), allowed)
    ensures !AnyAllowed(SplitWord(s, w), allowed)
  {
    SplitUnfold(s, w, k);
    AnyCons(first, SplitWord(rest, w), allowed);
  }

  lemma WholeNotAllowed(s: string, w: string, allowed: set<string>)
    requires w != "" && FindWord(s, w, 0) == |s| && Trim(s) !in allowed
    ensures !AnyAllowed(SplitWord(s, w), allowed)
  {
    SplitUnfold(s, w, |s|);
    OnePart(s, allowed);
  }

  lemma PartNotAllowed(left: string, n: string, right: string, allowed: set<string>)
    requires SafeNames(allowed) && Blank(left) && IdChars(n) && Blank(right) && (n == "" || !Word(n[0]) || !Word(n[|n| - 1]))
    ensures Trim(left + n + right) !in allowed
  {
    IdCharsTrim(left, n, right);
    assert n in allowed ==> SafeName(n);
  }

  /** Padded id characters with a word in them, before and after the word. */
  lemma TearAt(s: string, left: string, n: string, right: string, w: string) returns (k: nat, first: string, rest: string)
    requires s == left + n + right && Blank(left) && IdChars(n) && Blank(right) && IsWord(w)
    requires FindWord(s, w, 0) < |s|
    ensures k == FindWord(s, w, 0) < |s| && s[..k] == left + first && s[k + |w|..] == rest + right
    ensures first == "" || first[0] == n[0]
    ensures IdChars(first) && (first == "" || !Word(first[|first| - 1]))
    ensures IdChars(rest) && (rest == "" || !Word(rest[0])) && |rest| < |n|
  {
    k := FindWord(s, w, 0);
    CutPadded(left, n, right, w, k);
    var m := k - |left|;
    first, rest := n[..m], n[m + |w|..];
    PieceOfId(n, 0, m);
    PieceOfId(n, m + |w|, |n|);
  }

  lemma PieceOfId(n: string, a: nat, b: nat)
    requires IdChars(n) && a <= b <= |n|
    ensures IdChars(n[a..b]) && |n[a..b]| == b - a
    ensures a < b ==> n[a..b][0] == n[a] && n[a..b][b - a - 1] == n[b - 1]
  {
  }

  lemma NoPad(n: string, right: string)
    ensures "" + n == n && "" + n + right == n + right
  {
  }

  /** What follows a word inside an id: every part of it begins with a character that is not a word's, or is empty. */
  lemma {:induction false} TailNotAllowed(n: string, right: string, w: string, allowed: set<string>)
    requires SafeNames(allowed) && IdChars(n) && Blank(right) && IsWord(w) && (n == "" || !Word(n[0]))
    ensures !AnyAllowed(SplitWord(n + right, w), allowed)
    decreases |n|
  {
    var s := n + right;
    NoPad(n, right);
    if FindWord(s, w, 0) == |s| {
      PartNotAllowed("", n, right, allowed);
      WholeNotAllowed(s, w, allowed);
    } else {
      var k, first, rest := TearAt(s, "", n, right, w);
      FirstPart("", first, allowed);
      TailNotAllowed(rest, right, w, allowed);
      NoneOfSplit(s, w, k, "" + first, rest + right, allowed);
    }
  }

  lemma FirstPart(left: string, n: string, allowed: set<string>)
    requires SafeNames(allowed) && Blank(left) && IdChars(n) && (n == "" || !Word(n[0]) || !Word(n[|n| - 1]))
    ensures Trim(left + n) !in allowed
  {
    PartNotAllowed(left, n, "", allowed);
    assert left + n + "" == left + n;
  }

  /** An id that contains the word falls apart into parts none of which is allowed. */
  lemma LeafTorn(left: string, n: string, right: string, w: string, allowed: set<string>)
    requires SafeNames(allowed) && Blank(left) && IdChars(n) && Blank(right) && IsWord(w)
    requires FindWord(left + n + right, w, 0) < |left + n + right|
    ensures !AnyAllowed(SplitWord(left + n + right, w), allowed)
  {
    var k, first, rest := TearAt(left + n + right, left, n, right, w);
    FirstPart(left, first, allowed);
    TailNotAllowed(rest, right, w, allowed);
    NoneOfSplit(left + n + right, w, k, left + first, rest + right, allowed);
  }

  lemma TornNotAllowed(left: string, n: string, right: string, w: string, allowed: set<string>)
    requires SafeNames(allowed) && Blank(left) && IdChars(n) && Blank(right) && Keyword(w)
    requires HasWord(left + n + right, w)
    ensures n !in allowed
  {
    KeywordIsWord(w);
    PaddedWord(left, n, right, w);
    if n in allowed {
      AllowedHasNoKeyword(n, w, allowed);
    }
  }

  predicate Passes(parts: seq<string>, op: Op, allowed: set<string>) {
    if op.AndOp? then AllAllowed(parts, allowed) else AnyAllowed(parts, allowed)
  }

  lemma WordFound(s: string, w: string)
    requires w != "" && HasWord(s, w)
    ensures FindWord(s, w, 0) < |s|
  {
  }

  lemma LeafPasses(left: string, n: string, right: string, op: Op, allowed: set<string>)
    requires SafeNames(allowed) && Blank(left) && IdChars(n) && Blank(right)
    ensures Passes(SplitWord(left + n + right, OpText(op)), op, allowed) <==> n in allowed
  {
    var s, w := left + n + right, OpText(op);
    KeywordIsWord(w);
    if HasWord(s, w) {
      WordFound(s, w);
      LeafTorn(left, n, right, w, allowed);
      TornNotAllowed(left, n, right, w, allowed);
    } else {
      NoWordNoSplit(s, w);
      IdCharsTrim(left, n, right);
      OnePart(s, allowed);
    }
  }

  lemma {:induction false} PassesConcat(a: seq<string>, b: seq<string>, op: Op, allowed: set<string>)
    ensures Passes(a + b, op, allowed) <==>
              if op.AndOp? then Passes(a, op, allowed) && Passes(b, op, allowed) else Passes(a, op, allowed) || Passes(b, op, allowed)
  {
    if a == [] {
      assert a + b == b;
    } else {
      assert (a + b)[1..] == a[1..] + b;
      PassesConcat(a[1..], b, op, allowed);
    }
  }

  // ----- the gate is exact on what it does not refuse to look at

  /** What the gate looks into: one license, or a list with one kind of operator and no parentheses. */
  predicate Unmixed(expr: string) {
    && !HasWord(expr, "WITH") && '+' !in expr && '(' !in expr
    && !(HasWord(expr, "OR") && HasWord(expr, "AND"))
  }

  function Other(op: Op): Op {
    if op.AndOp? then OrOp else AndOp
  }

  /** Neither an exception, nor a later version, nor the other operator. */
  predicate Only(s: string, op: Op) {
    !HasWord(s, "WITH") && '+' !in s && !HasWord(s, OpText(Other(op)))
  }

  lemma OnlyBare(left: string, license: License, right: string, op: Op)
    requires Blank(left) && Blank(right) && IsLicense(license)
    requires Only(left + LicenseText(license) + right, op)
    ensures license.Bare?
  {
    var s := left + LicenseText(license) + right;
    match license
    case Bare(_) =>
    case Later(n) => LaterHasPlus(left, n, right);
    case Except(n, gap, gap', e) => ExceptHasWord(left, n, gap, gap', e, right);
  }

  lemma LaterHasPlus(left: string, n: string, right: string)
    ensures '+' in left + (n + "+") + right
  {
    assert (left + (n + "+") + right)[|left| + |n|] == '+';
  }

  lemma ExceptHasWord(left: string, n: string, gap: string, gap': string, e: string, right: string)
    requires Blank(gap) && gap != "" && Blank(gap') && gap' != ""
    ensures HasWord(left + (n + gap + "WITH" + gap' + e) + right, "WITH")
  {
    var a, b := left + n + gap, gap' + e + right;
    assert left + (n + gap + "WITH" + gap' + e) + right == a + "WITH" + b;
    assert a[|a| - 1] == gap[|gap| - 1] && b[0] == gap'[0];
    WordBetween(a, "WITH", b);
    assert WordAt(a + "WITH" + b, "WITH", |a|);
  }

  lemma OnlySides(x: Written, level: nat, op: Op)
    requires WellWritten(x, level) && Flat(x) && x.Infix? && Only(Text(x), op)
    ensures x.op == op && Only(Text(x.l), op) && Only(Text(x.r), op)
  {
    FlatSides(x, level);
    var a, w, b := Text(x.l), OpText(x.op), Text(x.r);
    KeywordIsWord("WITH");
    KeywordIsWord(OpText(Other(op)));
    WordSomewhere(a, w, b, "WITH");
    WordSomewhere(a, w, b, OpText(Other(op)));
    assert forall c :: c in a ==> c in a + w + b;
    assert forall c :: c in b ==> c in a + w + b;
  }

  /** Splitting at the operator and looking up the parts decides the meaning of a list. */
  lemma {:induction false} ListPasses(x: Written, level: nat, op: Op, allowed: set<string>)
    requires SafeNames(allowed) && WellWritten(x, level) && Flat(x) && Only(Text(x), op)
    ensures Passes(SplitWord(Text(x), OpText(op)), op, allowed) <==> True(Meaning(x), allowed)
  {
    match x
    case Single(left, license, right) =>
      OnlyBare(left, license, right, op);
      LeafPasses(left, license.name, right, op, allowed);
    case Infix(l, o, r) =>
      OnlySides(x, level, op);
      FlatSides(x, level);
      var inner := if op.AndOp? then 1 else 0;
      ListPasses(l, inner, op, allowed);
      ListPasses(r, inner, op, allowed);
      SplitConcat(Text(l), OpText(op), Text(r));
      PassesConcat(SplitWord(Text(l), OpText(op)), SplitWord(Text(r), OpText(op)), op, allowed);
  }

  lemma {:induction false} FoundAny(parts: seq<string>, allowed: set<string>)
    ensures FindPart(TrimAll(parts), p => p in allowed) < |parts| <==> AnyAllowed(parts, allowed)
    ensures FindPart(TrimAll(parts), p => p !in allowed) == |parts| <==> AllAllowed(parts, allowed)
  {
    if parts != [] {
      assert TrimAll(parts)[1..] == TrimAll(parts[1..]);
      FoundAny(parts[1..], allowed);
    }
  }

  lemma {:induction false} StripTrimmed(s: string)
    ensures Trimmed(Strip(s))
    decreases |s|
  {
    var left, right := TrimPads(s);
    if Wrapped(Trim(s)) {
      StripTrimmed(Inner(Trim(s)));
    }
  }

  lemma ListDecides(y: Written, op: Op, allowed: set<string>)
    requires SafeNames(allowed) && WellWritten(y, 0) && Flat(y) && Only(Text(y), op)
    ensures
      var parts := TrimAll(SplitWord(Text(y), OpText(op)));
      True(Meaning(y), allowed) <==> (if op.AndOp? then EvaluateAnd(parts, allowed) else EvaluateOr(parts, allowed)).Ok?
  {
    ListPasses(y, 0, op, allowed);
    FoundAny(SplitWord(Text(y), OpText(op)), allowed);
  }

  lemma SimpleDecides(y: Written, allowed: set<string>)
    requires SafeNames(allowed) && WellWritten(y, 0) && Flat(y) && Trimmed(Text(y)) && Only(Text(y), OrOp) && !HasWord(Text(y), "OR")
    ensures True(Meaning(y), allowed) <==> Text(y) in allowed
  {
    ListPasses(y, 0, OrOp, allowed);
    NoWordNoSplit(Text(y), "OR");
    OnePart(Text(y), allowed);
    TrimmedIsFixed(Text(y));
  }

  lemma StrippedDecides(y: Written, allowed: set<string>)
    requires SafeNames(allowed) && WellWritten(y, 0) && Trimmed(Text(y))
    ensures EvaluateStripped(Text(y), allowed).Ok? <==> Unmixed(Text(y)) && True(Meaning(y), allowed)
  {
    var t := Text(y);
    if Unmixed(t) {
      FlatText(y);
      if HasWord(t, "AND") {
        ListDecides(y, AndOp, allowed);
      } else if HasWord(t, "OR") {
        ListDecides(y, OrOp, allowed);
      } else {
        SimpleDecides(y, allowed);
      }
    }
  }

  lemma ShortNamesSafe()
    ensures SafeName("MIT") && SafeName("ISC") && SafeName("0BSD") && SafeName("CC0-1.0")
  {
  }

  lemma LongNamesSafe()
    ensures SafeName("Apache-2.0") && SafeName("Unlicense")
  {
  }

  lemma ClauseNamesSafe()
    ensures SafeName("BSD-2-Clause") && SafeName("BSD-3-Clause")
  {
  }

  lemma AllowListSafe()
    ensures SafeNames(ALLOWED)
  {
    ShortNamesSafe();
    LongNamesSafe();
    ClauseNamesSafe();
  }

  /**
   * The gate says ok exactly when the expression, without its outer parentheses, is
   * something it looks into and the expression is true with only the allowed
   * licenses. So it is sound and fails closed for every well-written expression, and
   * on what it looks into it is exact.
   */
  lemma GateExactly(x: Written)
    requires WellWritten(x, 0)
    ensures Evaluate(Text(x)) == Ok <==> Unmixed(Strip(Text(x))) && True(Meaning(x), ALLOWED)
  {
    var y := StripKeepsMeaning(x);
    StripTrimmed(Text(x));
    AllowListSafe();
    StrippedDecides(y, ALLOWED);
  }

  // ----- lists of bare licenses

  /** A list with one kind of operator whose licenses are bare names without a keyword in them. */
  ghost predicate PlainList(e: Expr, op: Op) {
    match e
    case Leaf(license) => license.Bare? && forall w :: Keyword(w) ==> !HasWord(license.name, w)
    case Node(l, o, r) => o == op && PlainList(l, op) && PlainList(r, op)
  }

  lemma NoPlus(left: string, n: string, right: string)
    requires Blank(left) && IdChars(n) && Blank(right)
    ensures '+' !in left + n + right
  {
    PadSpaces(left, n, right);
    var s := left + n + right;
    forall i | 0 <= i < |s| ensures s[i] != '+' {
      assert |left| <= i < |left| + |n| ==> s[|left| + (i - |left|)] == n[i - |left|];
    }
  }

  lemma {:induction false} PlainListWords(x: Written, level: nat, op: Op, v: string)
    requires WellWritten(x, level) && Flat(x) && PlainList(Meaning(x), op) && Keyword(v)
    ensures HasWord(Text(x), v) ==> v == OpText(op)
    ensures '+' !in Text(x)
  {
    KeywordIsWord(v);
    match x
    case Single(left, license, right) =>
      PaddedWord(left, license.name, right, v);
      NoPlus(left, license.name, right);
    case Infix(l, o, r) =>
      var inner := if o.AndOp? then 1 else 0;
      PlainListWords(l, inner, op, v);
      PlainListWords(r, inner, op, v);
      FlatSides(x, level);
      WordSomewhere(Text(l), OpText(o), Text(r), v);
  }

  /**
   * On a list of bare licenses with one kind of operator, none of them containing a
   * keyword as a word of its own and none but outer parentheses, the gate is exact.
   */
  lemma PlainListExact(x: Written, op: Op)
    requires WellWritten(x, 0) && PlainList(Meaning(x), op) && '(' !in Strip(Text(x))
    ensures Evaluate(Text(x)) == Ok <==> True(Meaning(x), ALLOWED)
  {
    GateExactly(x);
    var y := StripKeepsMeaning(x);
    FlatText(y);
    PlainListWords(y, 0, op, "WITH");
    PlainListWords(y, 0, op, "OR");
    PlainListWords(y, 0, op, "AND");
  }

  // ----- an expression that is not well written

  lemma DanglingText(n: string)
    requires SafeName(n)
    ensures
      var t := n + " OR";
      && Trimmed(t) && t[0] != '(' && '+' !in t && '(' !in t && 'H' !in t && 'N' !in t
      && WordAt(t, "OR", |n| + 1)
  {
    var t := n + " OR";
    assert t[0] == n[0] && IdChar(n[0]) && t[|n|] == ' ' && t[|n| + 1] == 'O' && t[|n| + 2] == 'R';
    assert t[|n| + 1..|n| + 3] == "OR";
    forall i | 0 <= i < |n| ensures t[i] != '+' && t[i] != '(' && t[i] != 'H' && t[i] != 'N' {
      assert t[i] == n[i] && n[i] in n && IdChar(n[i]);
    }
  }

  lemma DanglingSplit(n: string)
    requires SafeName(n)
    ensures SplitWord(n + " OR", "OR") == [n + " ", ""]
  {
    var t, k := n + " OR", |n| + 1;
    DanglingText(n);
    forall j | 0 <= j < k ensures !WordAt(t, "OR", j) {
      if j + 2 <= |n| {
        assert t[j..j + 2][1] == t[j + 1] == n[j + 1] && n[j + 1] in n;
      } else {
        KeywordIsWord("OR");
        NotAcross(t, "OR", j, |n|);
      }
    }
    FoundWord(t, "OR", k);
    SplitUnfold(t, "OR", k);
    assert t[..k] == n + " " && t[k + 2..] == "";
    SplitUnfold("", "OR", 0);
  }

  /** The gate does not refuse what is not well written: an allowed license with a dangling OR passes. */
  lemma DanglingOrPasses(n: string)
    requires n in ALLOWED
    ensures Evaluate(n + " OR") == Ok
  {
    var t := n + " OR";
    AllowListSafe();
    assert SafeName(n);
    DanglingText(n);
    TrimmedIsFixed(t);
    assert Strip(t) == t;
    assert HasWord(t, "OR");
    assert "WITH"[3] == 'H' && "AND"[1] == 'N';
    LacksLetter(t, "WITH", 'H');
    LacksLetter(t, "AND", 'N');
    DanglingSplit(n);
    IdCharsTrim("", n, " ");
    NoPad(n, " ");
    var parts := TrimAll([n + " ", ""]);
    assert parts[0] == n;
  }
}
