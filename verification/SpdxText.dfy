/**
 * Text functions behind the license gate: trimming, counting parentheses, and
 * splitting at a word as the regular expression `\bWORD\b` does.
 */
module SpdxText {
  import opened Common

  /** The white space that `String.prototype.trim` removes. */
  predicate Space(c: char) {
    var n := c as int;
    9 <= n <= 13 || n == 32 || n == 0xA0 || n == 0x1680 || 0x2000 <= n <= 0x200A || n == 0x2028 || n == 0x2029
    || n == 0x202F || n == 0x205F || n == 0x3000 || n == 0xFEFF
  }

  /** `\w` */
  predicate Word(c: char) {
    'a' <= c <= 'z' || 'A' <= c <= 'Z' || '0' <= c <= '9' || c == '_'
  }

  predicate Blank(s: string) {
    forall i :: 0 <= i < |s| ==> Space(s[i])
  }

  function TrimStart(s: string): (t: string)
    ensures |t| <= |s| && (t == "" || !Space(t[0]))
  {
    if s != "" && Space(s[0]) then TrimStart(s[1..]) else s
  }

  function TrimEnd(s: string): (t: string)
    ensures |t| <= |s|
  {
    if s != "" && Space(s[|s| - 1]) then TrimEnd(s[..|s| - 1]) else s
  }

  function Trim(s: string): (t: string)
    ensures |t| <= |s|
  {
    TrimEnd(TrimStart(s))
  }

  predicate Trimmed(t: string) {
    t == "" || (!Space(t[0]) && !Space(t[|t| - 1]))
  }

  lemma {:induction false} TrimStartPads(s: string) returns (pad: string)
    ensures Blank(pad) && s == pad + TrimStart(s)
    ensures TrimStart(s) == "" || !Space(TrimStart(s)[0])
  {
    pad := "";
    if s != "" && Space(s[0]) {
      pad := TrimStartPads(s[1..]);
      pad := [s[0]] + pad;
      assert s == [s[0]] + s[1..];
    }
  }

  lemma {:induction false} TrimEndPads(s: string) returns (pad: string)
    ensures Blank(pad) && s == TrimEnd(s) + pad
    ensures TrimEnd(s) == "" || !Space(TrimEnd(s)[|TrimEnd(s)| - 1])
  {
    pad := "";
    if s != "" && Space(s[|s| - 1]) {
      pad := TrimEndPads(s[..|s| - 1]);
      pad := pad + [s[|s| - 1]];
      assert s == s[..|s| - 1] + [s[|s| - 1]];
    }
  }

  lemma TrimPads(s: string) returns (left: string, right: string)
    ensures Blank(left) && Blank(right) && s == left + Trim(s) + right
    ensures Trimmed(Trim(s))
  {
    left := TrimStartPads(s);
    right := TrimEndPads(TrimStart(s));
    var t := Trim(s);
    if t != "" {
      assert TrimStart(s)[0] == t[0];
    }
  }

  lemma {:induction false} TrimStartBlank(pad: string, t: string)
    requires Blank(pad) && (t == "" || !Space(t[0]))
    ensures TrimStart(pad + t) == t
  {
    if pad == "" {
      assert pad + t == t;
    } else {
      assert (pad + t)[1..] == pad[1..] + t;
      TrimStartBlank(pad[1..], t);
    }
  }

  lemma {:induction false} TrimEndBlank(t: string, pad: string)
    requires Blank(pad) && (t == "" || !Space(t[|t| - 1]))
    ensures TrimEnd(t + pad) == t
  {
    if pad == "" {
      assert t + pad == t;
    } else {
      assert (t + pad)[..|t + pad| - 1] == t + pad[..|pad| - 1];
      TrimEndBlank(t, pad[..|pad| - 1]);
    }
  }

  /** Trimming is decided by the text between the blanks. */
  lemma TrimOf(left: string, t: string, right: string)
    requires Blank(left) && Blank(right) && Trimmed(t)
    ensures Trim(left + t + right) == t
  {
    if t == "" {
      assert left + t + right == (left + right) + "";
      TrimStartBlank(left + right, "");
    } else {
      assert left + t + right == left + (t + right);
      TrimStartBlank(left, t + right);
      TrimEndBlank(t, right);
    }
  }

  lemma TrimmedIsFixed(t: string)
    requires Trimmed(t)
    ensures Trim(t) == t
  {
    TrimOf("", t, "");
    assert "" + t + "" == t;
  }

  // ----- parentheses

  function Depth(s: string): int {
    if s == "" then 0
    else
      var last := s[|s| - 1];
      Depth(s[..|s| - 1]) + if last == '(' then 1 else if last == ')' then -1 else 0
  }

  predicate NeverNegative(s: string) {
    s == "" || (Depth(s) >= 0 && NeverNegative(s[..|s| - 1]))
  }

  predicate Balanced(s: string) {
    Depth(s) == 0 && NeverNegative(s)
  }

  predicate Plain(s: string) {
    '(' !in s && ')' !in s
  }

  lemma {:induction false} DepthConcat(a: string, b: string)
    ensures Depth(a + b) == Depth(a) + Depth(b)
  {
    if b == "" {
      assert a + b == a;
    } else {
      assert (a + b)[..|a + b| - 1] == a + b[..|b| - 1];
      DepthConcat(a, b[..|b| - 1]);
    }
  }

  lemma {:induction false} PrefixNeverNegative(s: string, k: nat)
    requires NeverNegative(s) && k <= |s|
    ensures NeverNegative(s[..k]) && Depth(s[..k]) >= 0
    decreases |s|
  {
    if k == |s| {
      assert s[..k] == s;
    } else {
      PrefixNeverNegative(s[..|s| - 1], k);
      assert s[..|s| - 1][..k] == s[..k];
    }
  }

  lemma {:induction false} PlainBalanced(s: string)
    requires Plain(s)
    ensures Balanced(s)
  {
    if s != "" {
      assert s[|s| - 1] in s;
      PlainBalanced(s[..|s| - 1]);
    }
  }

  lemma {:induction false} NeverNegativeConcat(a: string, b: string)
    requires Balanced(a) && NeverNegative(b)
    ensures NeverNegative(a + b)
  {
    if b == "" {
      assert a + b == a;
    } else {
      NeverNegativeConcat(a, b[..|b| - 1]);
      DepthConcat(a, b);
      assert (a + b)[..|a + b| - 1] == a + b[..|b| - 1];
    }
  }

  lemma BalancedConcat(a: string, b: string)
    requires Balanced(a) && Balanced(b)
    ensures Balanced(a + b)
  {
    DepthConcat(a, b);
    NeverNegativeConcat(a, b);
  }

  lemma {:induction false} OpenedNeverNegative(s: string)
    requires NeverNegative(s)
    ensures NeverNegative("(" + s) && Depth("(" + s) == 1 + Depth(s)
  {
    if s == "" {
      assert "(" + s == "(" && "("[..0] == "";
    } else {
      OpenedNeverNegative(s[..|s| - 1]);
      assert ("(" + s)[..|s|] == "(" + s[..|s| - 1];
    }
  }

  lemma BalancedWrap(s: string)
    requires Balanced(s)
    ensures Balanced("(" + s + ")")
  {
    OpenedNeverNegative(s);
    assert ("(" + s + ")")[..|s| + 1] == "(" + s;
  }

  // ----- words

  predicate Boundary(s: string, k: nat)
    requires k <= |s|
  {
    (k > 0 && Word(s[k - 1])) != (k < |s| && Word(s[k]))
  }

  predicate WordAt(s: string, w: string, k: nat) {
    k + |w| <= |s| && s[k..k + |w|] == w && Boundary(s, k) && Boundary(s, k + |w|)
  }

  predicate HasWord(s: string, w: string) {
    exists k :: 0 <= k <= |s| && WordAt(s, w, k)
  }

  predicate IsWord(w: string) {
    w != "" && forall i :: 0 <= i < |w| ==> Word(w[i])
  }

  /** The first place of a word from `from` on; the length when there is none. */
  function FindWord(s: string, w: string, from: nat): (k: nat)
    requires from <= |s| && w != ""
    ensures from <= k <= |s|
    ensures k < |s| ==> WordAt(s, w, k)
    ensures forall j :: from <= j < k ==> !WordAt(s, w, j)
    decreases |s| - from
  {
    if from == |s| || WordAt(s, w, from) then from else FindWord(s, w, from + 1)
  }

  /** `split(/\bw\b/)` */
  function SplitWord(s: string, w: string): (parts: seq<string>)
    requires w != ""
    ensures parts != []
    decreases |s|
  {
    var k := FindWord(s, w, 0);
    if k == |s| then [s] else [s[..k]] + SplitWord(s[k + |w|..], w)
  }

  lemma FoundWord(s: string, w: string, k: nat)
    requires w != "" && k <= |s| && (k < |s| ==> WordAt(s, w, k)) && forall j :: 0 <= j < k ==> !WordAt(s, w, j)
    ensures FindWord(s, w, 0) == k
  {
  }

  lemma NoWordNoSplit(s: string, w: string)
    requires w != "" && !HasWord(s, w)
    ensures SplitWord(s, w) == [s]
  {
    assert FindWord(s, w, 0) == |s|;
  }

  predicate EndsOutside(a: string) {
    a != "" && !Word(a[|a| - 1])
  }

  predicate StartsOutside(b: string) {
    b != "" && !Word(b[0])
  }

  lemma NotAcross(s: string, v: string, k: nat, p: nat)
    requires IsWord(v) && k <= p < k + |v| <= |s| && !Word(s[p])
    ensures s[k..k + |v|] != v
  {
    assert s[k..k + |v|][p - k] == s[p];
  }

  /** To the left of an operator, words are where they are in the left part alone. */
  lemma WordInLeft(a: string, rest: string, v: string, k: nat)
    requires IsWord(v) && EndsOutside(a) && k < |a|
    ensures WordAt(a + rest, v, k) <==> WordAt(a, v, k)
  {
    var s := a + rest;
    if |a| <= k + |v| <= |s| {
      NotAcross(s, v, k, |a| - 1);
    }
    if k + |v| == |a| {
      NotAcross(a, v, k, |a| - 1);
    }
    if k + |v| < |a| {
      assert s[k..k + |v|] == a[k..k + |v|];
    }
  }

  /** To the right of what ends a word, words are where they are in the right part alone. */
  lemma WordInRight(front: string, b: string, v: string, k: nat)
    requires IsWord(v) && StartsOutside(b) && k <= |b|
    ensures WordAt(front + b, v, |front| + k) <==> WordAt(b, v, k)
  {
    var s := front + b;
    if k + |v| <= |b| {
      assert s[|front| + k..|front| + k + |v|] == b[k..k + |v|];
      if k == 0 {
        NotAcross(b, v, 0, 0);
      }
    }
  }

  /** The operator itself is a word. */
  lemma WordBetween(a: string, w: string, b: string)
    requires IsWord(w) && EndsOutside(a) && StartsOutside(b)
    ensures WordAt(a + w + b, w, |a|)
  {
    var s := a + w + b;
    assert s[|a|..|a| + |w|] == w;
    assert s[|a| - 1] == a[|a| - 1] && s[|a|] == w[0];
    assert s[|a| + |w| - 1] == w[|w| - 1] && s[|a| + |w|] == b[0];
  }

  lemma WordEndsBefore(a: string, w: string, k: nat)
    requires IsWord(w) && EndsOutside(a) && WordAt(a, w, k)
    ensures k + |w| < |a|
  {
    assert a[k..k + |w|][|w| - 1] == a[k + |w| - 1];
  }

  /** The first word, left of an operator or the operator itself. */
  lemma FirstWord(a: string, w: string, b: string)
    requires IsWord(w) && EndsOutside(a) && StartsOutside(b)
    ensures FindWord(a + w + b, w, 0) == FindWord(a, w, 0)
  {
    var s, k := a + w + b, FindWord(a, w, 0);
    assert s == a + (w + b);
    forall j | 0 <= j < k ensures !WordAt(s, w, j) {
      WordInLeft(a, w + b, w, j);
    }
    if k == |a| {
      WordBetween(a, w, b);
    } else {
      WordInLeft(a, w + b, w, k);
    }
    FoundWord(s, w, k);
  }

  lemma CutLeft(a: string, w: string, b: string, k: nat, n: nat)
    requires k <= n < |a|
    ensures (a + w + b)[n..] == a[n..] + w + b && (a + w + b)[..k] == a[..k]
  {
  }

  lemma CutAt(a: string, w: string, b: string)
    ensures (a + w + b)[..|a|] == a && (a + w + b)[|a| + |w|..] == b
  {
  }

  lemma SplitFirst(s: string, w: string, k: nat)
    requires w != "" && k == FindWord(s, w, 0) < |s|
    ensures SplitWord(s, w) == [s[..k]] + SplitWord(s[k + |w|..], w)
  {
  }

  lemma SplitUnfold(s: string, w: string, k: nat)
    requires w != "" && k == FindWord(s, w, 0)
    ensures k == |s| ==> SplitWord(s, w) == [s]
    ensures k < |s| ==> SplitWord(s, w) == [s[..k]] + SplitWord(s[k + |w|..], w)
  {
    if k < |s| {
      SplitFirst(s, w, k);
    }
  }

  lemma SplitAtOperator(a: string, w: string, b: string)
    requires IsWord(w) && EndsOutside(a) && StartsOutside(b) && FindWord(a, w, 0) == |a|
    ensures SplitWord(a + w + b, w) == SplitWord(a, w) + SplitWord(b, w)
  {
    FirstWord(a, w, b);
    CutAt(a, w, b);
    SplitUnfold(a, w, |a|);
    SplitUnfold(a + w + b, w, |a|);
  }

  lemma SplitAtWord(a: string, w: string, b: string, k: nat)
    requires IsWord(w) && EndsOutside(a) && StartsOutside(b) && k == FindWord(a, w, 0) < |a|
    ensures k + |w| < |a|
    ensures SplitWord(a + w + b, w) == [a[..k]] + SplitWord(a[k + |w|..] + w + b, w)
  {
    FirstWord(a, w, b);
    WordEndsBefore(a, w, k);
    CutLeft(a, w, b, k, k + |w|);
    SplitUnfold(a + w + b, w, k);
  }

  lemma SplitStep(a: string, w: string, b: string, k: nat, rest: string)
    requires w != "" && k == FindWord(a, w, 0) < |a| && rest == a[k + |w|..]
    requires SplitWord(a + w + b, w) == [a[..k]] + SplitWord(rest + w + b, w)
    requires SplitWord(rest + w + b, w) == SplitWord(rest, w) + SplitWord(b, w)
    ensures SplitWord(a + w + b, w) == SplitWord(a, w) + SplitWord(b, w)
  {
    SplitUnfold(a, w, k);
  }

  /** Splitting at an operator that stands between two parts splits each of them. */
  lemma {:induction false} SplitConcat(a: string, w: string, b: string)
    requires IsWord(w) && EndsOutside(a) && StartsOutside(b)
    ensures SplitWord(a + w + b, w) == SplitWord(a, w) + SplitWord(b, w)
    decreases |a|
  {
    var k := FindWord(a, w, 0);
    if k == |a| {
      SplitAtOperator(a, w, b);
    } else {
      SplitAtWord(a, w, b, k);
      var rest := a[k + |w|..];
      assert rest[|rest| - 1] == a[|a| - 1];
      SplitConcat(rest, w, b);
      SplitStep(a, w, b, k, rest);
    }
  }

  /** A word around an operator is in one of the parts, or is the operator. */
  lemma WordSomewhere(a: string, w: string, b: string, v: string)
    requires IsWord(w) && IsWord(v) && EndsOutside(a) && StartsOutside(b)
    ensures HasWord(a + w + b, v) <==> HasWord(a, v) || HasWord(b, v) || v == w
  {
    var s := a + w + b;
    if v == w {
      WordBetween(a, w, b);
      assert WordAt(s, v, |a|);
    }
    if HasWord(a, v) {
      var k :| 0 <= k <= |a| && WordAt(a, v, k);
      WordInLeft(a, w + b, v, k);
      assert s == a + (w + b) && WordAt(s, v, k);
    }
    if HasWord(b, v) {
      var k :| 0 <= k <= |b| && WordAt(b, v, k);
      WordInRight(a + w, b, v, k);
      assert WordAt(s, v, |a + w| + k);
    }
    if HasWord(s, v) {
      var k :| 0 <= k <= |s| && WordAt(s, v, k);
      WordFromWhole(a, w, b, v, k);
    }
  }

  lemma WordFromWhole(a: string, w: string, b: string, v: string, k: nat)
    requires IsWord(w) && IsWord(v) && EndsOutside(a) && StartsOutside(b)
    requires k <= |a + w + b| && WordAt(a + w + b, v, k)
    ensures HasWord(a, v) || HasWord(b, v) || v == w
  {
    var s := a + w + b;
    if k < |a| {
      assert s == a + (w + b);
      WordInLeft(a, w + b, v, k);
    } else if k >= |a + w| {
      WordInRight(a + w, b, v, k - |a + w|);
    } else {
      BetweenIsWhole(a, w, b, v, k);
    }
  }

  lemma BetweenIsWhole(a: string, w: string, b: string, v: string, k: nat)
    requires IsWord(w) && IsWord(v) && EndsOutside(a) && StartsOutside(b)
    requires |a| <= k < |a| + |w| && WordAt(a + w + b, v, k)
    ensures v == w
  {
    var s := a + w + b;
    assert s[|a|..|a| + |w|] == w;
    forall j | |a| <= j < |a| + |w| ensures Word(s[j]) {
      assert s[j] == w[j - |a|];
    }
    assert s[|a| + |w|] == b[0];
    assert k == |a|;
    if k + |v| > |a| + |w| {
      NotAcross(s, v, k, |a| + |w|);
    }
    assert k + |v| == |a| + |w|;
  }
}
