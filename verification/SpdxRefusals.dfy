/**
 * Which verdict the gate gives, for every text: each refusal with the part it names,
 * in terms of the words, the parts and the license names in the stripped text.
 */
module SpdxRefusals {
  import opened Common
  import opened SpdxText
  import opened SpdxGate

  predicate Listed(p: string) {
    || p == "MIT" || p == "Apache-2.0" || p == "BSD-2-Clause" || p == "BSD-3-Clause"
    || p == "ISC" || p == "0BSD" || p == "CC0-1.0" || p == "Unlicense"
  }

  /** A license of one of the four disallowed families: the bare name, or the name and a hyphen first. */
  predicate Family(p: string) {
    || p == "GPL" || p == "AGPL" || p == "SSPL" || p == "BUSL"
    || "GPL-" <= p || "AGPL-" <= p || "SSPL-" <= p || "BUSL-" <= p
  }

  lemma ListedExactly(p: string)
    ensures p in ALLOWED <==> Listed(p)
  {
  }

  lemma FamilyExactly(p: string)
    ensures IsDisallowedSimple(p) <==> Family(p)
  {
    var prefixes := DISALLOWED_PREFIXES;
    assert prefixes[0] == "GPL" && prefixes[1] == "AGPL" && prefixes[2] == "SSPL" && prefixes[3] == "BUSL";
    assert "GPL" + "-" == "GPL-" && "AGPL" + "-" == "AGPL-" && "SSPL" + "-" == "SSPL-" && "BUSL" + "-" == "BUSL-";
    if Family(p) {
      var i := if p == "GPL" || "GPL-" <= p then 0 else if p == "AGPL" || "AGPL-" <= p then 1
               else if p == "SSPL" || "SSPL-" <= p then 2 else 3;
      assert p == prefixes[i] || prefixes[i] + "-" <= p;
    }
  }

  /** The part is the first one with the property. */
  ghost predicate FirstWith(parts: seq<string>, p: string, test: string -> bool) {
    exists i :: 0 <= i < |parts| && parts[i] == p && test(p) && forall j :: 0 <= j < i ==> !test(parts[j])
  }

  lemma FindsNone(parts: seq<string>, test: string -> bool)
    ensures FindPart(parts, test) == |parts| <==> forall p :: p in parts ==> !test(p)
  {
    var k := FindPart(parts, test);
    if k < |parts| {
      assert parts[k] in parts;
    }
  }

  lemma FindsFirst(parts: seq<string>, test: string -> bool, p: string)
    ensures FirstWith(parts, p, test) <==> FindPart(parts, test) < |parts| && parts[FindPart(parts, test)] == p
  {
    var k := FindPart(parts, test);
    if FirstWith(parts, p, test) {
      var i :| 0 <= i < |parts| && parts[i] == p && test(p) && forall j :: 0 <= j < i ==> !test(parts[j]);
      assert i == k;
    }
  }

  /** Two tests that agree find the same part. */
  lemma {:induction false} FindsSame(parts: seq<string>, test: string -> bool, test': string -> bool)
    requires forall q :: test(q) <==> test'(q)
    ensures FindPart(parts, test) == FindPart(parts, test')
  {
    if parts != [] {
      FindsSame(parts[1..], test, test');
    }
  }

  /** The parts of a text around an operator, without the white space at their ends. */
  function PartsOf(s: string, w: string): seq<string>
    requires w != ""
  {
    TrimAll(SplitWord(s, w))
  }

  predicate InWith(e: string) {
    HasWord(e, "WITH")
  }

  /** The gate looks into the text: no exception, no `+` and no parenthesis in it. */
  predicate LookedInto(e: string) {
    !InWith(e) && '+' !in e && '(' !in e
  }

  /** The refusals before the text is looked into, and of texts with both operators. */
  lemma ShapeRefusals(raw: string)
    ensures
      var e := Strip(raw);
      && (Evaluate(raw) == Refused(HasWith) <==> InWith(e))
      && (Evaluate(raw) == Refused(HasPlus) <==> !InWith(e) && '+' in e)
      && (Evaluate(raw) == Refused(Nested) <==> !InWith(e) && '+' !in e && '(' in e)
      && (Evaluate(raw) == Refused(Mixed) <==> LookedInto(e) && HasWord(e, "OR") && HasWord(e, "AND"))
  {
  }

  /**
   * An OR list passes when one of its parts is listed. Otherwise the first part of a
   * disallowed family is named, and when there is none, that no part is listed.
   */
  lemma OrVerdict(raw: string, p: string)
    requires LookedInto(Strip(raw)) && HasWord(Strip(raw), "OR") && !HasWord(Strip(raw), "AND")
    ensures
      var parts := PartsOf(Strip(raw), "OR");
      var none := forall q :: q in parts ==> !Listed(q);
      && (Evaluate(raw) == Ok <==> !none)
      && (Evaluate(raw) == Refused(OrDisallowed(p)) <==> none && FirstWith(parts, p, q => Family(q)))
      && (Evaluate(raw) == Refused(OrNoneAllowed) <==> none && forall q :: q in parts ==> !Family(q))
  {
    TestsExactly();
    OrParts(PartsOf(Strip(raw), "OR"), p);
  }

  lemma TestsExactly()
    ensures forall q :: (q in ALLOWED <==> Listed(q)) && (IsDisallowedSimple(q) <==> Family(q))
  {
    forall q ensures (q in ALLOWED <==> Listed(q)) && (IsDisallowedSimple(q) <==> Family(q)) {
      ListedExactly(q);
      FamilyExactly(q);
    }
  }

  lemma OrParts(parts: seq<string>, p: string)
    requires forall q :: (q in ALLOWED <==> Listed(q)) && (IsDisallowedSimple(q) <==> Family(q))
    ensures
      var none := forall q :: q in parts ==> !Listed(q);
      && (EvaluateOr(parts, ALLOWED) == Ok <==> !none)
      && (EvaluateOr(parts, ALLOWED) == Refused(OrDisallowed(p)) <==> none && FirstWith(parts, p, q => Family(q)))
      && (EvaluateOr(parts, ALLOWED) == Refused(OrNoneAllowed) <==> none && forall q :: q in parts ==> !Family(q))
  {
    FindsSame(parts, q => q in ALLOWED, q => Listed(q));
    FindsNone(parts, q => Listed(q));
    FindsSame(parts, q => IsDisallowedSimple(q), q => Family(q));
    FindsNone(parts, q => Family(q));
    FindsFirst(parts, q => Family(q), p);
  }

  /** An AND list passes when all of its parts are listed; otherwise the first that is not is named, with its family or without. */
  lemma AndVerdict(raw: string, p: string)
    requires LookedInto(Strip(raw)) && HasWord(Strip(raw), "AND") && !HasWord(Strip(raw), "OR")
    ensures
      var parts := PartsOf(Strip(raw), "AND");
      && (Evaluate(raw) == Ok <==> forall q :: q in parts ==> Listed(q))
      && (Evaluate(raw) == Refused(AndDisallowed(p)) <==> FirstWith(parts, p, q => !Listed(q)) && Family(p))
      && (Evaluate(raw) == Refused(AndNotAllowed(p)) <==> FirstWith(parts, p, q => !Listed(q)) && !Family(p))
  {
    TestsExactly();
    AndParts(PartsOf(Strip(raw), "AND"), p);
  }

  lemma AndParts(parts: seq<string>, p: string)
    requires forall q :: (q in ALLOWED <==> Listed(q)) && (IsDisallowedSimple(q) <==> Family(q))
    ensures EvaluateAnd(parts, ALLOWED) == Ok <==> forall q :: q in parts ==> Listed(q)
    ensures EvaluateAnd(parts, ALLOWED) == Refused(AndDisallowed(p)) <==> FirstWith(parts, p, q => !Listed(q)) && Family(p)
    ensures EvaluateAnd(parts, ALLOWED) == Refused(AndNotAllowed(p)) <==> FirstWith(parts, p, q => !Listed(q)) && !Family(p)
  {
    FindsSame(parts, q => q !in ALLOWED, q => !Listed(q));
    FindsNone(parts, q => !Listed(q));
    FindsFirst(parts, q => !Listed(q), p);
  }

  /** A text without operators passes when it is listed; a family member is refused as such. */
  lemma SimpleVerdict(raw: string)
    requires LookedInto(Strip(raw)) && !HasWord(Strip(raw), "AND") && !HasWord(Strip(raw), "OR")
    ensures
      var e := Strip(raw);
      Evaluate(raw) == if Listed(e) then Ok else Refused(if Family(e) then Disallowed else NotAllowed)
  {
    TestsExactly();
  }

  // ----- words, white space and parts

  /** The characters that `trim` takes off, by their codes. */
  predicate White(c: char) {
    c as int in {9, 10, 11, 12, 13, 32, 0xA0, 0x1680, 0x2000, 0x2001, 0x2002, 0x2003, 0x2004, 0x2005, 0x2006, 0x2007, 0x2008,
                 0x2009, 0x200A, 0x2028, 0x2029, 0x202F, 0x205F, 0x3000, 0xFEFF}
  }

  /** Trimming takes white space off both ends, all of it, and nothing else. */
  lemma TrimExactly(s: string) returns (left: string, right: string)
    ensures s == left + Trim(s) + right
    ensures (forall i :: 0 <= i < |left| ==> White(left[i])) && forall i :: 0 <= i < |right| ==> White(right[i])
    ensures Trim(s) != "" ==> !White(Trim(s)[0]) && !White(Trim(s)[|Trim(s)| - 1])
  {
    left := TrimStartPads(s);
    right := TrimEndPads(TrimStart(s));
    Reassociate(left, Trim(s), right);
    if Trim(s) != "" {
      assert TrimStart(s)[0] == Trim(s)[0];
    }
  }

  /** The characters that a word is made of, by their codes. */
  predicate InWord(c: char) {
    var n := c as int;
    48 <= n <= 57 || 65 <= n <= 90 || n == 95 || 97 <= n <= 122
  }

  /** A keyword stands at a place when its letters do, and neither neighbour is a letter, a digit or an underscore. */
  predicate StandsAt(s: string, w: string, k: nat) {
    && k + |w| <= |s| && s[k..k + |w|] == w
    && (k > 0 ==> !InWord(s[k - 1])) && (k + |w| < |s| ==> !InWord(s[k + |w|]))
  }

  lemma StandsExactly(s: string, w: string, k: nat)
    requires w == "AND" || w == "OR" || w == "WITH"
    ensures WordAt(s, w, k) <==> StandsAt(s, w, k)
  {
    if k + |w| <= |s| && s[k..k + |w|] == w {
      assert s[k] == w[0] && s[k + |w| - 1] == w[|w| - 1];
    }
  }

  lemma WordsExactly(s: string, w: string)
    requires w == "AND" || w == "OR" || w == "WITH"
    ensures HasWord(s, w) <==> exists k: nat :: StandsAt(s, w, k)
  {
    if HasWord(s, w) {
      var k :| 0 <= k <= |s| && WordAt(s, w, k);
      StandsExactly(s, w, k);
    }
    if k: nat :| StandsAt(s, w, k) {
      StandsExactly(s, w, k);
    }
  }

  function Joined(parts: seq<string>, w: string): string
    requires parts != []
  {
    if |parts| == 1 then parts[0] else parts[0] + w + Joined(parts[1..], w)
  }

  lemma SplitFirst(s: string, w: string, k: nat)
    requires w != "" && k == FindWord(s, w, 0) < |s|
    ensures k + |w| <= |s| && s == s[..k] + w + s[k + |w|..]
    ensures SplitWord(s, w) == [s[..k]] + SplitWord(s[k + |w|..], w)
  {
    assert s[k..k + |w|] == w;
  }

  lemma JoinedFirst(first: string, more: seq<string>, w: string)
    requires more != []
    ensures Joined([first] + more, w) == first + w + Joined(more, w)
  {
    assert ([first] + more)[1..] == more;
  }

  /** Splitting loses nothing: the parts with the operator between them are the text. */
  lemma {:induction false} SplitJoins(s: string, w: string)
    requires w != ""
    ensures Joined(SplitWord(s, w), w) == s
    decreases |s|
  {
    var k := FindWord(s, w, 0);
    if k < |s| {
      SplitFirst(s, w, k);
      SplitJoins(s[k + |w|..], w);
      JoinedFirst(s[..k], SplitWord(s[k + |w|..], w), w);
    }
  }
}
