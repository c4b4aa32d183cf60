/** Shared vocabulary: options, bytes, and a few facts about sequences. */
module Common {

  datatype Option<+T> = None | Some(value: T)

  type byte = x: int | 0 <= x < 256

  type Bytes = seq<byte>

  /** The parts, one after the other. */
  function Flatten<T>(parts: seq<seq<T>>): seq<T> {
    if parts == [] then [] else Flatten(parts[..|parts| - 1]) + parts[|parts| - 1]
  }

  predicate NoDuplicates<T(==)>(s: seq<T>) {
    forall i, j :: 0 <= i < j < |s| ==> s[i] != s[j]
  }

  lemma {:induction false} FlattenConcat<T>(a: seq<seq<T>>, b: seq<seq<T>>)
    ensures Flatten(a + b) == Flatten(a) + Flatten(b)
  {
    if b == [] {
      assert a + b == a;
    } else {
      var front := b[..|b| - 1];
      assert (a + b)[..|a + b| - 1] == a + front;
      FlattenConcat(a, front);
    }
  }

  function RemoveAt<T>(s: seq<T>, i: nat): seq<T>
    requires i < |s|
  {
    s[..i] + s[i + 1..]
  }

  lemma RemoveAtIndex<T>(s: seq<T>, i: nat)
    requires i < |s|
    ensures forall n :: 0 <= n < |s| - 1 ==> RemoveAt(s, i)[n] == s[if n < i then n else n + 1]
  {
  }

  lemma RemoveAtMembers<T>(s: seq<T>, i: nat)
    requires NoDuplicates(s) && i < |s|
    ensures NoDuplicates(RemoveAt(s, i))
    ensures forall x :: x in RemoveAt(s, i) <==> x in s && x != s[i]
  {
    var r := RemoveAt(s, i);
    forall x | x in s && x != s[i] ensures x in r {
      var j :| 0 <= j < |s| && s[j] == x;
      assert r[if j < i then j else j - 1] == x;
    }
  }

  lemma Reassociate<T>(a: seq<T>, b: seq<T>, c: seq<T>)
    ensures a + (b + c) == a + b + c
  {
  }

  lemma SliceSnoc<T>(s: seq<T>, a: nat, b: nat)
    requires a <= b < |s|
    ensures s[a..b + 1] == s[a..b] + [s[b]]
  {
  }

  lemma SeparatorInRest<T>(a: seq<T>, b: seq<T>, a': seq<T>, b': seq<T>, sep: T)
    requires |a| < |a'| && a + [sep] + b == a' + [sep] + b'
    ensures sep in b
  {
    assert (a' + [sep] + b')[|a'|] == sep;
    assert (a + [sep] + b)[|a'|] == b[|a'| - |a| - 1];
  }

  /** A separator that the right-hand parts do not contain splits a sequence in one way only. */
  lemma LastSeparatorUnique<T>(a: seq<T>, b: seq<T>, a': seq<T>, b': seq<T>, sep: T)
    requires sep !in b && sep !in b'
    requires a + [sep] + b == a' + [sep] + b'
    ensures a == a' && b == b'
  {
    if |a| < |a'| {
      SeparatorInRest(a, b, a', b', sep);
    } else if |a'| < |a| {
      SeparatorInRest(a', b', a, b, sep);
    } else {
      var s, s' := a + [sep] + b, a' + [sep] + b';
      assert s[..|a|] == a && s'[..|a'|] == a';
      assert s[|a| + 1..] == b && s'[|a'| + 1..] == b';
    }
  }
}
