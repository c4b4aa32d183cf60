/**
 * Add-on storage: one flat map whose keys are an add-on id, a space and the
 * add-on's key, seen as a map for each add-on. Texts are sequences of UTF-16 code
 * units.
 */
module Storage {
  import opened Common
  import opened Lexical

  type Unit = x: int | 0 <= x < 0x1_0000

  type Text = seq<Unit>

  const SEPARATOR: Unit := 0x20
  const LAST_UNIT: Unit := 0xFFFF

  datatype Record = Record(value: string, updatedAt: int)

  function Prefix(addon: Text): Text {
    addon + [SEPARATOR]
  }

  function NamespaceKey(addon: Text, key: Text): Text {
    addon + [SEPARATOR] + key
  }

  /** `startsWith(prefix)`, and what follows the prefix. */
  predicate StartsWith(k: Text, prefix: Text) {
    prefix <= k
  }

  function Rest(k: Text, prefix: Text): Text
    requires StartsWith(k, prefix)
  {
    k[|prefix|..]
  }

  // ----- sorted lists

  predicate Ascending(keys: seq<Text>) {
    forall i, j :: 0 <= i < j < |keys| ==> LexLess(keys[i], keys[j])
  }

  ghost predicate ListsExactly(keys: seq<Text>, s: set<Text>) {
    Ascending(keys) && forall k :: k in keys <==> k in s
  }

  lemma ListEmpty(a: seq<Text>, s: set<Text>)
    requires ListsExactly(a, s)
    ensures a == [] <==> s == {}
  {
    if a != [] {
      assert a[0] in a;
    }
  }

  /** A set has one ascending list. */
  lemma {:induction false} ListUnique(a: seq<Text>, b: seq<Text>, s: set<Text>)
    requires ListsExactly(a, s) && ListsExactly(b, s)
    ensures a == b
    decreases |a|
  {
    ListEmpty(a, s);
    ListEmpty(b, s);
    if a != [] {
      assert a[0] in a && a[0] in b;
      FirstIsLeast(a, s);
      FirstIsLeast(b, s);
      assert b[0] in b;
      LexTotal(a[0], b[0]);
      TailLists(a, s);
      TailLists(b, s);
      ListUnique(a[1..], b[1..], s - {a[0]});
      assert a == [a[0]] + a[1..] && b == [b[0]] + b[1..];
    }
  }

  lemma FirstIsLeast(a: seq<Text>, s: set<Text>)
    requires ListsExactly(a, s) && a != []
    ensures forall k :: k in s ==> k == a[0] || LexLess(a[0], k)
  {
  }

  lemma TailLists(a: seq<Text>, s: set<Text>)
    requires ListsExactly(a, s) && a != []
    ensures ListsExactly(a[1..], s - {a[0]})
  {
    assert a == [a[0]] + a[1..];
    forall i | 0 <= i < |a| - 1 ensures a[1..][i] != a[0] {
      LexIrreflexive(a[0]);
    }
  }

  function InsertKey(keys: seq<Text>, k: Text): seq<Text> {
    if keys == [] then [k]
    else if k == keys[0] then keys
    else if LexLess(k, keys[0]) then [k] + keys
    else [keys[0]] + InsertKey(keys[1..], k)
  }

  lemma {:induction false} InsertLists(keys: seq<Text>, k: Text, s: set<Text>)
    requires ListsExactly(keys, s)
    ensures ListsExactly(InsertKey(keys, k), s + {k})
    decreases |keys|
  {
    if keys == [] {
    } else if k == keys[0] {
      assert keys[0] in keys;
    } else if LexLess(k, keys[0]) {
      InsertFront(keys, k, s);
    } else {
      LexTotal(k, keys[0]);
      TailLists(keys, s);
      InsertLists(keys[1..], k, s - {keys[0]});
      InsertBehind(keys, k, s);
    }
  }

  /** A key that comes before all of a set is first in its list. */
  lemma ConsLists(k: Text, rest: seq<Text>, s: set<Text>)
    requires ListsExactly(rest, s) && forall x :: x in s ==> LexLess(k, x)
    ensures ListsExactly([k] + rest, s + {k})
  {
    var out := [k] + rest;
    forall i, j | 0 <= i < j < |out| ensures LexLess(out[i], out[j]) {
      assert out[j] == rest[j - 1] && rest[j - 1] in rest;
    }
  }

  lemma InsertFront(keys: seq<Text>, k: Text, s: set<Text>)
    requires ListsExactly(keys, s) && keys != [] && LexLess(k, keys[0])
    ensures ListsExactly([k] + keys, s + {k})
  {
    FirstIsLeast(keys, s);
    forall x | x in s ensures LexLess(k, x) {
      if x != keys[0] {
        LexTransitive(k, keys[0], x);
      }
    }
    ConsLists(k, keys, s);
  }

  lemma InsertBehind(keys: seq<Text>, k: Text, s: set<Text>)
    requires ListsExactly(keys, s) && keys != [] && LexLess(keys[0], k)
    requires ListsExactly(InsertKey(keys[1..], k), s - {keys[0]} + {k})
    ensures ListsExactly([keys[0]] + InsertKey(keys[1..], k), s + {k})
  {
    FirstIsLeast(keys, s);
    assert keys[0] in keys;
    ConsLists(keys[0], InsertKey(keys[1..], k), s - {keys[0]} + {k});
    assert s - {keys[0]} + {k} + {keys[0]} == s + {k};
  }

  lemma {:induction false} ListExists(s: set<Text>)
    ensures exists keys :: ListsExactly(keys, s)
  {
    if s == {} {
      assert ListsExactly([], s);
    } else {
      var k :| k in s;
      ListExists(s - {k});
      var keys :| ListsExactly(keys, s - {k});
      InsertLists(keys, k, s - {k});
      assert s - {k} + {k} == s;
    }
  }

  /** The ascending list of a set. */
  ghost function Listed(s: set<Text>): (keys: seq<Text>)
    ensures ListsExactly(keys, s)
  {
    ListExists(s);
    var keys :| ListsExactly(keys, s);
    keys
  }

  // ----- operations on the flat map

  datatype Op =
    | Get(addon: Text, key: Text)
    | Put(addon: Text, key: Text, record: Record)
    | Delete(addon: Text, key: Text)
    | List(addon: Text)
    | Clear(addon: Text)
    | Close

  datatype Result = Found(record: Option<Record>) | Done | Keys(keys: seq<Text>) | Closed

  datatype Flat = Flat(records: map<Text, Record>, closed: bool)

  /** The keys of one add-on: what follows its prefix. */
  function Slices(m: map<Text, Record>, prefix: Text): set<Text> {
    set k | k in m && StartsWith(k, prefix) :: Rest(k, prefix)
  }

  function Outside(m: map<Text, Record>, prefix: Text): map<Text, Record> {
    map k | k in m && !StartsWith(k, prefix) :: m[k]
  }

  ghost function FlatStep(f: Flat, op: Op): (Flat, Result) {
    if f.closed && !op.Close? then (f, Closed)
    else
      match op
      case Get(a, k) =>
        var n := NamespaceKey(a, k);
        (f, Found(if n in f.records then Some(f.records[n]) else None))
      case Put(a, k, r) => (f.(records := f.records[NamespaceKey(a, k) := r]), Done)
      case Delete(a, k) => (f.(records := f.records - {NamespaceKey(a, k)}), Done)
      case List(a) => (f, Keys(Listed(Slices(f.records, Prefix(a)))))
      case Clear(a) => (f.(records := Outside(f.records, Prefix(a))), Done)
      case Close => (Flat(map[], true), Done)
  }

  class InMemoryStorage {
    var records: map<Text, Record>
    var closed: bool

    ghost function View(): Flat
      reads this
    {
      Flat(records, closed)
    }

    constructor ()
      ensures View() == Flat(map[], false)
    {
      records, closed := map[], false;
    }

    method GetRecord(addon: Text, key: Text) returns (r: Result)
      ensures (View(), r) == FlatStep(View(), Get(addon, key))
    {
      if closed {
        return Closed;
      }
      var n := NamespaceKey(addon, key);
      r := Found(if n in records then Some(records[n]) else None);
    }

    method PutRecord(addon: Text, key: Text, record: Record) returns (r: Result)
      modifies this
      ensures (View(), r) == FlatStep(old(View()), Put(addon, key, record))
    {
      if closed {
        return Closed;
      }
      records := records[NamespaceKey(addon, key) := record];
      r := Done;
    }

    method DeleteRecord(addon: Text, key: Text) returns (r: Result)
      modifies this
      ensures (View(), r) == FlatStep(old(View()), Delete(addon, key))
    {
      if closed {
        return Closed;
      }
      records := records - {NamespaceKey(addon, key)};
      r := Done;
    }

    method ListKeys(addon: Text) returns (r: Result)
      ensures (View(), r) == FlatStep(View(), List(addon))
    {
      if closed {
        return Closed;
      }
      var prefix := Prefix(addon);
      var out: seq<Text> := [];
      var todo := records.Keys;
      while todo != {}
        invariant todo <= records.Keys
        invariant forall x :: x in out <==> x in Collected(records, prefix, todo)
      {
        var k :| k in todo;
        CollectOne(records, prefix, todo, k);
        if StartsWith(k, prefix) {
          out := out + [Rest(k, prefix)];
        }
        todo := todo - {k};
      }
      assert Collected(records, prefix, {}) == Slices(records, prefix);
      var sorted := SortKeys(out);
      ListUnique(sorted, Listed(Slices(records, prefix)), Slices(records, prefix));
      r := Keys(sorted);
    }

    method ClearRecords(addon: Text) returns (r: Result)
      modifies this
      ensures (View(), r) == FlatStep(old(View()), Clear(addon))
    {
      if closed {
        return Closed;
      }
      var prefix := Prefix(addon);
      var todo := records.Keys;
      ghost var m := records;
      while todo != {}
        invariant !closed && todo <= m.Keys
        invariant records == map k | k in m && (k in todo || !StartsWith(k, prefix)) :: m[k]
      {
        var k :| k in todo;
        if StartsWith(k, prefix) {
          records := records - {k};
        }
        todo := todo - {k};
      }
      assert records == Outside(m, prefix);
      r := Done;
    }

    method CloseStorage() returns (r: Result)
      modifies this
      ensures (View(), r) == FlatStep(old(View()), Close)
    {
      closed, records := true, map[];
      r := Done;
    }
  }

  /** What a listing has collected when `todo` is still to be looked at. */
  ghost function Collected(m: map<Text, Record>, prefix: Text, todo: set<Text>): set<Text> {
    set k | k in m && k !in todo && StartsWith(k, prefix) :: Rest(k, prefix)
  }

  lemma CollectOne(m: map<Text, Record>, prefix: Text, todo: set<Text>, k: Text)
    requires k in todo && todo <= m.Keys
    ensures Collected(m, prefix, todo - {k}) == Collected(m, prefix, todo) + if StartsWith(k, prefix) then {Rest(k, prefix)} else {}
  {
    var after := Collected(m, prefix, todo - {k});
    if StartsWith(k, prefix) {
      assert Rest(k, prefix) in after;
    }
    forall x | x in Collected(m, prefix, todo) ensures x in after {
      var j :| j in m && j !in todo && StartsWith(j, prefix) && Rest(j, prefix) == x;
    }
  }

  method SortKeys(keys: seq<Text>) returns (sorted: seq<Text>)
    ensures ListsExactly(sorted, set k | k in keys)
  {
    sorted := [];
    for i := 0 to |keys|
      invariant ListsExactly(sorted, set k | k in keys[..i])
    {
      InsertLists(sorted, keys[i], set k | k in keys[..i]);
      sorted := InsertKey(sorted, keys[i]);
      assert keys[..i + 1] == keys[..i] + [keys[i]];
    }
    assert keys[..|keys|] == keys;
  }

  // ----- a map for each add-on

  datatype Spaces = Spaces(spaces: map<Text, map<Text, Record>>, closed: bool) {
    function Of(addon: Text): map<Text, Record> {
      if addon in spaces then spaces[addon] else map[]
    }
  }

  ghost function SpacesStep(s: Spaces, op: Op): (Spaces, Result) {
    if s.closed && !op.Close? then (s, Closed)
    else
      match op
      case Get(a, k) => (s, Found(if k in s.Of(a) then Some(s.Of(a)[k]) else None))
      case Put(a, k, r) => (s.(spaces := s.spaces[a := s.Of(a)[k := r]]), Done)
      case Delete(a, k) => (s.(spaces := s.spaces[a := s.Of(a) - {k}]), Done)
      case List(a) => (s, Keys(Listed(s.Of(a).Keys)))
      case Clear(a) => (s.(spaces := s.spaces - {a}), Done)
      case Close => (Spaces(map[], true), Done)
  }

  /** No id of the set is another one with a space and more appended. */
  ghost predicate Separated(ids: set<Text>) {
    forall a, b :: a in ids && b in ids ==> !(Prefix(a) <= b)
  }

  lemma LongerExtends(a: Text, k: Text, b: Text, k': Text)
    requires NamespaceKey(a, k) == NamespaceKey(b, k') && |a| < |b|
    ensures Prefix(a) <= b
  {
    assert NamespaceKey(a, k)[..|a| + 1] == Prefix(a) && NamespaceKey(b, k')[..|a| + 1] == b[..|a| + 1];
  }

  lemma SameLength(a: Text, k: Text, b: Text, k': Text)
    requires NamespaceKey(a, k) == NamespaceKey(b, k') && |a| == |b|
    ensures a == b && k == k'
  {
    assert NamespaceKey(a, k)[..|a|] == a && NamespaceKey(b, k')[..|b|] == b;
    assert NamespaceKey(a, k)[|a| + 1..] == k && NamespaceKey(b, k')[|b| + 1..] == k';
  }

  /** Two add-ons can share a stored key exactly when one id is the other with a space and more appended. */
  lemma KeysCollideExactly(a: Text, b: Text)
    requires a != b
    ensures (exists k, k' :: NamespaceKey(a, k) == NamespaceKey(b, k')) <==> Prefix(a) <= b || Prefix(b) <= a
  {
    if k, k' :| NamespaceKey(a, k) == NamespaceKey(b, k') {
      if |a| < |b| {
        LongerExtends(a, k, b, k');
      } else if |b| < |a| {
        LongerExtends(b, k', a, k);
      } else {
        SameLength(a, k, b, k');
      }
    }
    if Prefix(a) <= b {
      ExtendedShares(a, b, []);
    }
    if Prefix(b) <= a {
      ExtendedShares(b, a, []);
    }
  }

  /** A key of the longer id is a key of the shorter. */
  lemma ExtendedShares(a: Text, b: Text, key: Text)
    requires Prefix(a) <= b
    ensures NamespaceKey(b, key) == NamespaceKey(a, b[|a| + 1..] + [SEPARATOR] + key)
  {
    assert b == Prefix(a) + b[|a| + 1..];
  }

  lemma KeysUnique(ids: set<Text>, a: Text, k: Text, b: Text, k': Text)
    requires Separated(ids) && a in ids && b in ids
    ensures NamespaceKey(a, k) == NamespaceKey(b, k') <==> a == b && k == k'
  {
    if NamespaceKey(a, k) == NamespaceKey(b, k') {
      if a == b {
        SameLength(a, k, b, k');
      } else {
        KeysCollideExactly(a, b);
      }
    }
  }

  lemma ExtendedHasSpace(a: Text, b: Text)
    requires Prefix(a) <= b
    ensures SEPARATOR in b
  {
    assert b[|a|] == Prefix(a)[|a|] == SEPARATOR;
  }

  /** Ids without a space are separated, as reverse domain names are. */
  lemma SpaceFreeSeparated(ids: set<Text>)
    requires forall a :: a in ids ==> SEPARATOR !in a
    ensures Separated(ids)
  {
    forall a, b | a in ids && b in ids ensures !(Prefix(a) <= b) {
      if Prefix(a) <= b {
        ExtendedHasSpace(a, b);
      }
    }
  }

  lemma KeyStarts(addon: Text, key: Text)
    ensures StartsWith(NamespaceKey(addon, key), Prefix(addon)) && Rest(NamespaceKey(addon, key), Prefix(addon)) == key
  {
    assert NamespaceKey(addon, key) == Prefix(addon) + key;
  }

  lemma StartsIsKey(addon: Text, n: Text)
    requires StartsWith(n, Prefix(addon))
    ensures n == NamespaceKey(addon, Rest(n, Prefix(addon)))
  {
    assert n == Prefix(addon) + Rest(n, Prefix(addon));
  }

  ghost predicate Holds(f: Flat, s: Spaces, a: Text, k: Text) {
    && (NamespaceKey(a, k) in f.records <==> k in s.Of(a))
    && (k in s.Of(a) ==> f.records[NamespaceKey(a, k)] == s.Of(a)[k])
  }

  /** A key of the flat map belongs to an add-on. */
  ghost predicate Owned(ids: set<Text>, n: Text) {
    exists a, k :: a in ids && n == NamespaceKey(a, k)
  }

  /** The flat map holds, under the prefixed keys, what the map of each add-on holds, and nothing else. */
  ghost predicate Same(ids: set<Text>, f: Flat, s: Spaces) {
    && f.closed == s.closed
    && (forall n :: n in f.records ==> Owned(ids, n))
    && forall a, k :: a in ids ==> Holds(f, s, a, k)
  }

  predicate OpIn(ids: set<Text>, op: Op) {
    op.Close? || op.addon in ids
  }

  predicate OpsIn(ids: set<Text>, ops: seq<Op>) {
    forall i :: 0 <= i < |ops| ==> OpIn(ids, ops[i])
  }

  lemma PutSame(ids: set<Text>, f: Flat, s: Spaces, addon: Text, key: Text, r: Record)
    requires Separated(ids) && Same(ids, f, s) && !f.closed && addon in ids
    ensures Same(ids, FlatStep(f, Put(addon, key, r)).0, SpacesStep(s, Put(addon, key, r)).0)
  {
    var f', s' := FlatStep(f, Put(addon, key, r)).0, SpacesStep(s, Put(addon, key, r)).0;
    assert Owned(ids, NamespaceKey(addon, key));
    forall a, k | a in ids ensures Holds(f', s', a, k) {
      KeysUnique(ids, addon, key, a, k);
      assert Holds(f, s, a, k);
    }
  }

  lemma DeleteSame(ids: set<Text>, f: Flat, s: Spaces, addon: Text, key: Text)
    requires Separated(ids) && Same(ids, f, s) && !f.closed && addon in ids
    ensures Same(ids, FlatStep(f, Delete(addon, key)).0, SpacesStep(s, Delete(addon, key)).0)
  {
    var f', s' := FlatStep(f, Delete(addon, key)).0, SpacesStep(s, Delete(addon, key)).0;
    forall a, k | a in ids ensures Holds(f', s', a, k) {
      KeysUnique(ids, addon, key, a, k);
      assert Holds(f, s, a, k);
    }
  }

  lemma ClearSame(ids: set<Text>, f: Flat, s: Spaces, addon: Text)
    requires Separated(ids) && Same(ids, f, s) && !f.closed && addon in ids
    ensures Same(ids, FlatStep(f, Clear(addon)).0, SpacesStep(s, Clear(addon)).0)
  {
    var f', s' := FlatStep(f, Clear(addon)).0, SpacesStep(s, Clear(addon)).0;
    forall a, k | a in ids ensures Holds(f', s', a, k) {
      assert Holds(f, s, a, k);
      var n := NamespaceKey(a, k);
      KeyStarts(a, k);
      if StartsWith(n, Prefix(addon)) {
        StartsIsKey(addon, n);
        KeysUnique(ids, addon, Rest(n, Prefix(addon)), a, k);
      }
    }
  }

  lemma SlicesSame(ids: set<Text>, f: Flat, s: Spaces, addon: Text)
    requires Separated(ids) && Same(ids, f, s) && addon in ids
    ensures Slices(f.records, Prefix(addon)) == s.Of(addon).Keys
  {
    forall k | k in Slices(f.records, Prefix(addon)) ensures k in s.Of(addon).Keys {
      var n :| n in f.records && StartsWith(n, Prefix(addon)) && Rest(n, Prefix(addon)) == k;
      StartsIsKey(addon, n);
      assert Holds(f, s, addon, k);
    }
    forall k | k in s.Of(addon).Keys ensures k in Slices(f.records, Prefix(addon)) {
      assert Holds(f, s, addon, k);
      KeyStarts(addon, k);
    }
  }

  /** One operation gives the same result on the flat map and on the maps of the add-ons, and keeps them the same. */
  lemma StepSame(ids: set<Text>, f: Flat, s: Spaces, op: Op)
    requires Separated(ids) && Same(ids, f, s) && OpIn(ids, op)
    ensures FlatStep(f, op).1 == SpacesStep(s, op).1
    ensures Same(ids, FlatStep(f, op).0, SpacesStep(s, op).0)
  {
    if !f.closed {
      match op
      case Get(a, k) => assert Holds(f, s, a, k);
      case Put(a, k, r) => PutSame(ids, f, s, a, k, r);
      case Delete(a, k) => DeleteSame(ids, f, s, a, k);
      case List(a) => SlicesSame(ids, f, s, a);
      case Clear(a) => ClearSame(ids, f, s, a);
      case Close =>
    }
  }

  ghost function FlatRun(f: Flat, ops: seq<Op>): seq<Result>
    decreases ops
  {
    if ops == [] then [] else [FlatStep(f, ops[0]).1] + FlatRun(FlatStep(f, ops[0]).0, ops[1..])
  }

  ghost function SpacesRun(s: Spaces, ops: seq<Op>): seq<Result>
    decreases ops
  {
    if ops == [] then [] else [SpacesStep(s, ops[0]).1] + SpacesRun(SpacesStep(s, ops[0]).0, ops[1..])
  }

  lemma {:induction false} RunSame(ids: set<Text>, f: Flat, s: Spaces, ops: seq<Op>)
    requires Separated(ids) && Same(ids, f, s) && OpsIn(ids, ops)
    ensures FlatRun(f, ops) == SpacesRun(s, ops)
    decreases |ops|
  {
    if ops != [] {
      StepSame(ids, f, s, ops[0]);
      RunSame(ids, FlatStep(f, ops[0]).0, SpacesStep(s, ops[0]).0, ops[1..]);
    }
  }

  lemma FlatRefinesSpaces(ids: set<Text>, ops: seq<Op>)
    requires Separated(ids) && OpsIn(ids, ops)
    ensures FlatRun(Flat(map[], false), ops) == SpacesRun(Spaces(map[], false), ops)
  {
    RunSame(ids, Flat(map[], false), Spaces(map[], false), ops);
  }

  ghost predicate Refines(ids: set<Text>) {
    forall ops :: OpsIn(ids, ops) ==> FlatRun(Flat(map[], false), ops) == SpacesRun(Spaces(map[], false), ops)
  }

  lemma OneOp(f: Flat, s: Spaces, op: Op)
    ensures FlatRun(f, [op]) == [FlatStep(f, op).1] && SpacesRun(s, [op]) == [SpacesStep(s, op).1]
  {
    assert [op][1..] == [];
    assert FlatRun(FlatStep(f, op).0, []) == [] && SpacesRun(SpacesStep(s, op).0, []) == [];
  }

  lemma TwoOps(f: Flat, s: Spaces, op: Op, op': Op)
    ensures FlatRun(f, [op, op']) == [FlatStep(f, op).1, FlatStep(FlatStep(f, op).0, op').1]
    ensures SpacesRun(s, [op, op']) == [SpacesStep(s, op).1, SpacesStep(SpacesStep(s, op).0, op').1]
  {
    OneOp(FlatStep(f, op).0, SpacesStep(s, op).0, op');
    assert [op, op'][1..] == [op'];
  }

  /** What one add-on puts another one gets. */
  lemma PutThenGet(ids: set<Text>, a: Text, b: Text, r: Record) returns (ops: seq<Op>)
    requires a in ids && b in ids && Prefix(a) <= b
    ensures OpsIn(ids, ops) && FlatRun(Flat(map[], false), ops) != SpacesRun(Spaces(map[], false), ops)
  {
    var key := b[|a| + 1..] + [SEPARATOR];
    var put, get := Put(b, [], r), Get(a, key);
    ops := [put, get];
    ExtendedShares(a, b, []);
    assert key + [] == key;
    var f, s := Flat(map[], false), Spaces(map[], false);
    TwoOps(f, s, put, get);
    assert FlatStep(FlatStep(f, put).0, get).1 == Found(Some(r));
    assert SpacesStep(SpacesStep(s, put).0, get).1 == Found(None);
  }

  /**
   * The flat map is a map for each add-on exactly for the right ids: every run of
   * operations of these add-ons gives the results of the same run on a map for each
   * of them, with listings sorted and complete and clearing or writing seen by one
   * add-on only, if and only if no id is another with a space and more appended.
   */
  lemma RefinesExactly(ids: set<Text>)
    ensures Refines(ids) <==> Separated(ids)
  {
    if Separated(ids) {
      forall ops | OpsIn(ids, ops) ensures FlatRun(Flat(map[], false), ops) == SpacesRun(Spaces(map[], false), ops) {
        FlatRefinesSpaces(ids, ops);
      }
    } else {
      var a, b :| a in ids && b in ids && Prefix(a) <= b;
      var ops := PutThenGet(ids, a, b, Record("", 0));
    }
  }

  // ----- the key range of the IndexedDB store

  /** `IDBKeyRange.bound(prefix, prefix + U+FFFF)`, both ends included. */
  predicate InRange(n: Text, prefix: Text) {
    !LexLess(n, prefix) && !LexLess(prefix + [LAST_UNIT], n)
  }

  /** A key that comes after the key consisting of U+FFFF alone. */
  predicate BeyondRange(key: Text) {
    |key| > 1 && key[0] == LAST_UNIT
  }

  /** The range selects exactly the keys with the prefix, except those that continue U+FFFF. */
  lemma {:induction false} RangeExactly(n: Text, prefix: Text)
    ensures InRange(n, prefix) <==> StartsWith(n, prefix) && !BeyondRange(Rest(n, prefix))
    decreases |prefix|
  {
    var upper := prefix + [LAST_UNIT];
    if prefix == [] {
      RangeOfEmpty(n);
    } else if n != [] {
      assert upper[0] == prefix[0] && upper[1..] == prefix[1..] + [LAST_UNIT];
      if n[0] == prefix[0] {
        RangeExactly(n[1..], prefix[1..]);
        assert StartsWith(n, prefix) <==> StartsWith(n[1..], prefix[1..]) by {
          assert n == [n[0]] + n[1..] && prefix == [prefix[0]] + prefix[1..];
        }
        assert StartsWith(n, prefix) ==> Rest(n, prefix) == Rest(n[1..], prefix[1..]);
      }
    }
  }

  lemma RangeOfEmpty(n: Text)
    ensures InRange(n, []) <==> !BeyondRange(n)
    ensures StartsWith(n, []) && Rest(n, []) == n
  {
    assert [] + [LAST_UNIT] == [LAST_UNIT];
    assert [LAST_UNIT][1..] == [];
    if n != [] && n[0] == LAST_UNIT {
      assert LexLess([LAST_UNIT], n) <==> LexLess([], n[1..]);
    }
  }

  /** `slice(i)` */
  function From(n: Text, i: nat): Text {
    if i <= |n| then n[i..] else []
  }

  function RangeSlices(m: map<Text, Record>, prefix: Text): set<Text> {
    set n | n in m && InRange(n, prefix) :: From(n, |prefix|)
  }

  function OutsideRange(m: map<Text, Record>, prefix: Text): map<Text, Record> {
    map n | n in m && !InRange(n, prefix) :: m[n]
  }

  /** The same operations with listing and clearing by key range. */
  ghost function RangeStep(f: Flat, op: Op): (Flat, Result) {
    if !f.closed && op.List? then (f, Keys(Listed(RangeSlices(f.records, Prefix(op.addon)))))
    else if !f.closed && op.Clear? then (f.(records := OutsideRange(f.records, Prefix(op.addon))), Done)
    else FlatStep(f, op)
  }

  ghost function RangeRun(f: Flat, ops: seq<Op>): seq<Result>
    decreases ops
  {
    if ops == [] then [] else [RangeStep(f, ops[0]).1] + RangeRun(RangeStep(f, ops[0]).0, ops[1..])
  }

  /** No key that belongs to an add-on continues U+FFFF. */
  ghost predicate WithinRange(ids: set<Text>, f: Flat) {
    forall n :: n in f.records ==> OwnedWithin(ids, n)
  }

  ghost predicate OwnedWithin(ids: set<Text>, n: Text) {
    exists a, k :: a in ids && n == NamespaceKey(a, k) && !BeyondRange(k)
  }

  predicate OpWithin(ids: set<Text>, op: Op) {
    OpIn(ids, op) && (op.Put? ==> !BeyondRange(op.key))
  }

  lemma RangeIsPrefix(ids: set<Text>, n: Text, addon: Text)
    requires Separated(ids) && OwnedWithin(ids, n) && addon in ids
    ensures InRange(n, Prefix(addon)) <==> StartsWith(n, Prefix(addon))
    ensures InRange(n, Prefix(addon)) ==> From(n, |Prefix(addon)|) == Rest(n, Prefix(addon))
  {
    RangeExactly(n, Prefix(addon));
    if StartsWith(n, Prefix(addon)) {
      var a, k :| a in ids && n == NamespaceKey(a, k) && !BeyondRange(k);
      StartsIsKey(addon, n);
      KeysUnique(ids, addon, Rest(n, Prefix(addon)), a, k);
    }
  }

  lemma RangeStepSame(ids: set<Text>, f: Flat, op: Op)
    requires Separated(ids) && WithinRange(ids, f) && OpWithin(ids, op)
    ensures RangeStep(f, op) == FlatStep(f, op) && WithinRange(ids, FlatStep(f, op).0)
  {
    if !f.closed {
      match op
      case List(a) =>
        forall n | n in f.records ensures InRange(n, Prefix(a)) <==> StartsWith(n, Prefix(a))
          ensures InRange(n, Prefix(a)) ==> From(n, |Prefix(a)|) == Rest(n, Prefix(a))
        {
          RangeIsPrefix(ids, n, a);
        }
        assert RangeSlices(f.records, Prefix(a)) == Slices(f.records, Prefix(a));
      case Clear(a) =>
        forall n | n in f.records ensures InRange(n, Prefix(a)) <==> StartsWith(n, Prefix(a)) {
          RangeIsPrefix(ids, n, a);
        }
        assert OutsideRange(f.records, Prefix(a)) == Outside(f.records, Prefix(a));
      case Put(a, k, r) => assert OwnedWithin(ids, NamespaceKey(a, k));
      case _ =>
    }
  }

  lemma {:induction false} RangeRunSame(ids: set<Text>, f: Flat, ops: seq<Op>)
    requires Separated(ids) && WithinRange(ids, f) && forall i :: 0 <= i < |ops| ==> OpWithin(ids, ops[i])
    ensures RangeRun(f, ops) == FlatRun(f, ops)
    decreases |ops|
  {
    if ops != [] {
      RangeStepSame(ids, f, ops[0]);
      RangeRunSame(ids, FlatStep(f, ops[0]).0, ops[1..]);
    }
  }

  /**
   * As long as no stored key continues U+FFFF, every run on the IndexedDB store gives
   * the results of the same run in memory.
   */
  lemma RangeRefinesPrefix(ids: set<Text>, ops: seq<Op>)
    requires Separated(ids) && forall i :: 0 <= i < |ops| ==> OpWithin(ids, ops[i])
    ensures RangeRun(Flat(map[], false), ops) == FlatRun(Flat(map[], false), ops)
  {
    RangeRunSame(ids, Flat(map[], false), ops);
  }

  /** A key that continues U+FFFF is stored and found, but clearing leaves it there. */
  lemma BeyondRangeSurvives(addon: Text, key: Text, r: Record)
    requires BeyondRange(key)
    ensures
      var f := RangeStep(Flat(map[], false), Put(addon, key, r)).0;
      RangeStep(RangeStep(f, Clear(addon)).0, Get(addon, key)).1 == Found(Some(r))
  {
    KeyStarts(addon, key);
    RangeExactly(NamespaceKey(addon, key), Prefix(addon));
  }

  // ----- what the store says

  /** A stored key is the add-on's id, a space and the key. */
  lemma KeySays(addon: Text, key: Text)
    ensures NamespaceKey(addon, key) == addon + [0x20] + key
    ensures addon + [0x20] == Prefix(addon)
    ensures StartsWith(NamespaceKey(addon, key), addon + [0x20]) && Rest(NamespaceKey(addon, key), addon + [0x20]) == key
  {
  }

  /** The range ends at U+FFFF behind the prefix, which leaves out the keys that go on behind it. */
  lemma RangeSays(n: Text, prefix: Text)
    ensures InRange(n, prefix) <==> prefix <= n && !(|n| > |prefix| + 1 && n[|prefix|] == 0xFFFF)
  {
    RangeExactly(n, prefix);
  }

  /** A step and the record that a key has afterwards, for any stored key. */
  ghost function RecordAfter(f: Flat, op: Op, n: Text): Option<Record> {
    var after := FlatStep(f, op).0.records;
    if n in after then Some(after[n]) else None
  }

  /**
   * Writing sets one record, deleting removes one, clearing removes those whose key
   * starts with the add-on's id and a space, closing removes all; reading and listing
   * change nothing. A closed store refuses everything but being closed again.
   */
  lemma StepSays(f: Flat, op: Op, n: Text)
    ensures f.closed && !op.Close? ==> FlatStep(f, op) == (f, Closed)
    ensures !f.closed && !op.Close? ==> !FlatStep(f, op).0.closed && FlatStep(f, op).1 != Closed
    ensures !f.closed && (op.Get? || op.List?) ==> FlatStep(f, op).0 == f
    ensures !f.closed && op.Put? ==>
              RecordAfter(f, op, n) == if n == op.addon + [0x20] + op.key then Some(op.record)
                                       else if n in f.records then Some(f.records[n]) else None
    ensures !f.closed && op.Delete? ==>
              RecordAfter(f, op, n) == if n == op.addon + [0x20] + op.key || n !in f.records then None else Some(f.records[n])
    ensures !f.closed && op.Clear? ==>
              RecordAfter(f, op, n) == if op.addon + [0x20] <= n || n !in f.records then None else Some(f.records[n])
    ensures op.Close? ==> FlatStep(f, op).0 == Flat(map[], true) && FlatStep(f, op).1 == Done
  {
  }

  /**
   * Reading gives the record under the add-on's id, a space and the key; listing gives,
   * in ascending order, what follows the id and the space in the keys that start so.
   */
  lemma ResultSays(f: Flat, addon: Text, key: Text)
    requires !f.closed
    ensures
      var n := addon + [0x20] + key;
      FlatStep(f, Get(addon, key)).1 == Found(if n in f.records then Some(f.records[n]) else None)
    ensures FlatStep(f, List(addon)).1.Keys? && Ascending(FlatStep(f, List(addon)).1.keys)
    ensures key in FlatStep(f, List(addon)).1.keys <==> addon + [0x20] + key in f.records
  {
    var prefix := Prefix(addon);
    var keys := FlatStep(f, List(addon)).1.keys;
    assert ListsExactly(keys, Slices(f.records, prefix));
    var n := addon + [0x20] + key;
    assert StartsWith(n, prefix) && Rest(n, prefix) == key;
    if key in keys {
      var k :| k in f.records && StartsWith(k, prefix) && Rest(k, prefix) == key;
      assert k == prefix + k[|prefix|..];
    }
  }
}
