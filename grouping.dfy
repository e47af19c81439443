/** `groupSnagsByRoom` and `groupSnagsByTrade` of the document generator: a
    `reduce` that pushes each snag onto the array stored under its key in a
    plain object, and the order in which `Object.entries` lists that object. */
module Grouping {
  import opened Common
  import opened Records
  import opened JsString
  import opened Sorting

  const UNASSIGNED: string := "Unassigned"

  /** The property names every plain object inherits from `Object.prototype`.
      For such a key `acc[key]` is already truthy (a function, or the
      prototype itself for `__proto__`), so no array is created and `push`
      throws a TypeError. */
  const INHERITED: set<string> := {
    "constructor", "__proto__", "__defineGetter__", "__defineSetter__",
    "__lookupGetter__", "__lookupSetter__", "hasOwnProperty", "isPrototypeOf",
    "propertyIsEnumerable", "toLocaleString", "toString", "valueOf"}

  /** Which column the snags are grouped by. */
  datatype Field = Room | Trade

  /** `snag.room || 'Unassigned'`, `snag.suggestedTrade || 'Unassigned'`. */
  function GroupKey(s: Snag, field: Field): (k: string)
    ensures k != ""
  {
    match field
    case Room => OrDefault(s.room, UNASSIGNED)
    case Trade => OrDefault(s.suggestedTrade, UNASSIGNED)
  }

  /** The accumulator object: its own keys in insertion order and the array
      under each key. */
  datatype Groups = Groups(keys: seq<string>, members: map<string, seq<Snag>>)

  ghost predicate WellFormed(g: Groups) {
    && (forall i, j :: 0 <= i < j < |g.keys| ==> g.keys[i] != g.keys[j])
    && (forall k :: k in g.members <==> k in g.keys)
  }

  function KeysOf(ss: seq<Snag>, field: Field): (ks: seq<string>)
    ensures |ks| == |ss|
    ensures forall j :: 0 <= j < |ss| ==> ks[j] == GroupKey(ss[j], field)
  {
    seq(|ss|, j requires 0 <= j < |ss| => GroupKey(ss[j], field))
  }

  /** The snags with key `k`, in input order. */
  function Members(ss: seq<Snag>, k: string, field: Field): (r: seq<Snag>)
    ensures forall j :: 0 <= j < |r| ==> GroupKey(r[j], field) == k && r[j] in ss
    ensures k !in KeysOf(ss, field) ==> r == []
    decreases |ss|
  {
    if ss == [] then []
    else
      var init := ss[..|ss| - 1];
      var last := ss[|ss| - 1];
      assert forall j :: 0 <= j < |init| ==> KeysOf(init, field)[j] == KeysOf(ss, field)[j];
      if GroupKey(last, field) == k then Members(init, k, field) + [last] else Members(init, k, field)
  }

  /** One call of the `reduce` callback: `None` when `push` throws. */
  function Add(g: Groups, s: Snag, field: Field): Option<Groups> {
    var k := GroupKey(s, field);
    if k in INHERITED then None
    else if k in g.members then Some(Groups(g.keys, g.members[k := g.members[k] + [s]]))
    else Some(Groups(g.keys + [k], g.members[k := [s]]))
  }

  ghost predicate GroupsOf(g: Groups, ss: seq<Snag>, field: Field) {
    && WellFormed(g)
    && (forall k :: k in g.members <==> k in KeysOf(ss, field))
    && (forall k :: k in g.members ==> g.members[k] == Members(ss, k, field))
  }

  lemma AddStep(init: seq<Snag>, s: Snag, g: Groups, field: Field)
    requires GroupsOf(g, init, field)
    requires Add(g, s, field).Some?
    ensures GroupsOf(Add(g, s, field).value, init + [s], field)
  {
    AddKeys(init, s, g, field);
    AddMembers(init, s, g, field);
  }

  /** The step keeps the keys distinct and in step with the snags' keys. */
  lemma AddKeys(init: seq<Snag>, s: Snag, g: Groups, field: Field)
    requires GroupsOf(g, init, field)
    requires Add(g, s, field).Some?
    ensures WellFormed(Add(g, s, field).value)
    ensures forall k :: k in Add(g, s, field).value.members <==> k in KeysOf(init + [s], field)
  {
    assert KeysOf(init + [s], field) == KeysOf(init, field) + [GroupKey(s, field)];
  }

  /** The step appends the snag to its own group and to no other. */
  lemma AddMembers(init: seq<Snag>, s: Snag, g: Groups, field: Field)
    requires GroupsOf(g, init, field)
    requires Add(g, s, field).Some?
    ensures var h := Add(g, s, field).value;
            forall k :: k in h.members ==> h.members[k] == Members(init + [s], k, field)
  {
    var ss := init + [s];
    var k := GroupKey(s, field);
    assert ss[..|ss| - 1] == init;
    var h := Add(g, s, field).value;
    forall k' | k' in h.members ensures h.members[k'] == Members(ss, k', field) {
      if k' != k {
        assert k' in g.members;
      }
    }
  }

  /** The `reduce`: `None` when it throws. */
  function GroupFold(ss: seq<Snag>, field: Field): Option<Groups>
    decreases |ss|
  {
    if ss == [] then Some(Groups([], map[]))
    else
      match GroupFold(ss[..|ss| - 1], field)
      case None => None
      case Some(g) => Add(g, ss[|ss| - 1], field)
  }

  /** Every snag sits in the group of its key, in input order, and the groups
      are exactly the keys that occur, each listed once. */
  lemma {:induction false} GroupFoldShape(ss: seq<Snag>, field: Field)
    requires GroupFold(ss, field).Some?
    ensures GroupsOf(GroupFold(ss, field).value, ss, field)
    decreases |ss|
  {
    if ss != [] {
      var init := ss[..|ss| - 1];
      var s := ss[|ss| - 1];
      assert ss == init + [s];
      GroupFoldShape(init, field);
      AddStep(init, s, GroupFold(init, field).value, field);
    }
  }

  predicate Throws(ss: seq<Snag>, field: Field) {
    exists j :: 0 <= j < |ss| && GroupKey(ss[j], field) in INHERITED
  }

  /** The grouping throws exactly when some snag's key is inherited. */
  lemma {:induction false} GroupFoldThrows(ss: seq<Snag>, field: Field)
    ensures GroupFold(ss, field).None? <==> Throws(ss, field)
    decreases |ss|
  {
    if ss != [] {
      var init := ss[..|ss| - 1];
      GroupFoldThrows(init, field);
      assert forall j :: 0 <= j < |init| ==> init[j] == ss[j];
      if Throws(ss, field) && !Throws(init, field) {
        assert GroupKey(ss[|ss| - 1], field) in INHERITED;
      }
    }
  }

  /** The group stored under `k`, empty when there is none. */
  function GroupAt(members: map<string, seq<Snag>>, k: string): seq<Snag> {
    if k in members then members[k] else []
  }

  /** The groups in a given key order, concatenated. */
  function Flatten(keys: seq<string>, members: map<string, seq<Snag>>): seq<Snag>
    decreases |keys|
  {
    if keys == [] then [] else GroupAt(members, keys[0]) + Flatten(keys[1..], members)
  }

  lemma {:induction false} FlattenAppend(a: seq<string>, b: seq<string>, m: map<string, seq<Snag>>)
    ensures Flatten(a + b, m) == Flatten(a, m) + Flatten(b, m)
    decreases |a|
  {
    if a == [] {
      assert a + b == b;
    } else {
      assert (a + b)[1..] == a[1..] + b;
      FlattenAppend(a[1..], b, m);
    }
  }

  lemma {:induction false} FlattenUpdateAbsent(keys: seq<string>, m: map<string, seq<Snag>>, k: string, v: seq<Snag>)
    requires k !in keys
    ensures Flatten(keys, m[k := v]) == Flatten(keys, m)
    decreases |keys|
  {
    if keys != [] {
      FlattenUpdateAbsent(keys[1..], m, k, v);
    }
  }

  lemma {:induction false} FlattenUpdateAppend(keys: seq<string>, m: map<string, seq<Snag>>, k: string, s: Snag)
    requires forall i, j :: 0 <= i < j < |keys| ==> keys[i] != keys[j]
    requires k in keys && k in m
    ensures multiset(Flatten(keys, m[k := m[k] + [s]])) == multiset(Flatten(keys, m)) + multiset{s}
    decreases |keys|
  {
    var m' := m[k := m[k] + [s]];
    if keys[0] == k {
      assert k !in keys[1..] by {
        forall j | 0 <= j < |keys[1..]| ensures keys[1..][j] != k {
          assert keys[1..][j] == keys[j + 1];
        }
      }
      FlattenUpdateAbsent(keys[1..], m, k, m[k] + [s]);
    } else {
      assert k in keys[1..] by {
        var j :| 0 <= j < |keys| && keys[j] == k;
        assert keys[1..][j - 1] == k;
      }
      FlattenUpdateAppend(keys[1..], m, k, s);
    }
  }

  /** The concatenation of the groups, in insertion order, is a permutation
      of the input. */
  lemma {:induction false} GroupsArePermutation(ss: seq<Snag>, field: Field)
    requires GroupFold(ss, field).Some?
    ensures var g := GroupFold(ss, field).value;
            multiset(Flatten(g.keys, g.members)) == multiset(ss)
    decreases |ss|
  {
    if ss != [] {
      var init := ss[..|ss| - 1];
      var s := ss[|ss| - 1];
      assert ss == init + [s];
      var g := GroupFold(init, field).value;
      GroupsArePermutation(init, field);
      GroupFoldShape(init, field);
      var h := Add(g, s, field).value;
      var k := GroupKey(s, field);
      if k in g.members {
        FlattenUpdateAppend(g.keys, g.members, k, s);
      } else {
        FlattenAppend(g.keys, [k], h.members);
        FlattenUpdateAbsent(g.keys, g.members, k, [s]);
        assert Flatten([k], h.members) == [s] by {
          assert [k][1..] == [];
        }
      }
    }
  }

  /** The index of the first `k` in `ks`, `|ks|` when there is none. */
  function Position(ks: seq<string>, k: string): (p: nat)
    ensures p <= |ks|
    ensures p < |ks| <==> k in ks
    ensures p < |ks| ==> ks[p] == k
    ensures forall q :: 0 <= q < p ==> ks[q] != k
    decreases |ks|
  {
    if ks == [] then 0 else if ks[0] == k then 0 else 1 + Position(ks[1..], k)
  }

  lemma PositionSnoc(ks: seq<string>, x: string, k: string)
    requires k in ks
    ensures Position(ks + [x], k) == Position(ks, k)
  {
    var p := Position(ks, k);
    var p' := Position(ks + [x], k);
    assert (ks + [x])[p] == k;
    if p' < p {
      assert ks[p'] == k;
    }
  }

  /** The keys of `keys` occur in `ks` and in this order. */
  ghost predicate InOrderOf(ks: seq<string>, keys: seq<string>) {
    forall i, j :: 0 <= i < j < |keys| ==> Position(ks, keys[i]) < Position(ks, keys[j])
  }

  lemma OrderSnoc(before: seq<string>, k: string, keys: seq<string>)
    requires forall x :: x in keys ==> x in before
    requires InOrderOf(before, keys)
    ensures InOrderOf(before + [k], keys)
    ensures k !in before ==> InOrderOf(before + [k], keys + [k])
  {
    var ks := before + [k];
    forall i | 0 <= i < |keys| ensures Position(ks, keys[i]) == Position(before, keys[i]) < |before| {
      PositionSnoc(before, k, keys[i]);
    }
    if k !in before {
      assert Position(ks, k) == |before| by {
        assert ks[|before|] == k;
      }
      var h := keys + [k];
      forall i, j | 0 <= i < j < |h| ensures Position(ks, h[i]) < Position(ks, h[j]) {
        assert h[i] == keys[i];
        if j < |keys| {
          assert h[j] == keys[j];
        }
      }
    }
  }

  /** Groups are listed in the order their keys first occur in the input. */
  lemma {:induction false} KeysInFirstOccurrenceOrder(ss: seq<Snag>, field: Field)
    requires GroupFold(ss, field).Some?
    ensures InOrderOf(KeysOf(ss, field), GroupFold(ss, field).value.keys)
    decreases |ss|
  {
    if ss != [] {
      var init := ss[..|ss| - 1];
      var s := ss[|ss| - 1];
      assert ss == init + [s];
      var g := GroupFold(init, field).value;
      KeysInFirstOccurrenceOrder(init, field);
      GroupFoldShape(init, field);
      var k := GroupKey(s, field);
      assert KeysOf(ss, field) == KeysOf(init, field) + [k];
      OrderSnoc(KeysOf(init, field), k, g.keys);
    }
  }

  /** `Object.entries` order: array-index keys in ascending numeric order,
      then the other keys in insertion order. */
  function IndexValue(k: string): int {
    if AllDigits(k) then DecimalValue(k) else 0
  }

  function IndexKeys(ks: seq<string>): (r: seq<string>)
    ensures forall j :: 0 <= j < |r| ==> IsArrayIndex(r[j])
    decreases |ks|
  {
    if ks == [] then []
    else if IsArrayIndex(ks[0]) then [ks[0]] + IndexKeys(ks[1..]) else IndexKeys(ks[1..])
  }

  function NamedKeys(ks: seq<string>): (r: seq<string>)
    ensures forall j :: 0 <= j < |r| ==> !IsArrayIndex(r[j])
    decreases |ks|
  {
    if ks == [] then []
    else if IsArrayIndex(ks[0]) then NamedKeys(ks[1..]) else [ks[0]] + NamedKeys(ks[1..])
  }

  lemma {:induction false} KeysPartition(ks: seq<string>)
    ensures multiset(IndexKeys(ks)) + multiset(NamedKeys(ks)) == multiset(ks)
    decreases |ks|
  {
    if ks != [] {
      KeysPartition(ks[1..]);
      assert ks == [ks[0]] + ks[1..];
    }
  }

  function Entries(ks: seq<string>): (r: seq<string>)
    ensures multiset(r) == multiset(ks)
  {
    KeysPartition(ks);
    SortBy(IndexKeys(ks), IndexValue) + NamedKeys(ks)
  }

  /** Index keys come first and in numeric order; the rest keep insertion
      order. */
  lemma EntriesOrder(ks: seq<string>)
    ensures var r := Entries(ks);
            var n := |IndexKeys(ks)|;
            && n <= |r|
            && (forall j :: 0 <= j < n ==> IsArrayIndex(r[j]))
            && (forall i, j :: 0 <= i < j < n ==> IndexValue(r[i]) <= IndexValue(r[j]))
            && r[n..] == NamedKeys(ks)
  {
    var sorted := SortBy(IndexKeys(ks), IndexValue);
    var n := |IndexKeys(ks)|;
    assert |sorted| == |multiset(sorted)| == n;
    forall j | 0 <= j < n ensures IsArrayIndex(Entries(ks)[j]) {
      assert sorted[j] in multiset(IndexKeys(ks));
    }
  }

  lemma {:induction false} NoIndexKeys(ks: seq<string>)
    requires forall j :: 0 <= j < |ks| ==> !IsArrayIndex(ks[j])
    ensures IndexKeys(ks) == [] && NamedKeys(ks) == ks
    decreases |ks|
  {
    if ks != [] {
      NoIndexKeys(ks[1..]);
      assert ks == [ks[0]] + ks[1..];
    }
  }

  /** With no array-index key, entries are in insertion order. */
  lemma EntriesWithoutIndexKeys(ks: seq<string>)
    requires forall j :: 0 <= j < |ks| ==> !IsArrayIndex(ks[j])
    ensures Entries(ks) == ks
  {
    NoIndexKeys(ks);
    assert SortBy([], IndexValue) == [];
  }

  /** An array-index key listed after a named key is moved in front of it. */
  lemma IndexKeyFirst()
    ensures Entries(["Kitchen", "2"]) == ["2", "Kitchen"]
  {
    assert IsArrayIndex("2") by {
      assert DecimalValue("2") == 2 by { assert "2"[..0] == []; }
    }
    assert !IsArrayIndex("Kitchen");
    assert ["Kitchen", "2"][1..] == ["2"];
    assert ["2"][1..] == [];
    assert IndexKeys(["Kitchen", "2"]) == ["2"];
    assert NamedKeys(["Kitchen", "2"]) == ["Kitchen"];
    var sorted := SortBy(["2"], IndexValue);
    assert |sorted| == |multiset(sorted)| == 1;
    assert sorted[0] in multiset(["2"]);
  }

  lemma RemoveFirst(a: seq<string>, b: seq<string>, p: nat)
    requires a != [] && multiset(a) == multiset(b)
    requires p < |b| && b[p] == a[0]
    ensures multiset(a[1..]) == multiset(b[..p] + b[p + 1..])
  {
    var x, ma, mr := a[0], multiset(a[1..]), multiset(b[..p] + b[p + 1..]);
    assert a == [x] + a[1..];
    assert multiset(a) == ma + multiset{x};
    assert b == b[..p] + [x] + b[p + 1..];
    assert multiset(b) == mr + multiset{x};
    assert ma == multiset(a) - multiset{x};
    assert mr == multiset(b) - multiset{x};
  }

  lemma FlattenAround(b: seq<string>, p: nat, m: map<string, seq<Snag>>)
    requires p < |b|
    ensures multiset(Flatten(b, m)) == multiset(Flatten([b[p]], m)) + multiset(Flatten(b[..p] + b[p + 1..], m))
  {
    assert b == b[..p] + [b[p]] + b[p + 1..];
    FlattenAppend(b[..p] + [b[p]], b[p + 1..], m);
    FlattenAppend(b[..p], [b[p]], m);
    FlattenAppend(b[..p], b[p + 1..], m);
  }

  /** Listing the groups in another order of the same keys concatenates the
      same snags. */
  lemma {:induction false} FlattenPermutation(a: seq<string>, b: seq<string>, m: map<string, seq<Snag>>)
    requires multiset(a) == multiset(b)
    ensures multiset(Flatten(a, m)) == multiset(Flatten(b, m))
    decreases |a|
  {
    if a == [] {
      assert |b| == |multiset(b)| == 0;
    } else {
      var x := a[0];
      assert x in multiset(b);
      var p :| 0 <= p < |b| && b[p] == x;
      RemoveFirst(a, b, p);
      FlattenPermutation(a[1..], b[..p] + b[p + 1..], m);
      FlattenAround(b, p, m);
      assert a == [x] + a[1..];
      FlattenAppend([x], a[1..], m);
    }
  }

  /** The groups as the document lists them, concatenated, are a permutation
      of the input. */
  lemma ListedGroupsArePermutation(ss: seq<Snag>, field: Field)
    requires GroupFold(ss, field).Some?
    ensures var g := GroupFold(ss, field).value;
            multiset(Flatten(Entries(g.keys), g.members)) == multiset(ss)
  {
    var g := GroupFold(ss, field).value;
    GroupsArePermutation(ss, field);
    FlattenPermutation(g.keys, Entries(g.keys), g.members);
  }

  /** `snags.reduce(...)` with the accumulator updated in place. */
  method GroupSnags(snags: seq<Snag>, field: Field) returns (r: Option<Groups>)
    ensures r == GroupFold(snags, field)
  {
    var keys: seq<string> := [];
    var members: map<string, seq<Snag>> := map[];
    var i := 0;
    while i < |snags|
      invariant 0 <= i <= |snags|
      invariant GroupFold(snags[..i], field) == Some(Groups(keys, members))
    {
      ghost var before := Groups(keys, members);
      assert snags[..i + 1][..i] == snags[..i];
      var k := GroupKey(snags[i], field);
      if k in INHERITED {
        GroupFoldThrows(snags, field);
        return None;
      }
      if k !in members {
        keys := keys + [k];
        members := members[k := [snags[i]]];
      } else {
        members := members[k := members[k] + [snags[i]]];
      }
      assert Some(Groups(keys, members)) == Add(before, snags[i], field);
      i := i + 1;
    }
    assert snags[..i] == snags;
    r := Some(Groups(keys, members));
  }
}
