/**
 * The statistics pipeline of the `南墙统计` command (src/index.ts): the grouped count
 * of (nickname, version), its split into one bucket per version, the in-place stable
 * sort of each bucket by descending count, and the top-4-plus-Others dataset built
 * from each bucket.
 */
module Bucketing {
  import opened Wrappers

  // ---------------------------------------------------------------------------
  // Data
  // ---------------------------------------------------------------------------

  /** One joined (idol, record) row as the grouping sees it: the nickname and the record's version. */
  datatype Row = Row(name: string, version: string)

  /** One row of the grouped query: a nickname, a version and the number of its records. */
  datatype Group = Group(name: string, version: string, count: int)

  /** What is pushed into `versionMap[version]`: `{ name, count }`. */
  datatype Entry = Entry(name: string, count: int)

  /**
   * One chart dataset: its label (`title`) `Version <v>`, the slice labels its datalabels
   * formatter shows, and the slice values.
   */
  datatype Dataset = Dataset(title: string, labels: seq<string>, data: seq<int>)

  /** How many entries of a bucket are shown by name; the rest are folded into Others. */
  const Kept: nat := 4

  // ---------------------------------------------------------------------------
  // The grouped count: groupBy([nickname, version], { count: $.count(id) })
  // ---------------------------------------------------------------------------

  /** Number of rows with the given nickname and version. */
  function CountOf(rows: seq<Row>, name: string, version: string): nat {
    if rows == [] then 0
    else CountOf(rows[..|rows| - 1], name, version) +
         (if rows[|rows| - 1] == Row(name, version) then 1 else 0)
  }

  /** Number of rows with the given version. */
  function VersionCount(rows: seq<Row>, version: string): nat {
    if rows == [] then 0
    else VersionCount(rows[..|rows| - 1], version) +
         (if rows[|rows| - 1].version == version then 1 else 0)
  }

  lemma {:induction false} VersionCountConcat(a: seq<Row>, b: seq<Row>, version: string)
    ensures VersionCount(a + b, version) == VersionCount(a, version) + VersionCount(b, version)
  {
    if b == [] {
      assert a + b == a;
    } else {
      VersionCountConcat(a, b[..|b| - 1], version);
      assert (a + b)[..|a + b| - 1] == a + b[..|b| - 1];
    }
  }

  /** Whether some group has this (nickname, version) key. */
  predicate HasKey(groups: seq<Group>, name: string, version: string) {
    groups != [] &&
    ((groups[0].name == name && groups[0].version == version) || HasKey(groups[1..], name, version))
  }

  /** No two groups share a (nickname, version) key. */
  predicate KeysDistinct(groups: seq<Group>) {
    groups == [] ||
    (!HasKey(groups[1..], groups[0].name, groups[0].version) && KeysDistinct(groups[1..]))
  }

  /** The count of the group with this key, 0 when there is none. */
  function CountIn(groups: seq<Group>, name: string, version: string): int {
    if groups == [] then 0
    else if groups[0].name == name && groups[0].version == version then groups[0].count
    else CountIn(groups[1..], name, version)
  }

  predicate AllPositive(groups: seq<Group>) {
    forall i :: 0 <= i < |groups| ==> groups[i].count >= 1
  }

  /** Counts one more row into the groups: its key's group goes up by one, or a new group of 1 is appended. */
  function Tally(groups: seq<Group>, r: Row): seq<Group> {
    if groups == [] then [Group(r.name, r.version, 1)]
    else if groups[0].name == r.name && groups[0].version == r.version then
      [groups[0].(count := groups[0].count + 1)] + groups[1..]
    else [groups[0]] + Tally(groups[1..], r)
  }

  /** The grouped count of the rows, groups in the order their keys are first seen. */
  function GroupCounts(rows: seq<Row>): seq<Group> {
    if rows == [] then [] else Tally(GroupCounts(rows[..|rows| - 1]), rows[|rows| - 1])
  }

  lemma {:induction false} TallyKeys(groups: seq<Group>, r: Row, name: string, version: string)
    ensures HasKey(Tally(groups, r), name, version) <==>
            HasKey(groups, name, version) || (name == r.name && version == r.version)
  {
    if groups != [] && !(groups[0].name == r.name && groups[0].version == r.version) {
      TallyKeys(groups[1..], r, name, version);
      assert Tally(groups, r)[1..] == Tally(groups[1..], r);
    } else if groups != [] {
      assert Tally(groups, r)[1..] == groups[1..];
    }
  }

  lemma {:induction false} TallyDistinct(groups: seq<Group>, r: Row)
    requires KeysDistinct(groups)
    ensures KeysDistinct(Tally(groups, r))
  {
    if groups != [] {
      var t := Tally(groups, r);
      if groups[0].name == r.name && groups[0].version == r.version {
        assert t[1..] == groups[1..];
      } else {
        TallyDistinct(groups[1..], r);
        TallyKeys(groups[1..], r, groups[0].name, groups[0].version);
        assert t[1..] == Tally(groups[1..], r);
      }
    }
  }

  lemma {:induction false} TallyCount(groups: seq<Group>, r: Row, name: string, version: string)
    requires KeysDistinct(groups)
    ensures CountIn(Tally(groups, r), name, version) ==
            CountIn(groups, name, version) + (if Row(name, version) == r then 1 else 0)
  {
    if groups != [] {
      var t := Tally(groups, r);
      if groups[0].name == r.name && groups[0].version == r.version {
        assert t[1..] == groups[1..];
        if !(groups[0].name == name && groups[0].version == version) {
          assert Row(name, version) != r;
        }
      } else {
        TallyCount(groups[1..], r, name, version);
        assert t[1..] == Tally(groups[1..], r);
      }
    }
  }

  lemma {:induction false} TallyPositive(groups: seq<Group>, r: Row)
    requires AllPositive(groups)
    ensures AllPositive(Tally(groups, r))
  {
    if groups != [] && !(groups[0].name == r.name && groups[0].version == r.version) {
      TallyPositive(groups[1..], r);
      assert Tally(groups, r) == [groups[0]] + Tally(groups[1..], r);
    }
  }

  /**
   * The grouped count is exact: keys are distinct, every group has at least one row,
   * and the count of each (nickname, version) key is the number of rows with that key
   * (0, with no group, when there is none).
   */
  lemma {:induction false} GroupCountsExact(rows: seq<Row>)
    ensures KeysDistinct(GroupCounts(rows)) && AllPositive(GroupCounts(rows))
    ensures forall name, version :: CountIn(GroupCounts(rows), name, version) == CountOf(rows, name, version)
  {
    if rows != [] {
      var init := rows[..|rows| - 1];
      GroupCountsExact(init);
      TallyDistinct(GroupCounts(init), rows[|rows| - 1]);
      TallyPositive(GroupCounts(init), rows[|rows| - 1]);
      forall name, version
        ensures CountIn(GroupCounts(rows), name, version) == CountOf(rows, name, version)
      {
        TallyCount(GroupCounts(init), rows[|rows| - 1], name, version);
      }
    }
  }

  // ---------------------------------------------------------------------------
  // Buckets: versionMap
  // ---------------------------------------------------------------------------

  /** The entries of one version, in the order of the query result. */
  function BucketOf(groups: seq<Group>, version: string): seq<Entry> {
    if groups == [] then []
    else (if groups[0].version == version then [Entry(groups[0].name, groups[0].count)] else []) +
         BucketOf(groups[1..], version)
  }

  /** The distinct versions of the query result, in the order they are first seen. */
  function VersionsOf(groups: seq<Group>): seq<string> {
    if groups == [] then []
    else
      var p := VersionsOf(groups[..|groups| - 1]);
      if groups[|groups| - 1].version in p then p else p + [groups[|groups| - 1].version]
  }

  /** Each version of the result is listed once, and only versions of the result are listed. */
  lemma {:induction false} VersionsOfFacts(groups: seq<Group>)
    ensures forall i, j :: 0 <= i < j < |VersionsOf(groups)| ==> VersionsOf(groups)[i] != VersionsOf(groups)[j]
    ensures forall v :: v in VersionsOf(groups) <==> exists k :: 0 <= k < |groups| && groups[k].version == v
  {
    if groups != [] {
      var init, last := groups[..|groups| - 1], groups[|groups| - 1];
      VersionsOfFacts(init);
      assert forall k :: 0 <= k < |init| ==> init[k] == groups[k];
      var p := VersionsOf(init);
      assert VersionsOf(groups) == if last.version in p then p else p + [last.version];
      forall v | v in VersionsOf(groups)
        ensures exists k :: 0 <= k < |groups| && groups[k].version == v
      {
        if v in p {
          var k :| 0 <= k < |init| && init[k].version == v;
          assert groups[k].version == v;
        } else {
          assert groups[|groups| - 1].version == v;
        }
      }
      forall k | 0 <= k < |groups|
        ensures groups[k].version in VersionsOf(groups)
      {
        if k < |init| {
          assert init[k].version in p;
        }
      }
    }
  }

  function SumCounts(entries: seq<Entry>): int {
    if entries == [] then 0 else entries[0].count + SumCounts(entries[1..])
  }

  function Sum(xs: seq<int>): int {
    if xs == [] then 0 else xs[0] + Sum(xs[1..])
  }

  lemma {:induction false} BucketOfConcat(a: seq<Group>, b: seq<Group>, version: string)
    ensures BucketOf(a + b, version) == BucketOf(a, version) + BucketOf(b, version)
  {
    if a == [] {
      assert a + b == b;
    } else {
      BucketOfConcat(a[1..], b, version);
      assert (a + b)[1..] == a[1..] + b;
    }
  }

  lemma {:induction false} BucketOfAbsent(groups: seq<Group>, version: string)
    requires forall k :: 0 <= k < |groups| ==> groups[k].version != version
    ensures BucketOf(groups, version) == []
  {
    if groups != [] {
      BucketOfAbsent(groups[1..], version);
    }
  }

  /** A version not yet seen has no entries. */
  lemma BucketOfUnseen(groups: seq<Group>, version: string)
    requires version !in VersionsOf(groups)
    ensures BucketOf(groups, version) == []
  {
    VersionsOfFacts(groups);
    BucketOfAbsent(groups, version);
  }

  /** The entries of a bucket carry the counts of their groups, so they are positive when the groups are. */
  lemma {:induction false} BucketPositive(groups: seq<Group>, version: string)
    requires AllPositive(groups)
    ensures CountsAtLeast(BucketOf(groups, version), 1)
  {
    if groups != [] {
      BucketPositive(groups[1..], version);
    }
  }

  lemma {:induction false} SumCountsConcat(a: seq<Entry>, b: seq<Entry>)
    ensures SumCounts(a + b) == SumCounts(a) + SumCounts(b)
  {
    if a == [] {
      assert a + b == b;
    } else {
      SumCountsConcat(a[1..], b);
      assert (a + b)[1..] == a[1..] + b;
    }
  }

  lemma {:induction false} TallyBucketTotal(groups: seq<Group>, r: Row, version: string)
    ensures SumCounts(BucketOf(Tally(groups, r), version)) ==
            SumCounts(BucketOf(groups, version)) + (if r.version == version then 1 else 0)
  {
    if groups == [] {
    } else {
      var g := groups[0];
      var head := if g.version == version then [Entry(g.name, g.count)] else [];
      assert BucketOf(groups, version) == head + BucketOf(groups[1..], version);
      SumCountsConcat(head, BucketOf(groups[1..], version));
      var t := Tally(groups, r);
      if g.name == r.name && g.version == r.version {
        var g' := g.(count := g.count + 1);
        var head' := if g'.version == version then [Entry(g'.name, g'.count)] else [];
        assert t[0] == g' && t[1..] == groups[1..];
        assert BucketOf(t, version) == head' + BucketOf(groups[1..], version);
        SumCountsConcat(head', BucketOf(groups[1..], version));
      } else {
        TallyBucketTotal(groups[1..], r, version);
        assert t[0] == g && t[1..] == Tally(groups[1..], r);
        assert BucketOf(t, version) == head + BucketOf(Tally(groups[1..], r), version);
        SumCountsConcat(head, BucketOf(Tally(groups[1..], r), version));
      }
    }
  }

  /** Totals are conserved by grouping: a version's bucket sums to the number of rows of that version. */
  lemma {:induction false} BucketTotalIsVersionCount(rows: seq<Row>, version: string)
    ensures SumCounts(BucketOf(GroupCounts(rows), version)) == VersionCount(rows, version)
  {
    if rows != [] {
      BucketTotalIsVersionCount(rows[..|rows| - 1], version);
      TallyBucketTotal(GroupCounts(rows[..|rows| - 1]), rows[|rows| - 1], version);
    }
  }

  lemma SumBucketConcat(a: seq<Group>, b: seq<Group>, version: string)
    ensures SumCounts(BucketOf(a + b, version)) == SumCounts(BucketOf(a, version)) + SumCounts(BucketOf(b, version))
  {
    BucketOfConcat(a, b, version);
    SumCountsConcat(BucketOf(a, version), BucketOf(b, version));
  }

  /**
   * A bucket's total does not depend on the order of the query result: any
   * permutation of the groups gives every version the same total.
   */
  lemma {:induction false} BucketSumPermutation(a: seq<Group>, b: seq<Group>, version: string)
    requires multiset(a) == multiset(b)
    ensures SumCounts(BucketOf(a, version)) == SumCounts(BucketOf(b, version))
  {
    if a != [] {
      var x := a[0];
      assert x in multiset(a);
      var j :| 0 <= j < |b| && b[j] == x;
      var front, back := b[..j], b[j + 1..];
      assert b == front + [x] + back;
      assert a == [x] + a[1..];
      RemoveMatched(a, b, j);
      BucketSumPermutation(a[1..], front + back, version);
      SumBucketConcat([x], a[1..], version);
      SumBucketConcat(front + [x], back, version);
      SumBucketConcat(front, [x], version);
      SumBucketConcat(front, back, version);
    }
  }

  /** Taking the first element off one side and a copy of it off the other keeps a permutation. */
  lemma RemoveMatched(a: seq<Group>, b: seq<Group>, j: nat)
    requires multiset(a) == multiset(b) && a != [] && j < |b| && b[j] == a[0]
    ensures multiset(a[1..]) == multiset(b[..j] + b[j + 1..])
  {
    var x, front, back := a[0], b[..j], b[j + 1..];
    assert a == [x] + a[1..];
    assert b == front + [x] + back;
    assert multiset(b) == multiset(front) + multiset([x]) + multiset(back);
    assert multiset(front + back) == multiset(front) + multiset(back);
    assert multiset(a[1..]) == multiset(a) - multiset([x]);
  }

  /** A version has an empty bucket exactly when no group has that version. */
  lemma {:induction false} BucketEmpty(groups: seq<Group>, version: string)
    ensures BucketOf(groups, version) == [] <==> forall k :: 0 <= k < |groups| ==> groups[k].version != version
  {
    if groups != [] {
      BucketEmpty(groups[1..], version);
      if forall k :: 0 <= k < |groups| ==> groups[k].version != version {
        BucketOfAbsent(groups, version);
      } else if groups[0].version != version {
        var k :| 0 <= k < |groups| && groups[k].version == version;
        assert groups[1..][k - 1] == groups[k];
      }
    }
  }

  lemma PermutedPositive(a: seq<Group>, b: seq<Group>)
    requires multiset(a) == multiset(b) && AllPositive(b)
    ensures AllPositive(a)
  {
    forall k | 0 <= k < |a| ensures a[k].count >= 1 {
      assert a[k] in multiset(b);
      var j :| 0 <= j < |b| && b[j] == a[k];
    }
  }

  /**
   * For a query result that holds the grouped count of the rows in any order: a
   * version has a bucket exactly when some row has that version, and that bucket's
   * counts add up to the number of rows of the version.
   */
  lemma ResultBuckets(rows: seq<Row>, result: seq<Group>, version: string)
    requires multiset(result) == multiset(GroupCounts(rows))
    ensures AllPositive(result)
    ensures SumCounts(BucketOf(result, version)) == VersionCount(rows, version)
    ensures version in VersionsOf(result) <==> VersionCount(rows, version) > 0
  {
    GroupCountsExact(rows);
    PermutedPositive(result, GroupCounts(rows));
    BucketSumPermutation(result, GroupCounts(rows), version);
    BucketTotalIsVersionCount(rows, version);
    VersionsOfFacts(result);
    BucketEmpty(result, version);
    BucketPositive(result, version);
    SumCountsAtLeast(BucketOf(result, version), 1);
  }

  /**
   * The properties a plain object literal `{}` inherits from `Object.prototype`
   * (section 20.1.3 of ECMA-262, with `__proto__` and the four accessor helpers of
   * its Annex B). For each of them `versionMap[version]` is already a truthy value
   * that is not an array, so the bucket is not created and `.push` throws a TypeError.
   */
  const InheritedNames: set<string> := {
    "constructor", "hasOwnProperty", "isPrototypeOf", "propertyIsEnumerable",
    "toLocaleString", "toString", "valueOf", "__proto__",
    "__defineGetter__", "__defineSetter__", "__lookupGetter__", "__lookupSetter__"
  }

  /** Some row of the query result has a version that names an inherited property. */
  predicate HitsPrototype(result: seq<Group>) {
    exists k :: 0 <= k < |result| && result[k].version in InheritedNames
  }

  /** The result hits an inherited property exactly when one of its versions is such a name. */
  lemma HitsPrototypeVersions(result: seq<Group>)
    ensures HitsPrototype(result) <==> exists v :: v in InheritedNames && v in VersionsOf(result)
  {
    VersionsOfFacts(result);
  }

  /**
   * The `result.forEach` loop: one bucket per version, created on that version's first
   * row, each collecting `{ name, count }` in result order. A row whose version names a
   * property inherited from `Object.prototype` throws, and `thrown` reports it.
   */
  method Partition(result: seq<Group>) returns (thrown: bool, versions: seq<string>, versionMap: map<string, seq<Entry>>)
    ensures thrown <==> HitsPrototype(result)
    ensures !thrown ==> versions == VersionsOf(result)
    ensures !thrown ==> forall v :: v in versionMap <==> v in versions
    ensures !thrown ==> forall v :: v in versionMap ==> versionMap[v] == BucketOf(result, v)
  {
    thrown, versions, versionMap := false, [], map[];
    for i := 0 to |result|
      invariant forall k :: 0 <= k < i ==> result[k].version !in InheritedNames
      invariant Partitioned(result[..i], versions, versionMap)
    {
      if result[i].version in InheritedNames {
        thrown := true;
        return;
      }
      assert result[..i + 1] == result[..i] + [result[i]];
      versions, versionMap := AddRow(result[..i], result[i], versions, versionMap);
    }
    assert result[..|result|] == result;
  }

  /** `versions` and `versionMap` hold exactly the buckets of `rows`, in first-seen order. */
  ghost predicate Partitioned(rows: seq<Group>, versions: seq<string>, versionMap: map<string, seq<Entry>>) {
    versions == VersionsOf(rows) &&
    (forall v :: v in versionMap <==> v in versions) &&
    forall v :: v in versionMap ==> versionMap[v] == BucketOf(rows, v)
  }

  /** One row of the loop: its version's bucket is created if missing, then the row is pushed. */
  method AddRow(prefix: seq<Group>, row: Group, versions: seq<string>, versionMap: map<string, seq<Entry>>)
    returns (versions': seq<string>, versionMap': map<string, seq<Entry>>)
    requires Partitioned(prefix, versions, versionMap)
    ensures Partitioned(prefix + [row], versions', versionMap')
  {
    assert (prefix + [row])[..|prefix|] == prefix;
    versions', versionMap' := versions, versionMap;
    if row.version !in versionMap' {
      BucketOfUnseen(prefix, row.version);
      versionMap' := versionMap'[row.version := []];
      versions' := versions' + [row.version];
    }
    versionMap' := versionMap'[row.version := versionMap'[row.version] + [Entry(row.name, row.count)]];
    forall v | v in versionMap'
      ensures versionMap'[v] == BucketOf(prefix + [row], v)
    {
      BucketOfConcat(prefix, [row], v);
    }
  }

  // ---------------------------------------------------------------------------
  // data.sort((a, b) => b.count - a.count): a stable sort by descending count
  // ---------------------------------------------------------------------------

  predicate SortedDesc(s: seq<Entry>) {
    forall i, j :: 0 <= i < j < |s| ==> s[i].count >= s[j].count
  }

  /** Inserts `x` after every entry whose count is at least its own. */
  function Insert(s: seq<Entry>, x: Entry): (r: seq<Entry>)
    ensures |r| == |s| + 1
  {
    if s == [] then [x]
    else if s[0].count >= x.count then [s[0]] + Insert(s[1..], x)
    else [x] + s
  }

  predicate CountsAtMost(s: seq<Entry>, most: int) {
    forall k :: 0 <= k < |s| ==> s[k].count <= most
  }

  lemma {:induction false} InsertAtMost(s: seq<Entry>, x: Entry, most: int)
    requires CountsAtMost(s, most) && x.count <= most
    ensures CountsAtMost(Insert(s, x), most)
  {
    if s != [] && s[0].count >= x.count {
      InsertAtMost(s[1..], x, most);
    }
  }

  /** Insertion adds exactly `x`. */
  lemma {:induction false} InsertMultiset(s: seq<Entry>, x: Entry)
    ensures multiset(Insert(s, x)) == multiset(s) + multiset{x}
  {
    if s != [] && s[0].count >= x.count {
      InsertMultiset(s[1..], x);
      assert s == [s[0]] + s[1..];
    }
  }

  /** Insertion adds `x`'s count to the total. */
  lemma {:induction false} InsertSum(s: seq<Entry>, x: Entry)
    ensures SumCounts(Insert(s, x)) == SumCounts(s) + x.count
  {
    if s != [] && s[0].count >= x.count {
      InsertSum(s[1..], x);
      assert Insert(s, x)[1..] == Insert(s[1..], x);
    } else if s != [] {
      assert Insert(s, x)[1..] == s;
    }
  }

  /** Insertion keeps a sorted sequence sorted. */
  lemma {:induction false} InsertSorted(s: seq<Entry>, x: Entry)
    requires SortedDesc(s)
    ensures SortedDesc(Insert(s, x))
  {
    if s != [] && s[0].count >= x.count {
      var t := Insert(s[1..], x);
      InsertSorted(s[1..], x);
      InsertAtMost(s[1..], x, s[0].count);
      assert Insert(s, x) == [s[0]] + t;
      forall i, j | 0 <= i < j < |[s[0]] + t|
        ensures ([s[0]] + t)[i].count >= ([s[0]] + t)[j].count
      {
        if i > 0 {
          assert ([s[0]] + t)[i] == t[i - 1];
        }
      }
    }
  }

  /** The stable descending sort, element by element, as insertion sort does it. */
  function SortDesc(s: seq<Entry>): (r: seq<Entry>)
    ensures |r| == |s|
  {
    if s == [] then [] else Insert(SortDesc(s[..|s| - 1]), s[|s| - 1])
  }

  /** The sort is a permutation of its input. */
  lemma {:induction false} SortDescPermutes(s: seq<Entry>)
    ensures multiset(SortDesc(s)) == multiset(s)
  {
    if s != [] {
      var init, x := s[..|s| - 1], s[|s| - 1];
      SortDescPermutes(init);
      assert s == init + [x];
      InsertMultiset(SortDesc(init), x);
    }
  }

  /** The sort keeps the total count. */
  lemma {:induction false} SortDescTotal(s: seq<Entry>)
    ensures SumCounts(SortDesc(s)) == SumCounts(s)
  {
    if s != [] {
      var init, x := s[..|s| - 1], s[|s| - 1];
      SortDescTotal(init);
      assert s == init + [x];
      SumCountsConcat(init, [x]);
      InsertSum(SortDesc(init), x);
    }
  }

  /** The sort orders by descending count. */
  lemma {:induction false} SortDescSorted(s: seq<Entry>)
    ensures SortedDesc(SortDesc(s))
  {
    if s != [] {
      SortDescSorted(s[..|s| - 1]);
      InsertSorted(SortDesc(s[..|s| - 1]), s[|s| - 1]);
    }
  }

  /** The entries of a given count, in order. */
  function WithCount(s: seq<Entry>, c: int): seq<Entry> {
    if s == [] then [] else (if s[0].count == c then [s[0]] else []) + WithCount(s[1..], c)
  }

  lemma {:induction false} WithCountConcat(a: seq<Entry>, b: seq<Entry>, c: int)
    ensures WithCount(a + b, c) == WithCount(a, c) + WithCount(b, c)
  {
    if a == [] {
      assert a + b == b;
    } else {
      var head := if a[0].count == c then [a[0]] else [];
      WithCountConcat(a[1..], b, c);
      assert (a + b)[0] == a[0] && (a + b)[1..] == a[1..] + b;
      assert WithCount(a + b, c) == head + WithCount(a[1..] + b, c);
      assert WithCount(a, c) == head + WithCount(a[1..], c);
    }
  }

  lemma {:induction false} WithCountBelow(s: seq<Entry>, c: int)
    requires forall k :: 0 <= k < |s| ==> s[k].count < c
    ensures WithCount(s, c) == []
  {
    if s != [] {
      WithCountBelow(s[1..], c);
    }
  }

  lemma {:induction false} InsertStable(s: seq<Entry>, x: Entry, c: int)
    requires SortedDesc(s)
    ensures WithCount(Insert(s, x), c) == WithCount(s, c) + (if x.count == c then [x] else [])
  {
    if s == [] {
    } else if s[0].count >= x.count {
      var head := if s[0].count == c then [s[0]] else [];
      InsertStable(s[1..], x, c);
      var r := Insert(s, x);
      assert r == [s[0]] + Insert(s[1..], x);
      assert r[0] == s[0] && r[1..] == Insert(s[1..], x);
      assert WithCount(r, c) == head + WithCount(Insert(s[1..], x), c);
      assert WithCount(s, c) == head + WithCount(s[1..], c);
    } else {
      WithCountBelow(s, x.count);
      var r := Insert(s, x);
      assert r == [x] + s;
      assert r[0] == x && r[1..] == s;
      assert WithCount(r, c) == (if x.count == c then [x] else []) + WithCount(s, c);
      if x.count == c {
        assert WithCount(s, c) == [];
      }
    }
  }

  /** The sort is stable: entries of equal count keep their relative order. */
  lemma {:induction false} SortDescStable(s: seq<Entry>, c: int)
    ensures WithCount(SortDesc(s), c) == WithCount(s, c)
  {
    if s != [] {
      var init, x := s[..|s| - 1], s[|s| - 1];
      SortDescStable(init, c);
      SortDescSorted(init);
      InsertStable(SortDesc(init), x, c);
      assert s == init + [x];
      WithCountConcat(init, [x], c);
    }
  }

  /** Inserting after `p`, whose counts are all at least `x`'s, and before `q`, whose counts are all below. */
  lemma {:induction false} InsertAt(p: seq<Entry>, q: seq<Entry>, x: Entry)
    requires forall k :: 0 <= k < |p| ==> p[k].count >= x.count
    requires forall k :: 0 <= k < |q| ==> q[k].count < x.count
    ensures Insert(p + q, x) == p + [x] + q
  {
    if p == [] {
      assert p + q == q;
    } else {
      assert (p + q)[1..] == p[1..] + q;
      InsertAt(p[1..], q, x);
    }
  }

  /** The insertion point the inner loop of SortInPlace finds. */
  lemma InsertStep(sorted: seq<Entry>, j: nat, x: Entry)
    requires j <= |sorted| && SortedDesc(sorted)
    requires j == 0 || sorted[j - 1].count >= x.count
    requires forall k :: j <= k < |sorted| ==> sorted[k].count < x.count
    ensures Insert(sorted, x) == sorted[..j] + [x] + sorted[j..]
  {
    assert sorted == sorted[..j] + sorted[j..];
    forall k | 0 <= k < j ensures sorted[..j][k].count >= x.count {
      assert sorted[k].count >= sorted[j - 1].count;
    }
    InsertAt(sorted[..j], sorted[j..], x);
  }

  lemma Inserted(b: seq<Entry>, sorted: seq<Entry>, j: nat, x: Entry)
    requires j <= |sorted| && |b| == |sorted| + 1
    requires forall k :: 0 <= k < j ==> b[k] == sorted[k]
    requires b[j] == x
    requires forall k :: j < k < |b| ==> b[k] == sorted[k - 1]
    ensures b == sorted[..j] + [x] + sorted[j..]
  {
  }

  /**
   * The inner loop of insertion sort: shifts the entries of `a[..i]` whose count is
   * below `a[i]`'s one place right and returns the hole left for `a[i]`.
   */
  method ShiftRight(a: array<Entry>, i: nat) returns (j: nat)
    requires i < a.Length
    modifies a
    ensures j <= i
    ensures forall k :: 0 <= k < j ==> a[k] == old(a[k])
    ensures forall k :: j < k <= i ==> a[k] == old(a[k - 1])
    ensures forall k :: j <= k < i ==> old(a[k]).count < old(a[i]).count
    ensures j == 0 || old(a[j - 1]).count >= old(a[i]).count
    ensures forall k :: i < k < a.Length ==> a[k] == old(a[k])
  {
    var x := a[i];
    j := i;
    while j > 0 && a[j - 1].count < x.count
      invariant 0 <= j <= i
      invariant forall k :: 0 <= k < j ==> a[k] == old(a[k])
      invariant forall k :: j < k <= i ==> a[k] == old(a[k - 1])
      invariant forall k :: j <= k < i ==> old(a[k]).count < x.count
      invariant forall k :: i < k < a.Length ==> a[k] == old(a[k])
    {
      a[j] := a[j - 1];
      j := j - 1;
    }
  }

  /** One step of insertion sort: moves `a[i]` back into the sorted prefix `a[..i]`. */
  method InsertLast(a: array<Entry>, i: nat)
    requires i < a.Length && SortedDesc(a[..i])
    modifies a
    ensures a[..i + 1] == Insert(old(a[..i]), old(a[i]))
    ensures forall k :: i < k < a.Length ==> a[k] == old(a[k])
  {
    ghost var sorted := a[..i];
    var x := a[i];
    var j := ShiftRight(a, i);
    a[j] := x;
    InsertStep(sorted, j, x);
    Inserted(a[..i + 1], sorted, j, x);
  }

  /** Sorts `a` in place, by insertion, into the stable descending order. */
  method SortInPlace(a: array<Entry>)
    modifies a
    ensures a[..] == SortDesc(old(a[..]))
  {
    ghost var orig := a[..];
    for i := 0 to a.Length
      invariant a[..i] == SortDesc(orig[..i])
      invariant forall k :: i <= k < a.Length ==> a[k] == orig[k]
    {
      SortDescSorted(orig[..i]);
      InsertLast(a, i);
      assert orig[..i + 1][..i] == orig[..i];
    }
    assert orig[..a.Length] == orig;
  }

  // ---------------------------------------------------------------------------
  // One dataset: top 4 plus Others
  // ---------------------------------------------------------------------------

  function EntryLabel(name: string, version: string): string {
    name + " (v" + version + ")"
  }

  function OthersLabel(version: string): string {
    "Others (v" + version + ")"
  }

  function LabelsOf(entries: seq<Entry>, version: string): seq<string> {
    seq(|entries|, i requires 0 <= i < |entries| => EntryLabel(entries[i].name, version))
  }

  function CountsOf(entries: seq<Entry>): seq<int> {
    seq(|entries|, i requires 0 <= i < |entries| => entries[i].count)
  }

  function Min(a: nat, b: nat): nat {
    if a < b then a else b
  }

  /**
   * The dataset of one version's bucket: the first four entries after the stable sort,
   * by name, and the summed remainder as `Others (v<version>)` when it is above zero.
   */
  function DatasetOf(version: string, bucket: seq<Entry>): Dataset {
    var sorted := SortDesc(bucket);
    var top := sorted[..Min(Kept, |sorted|)];
    var othersCount := SumCounts(sorted[Min(Kept, |sorted|)..]);
    if othersCount > 0 then
      Dataset("Version " + version, LabelsOf(top, version) + [OthersLabel(version)], CountsOf(top) + [othersCount])
    else
      Dataset("Version " + version, LabelsOf(top, version), CountsOf(top))
  }

  predicate CountsAtLeast(bucket: seq<Entry>, least: int) {
    forall k :: 0 <= k < |bucket| ==> bucket[k].count >= least
  }

  lemma {:induction false} SumCountsAtLeast(s: seq<Entry>, least: int)
    requires least >= 0 && CountsAtLeast(s, least)
    ensures SumCounts(s) >= least * |s|
  {
    if s != [] {
      SumCountsAtLeast(s[1..], least);
    }
  }

  lemma {:induction false} SumCountsOf(s: seq<Entry>)
    ensures Sum(CountsOf(s)) == SumCounts(s)
  {
    if s != [] {
      SumCountsOf(s[1..]);
      assert CountsOf(s)[1..] == CountsOf(s[1..]);
    }
  }

  lemma {:induction false} SumAppend(xs: seq<int>, y: int)
    ensures Sum(xs + [y]) == Sum(xs) + y
  {
    if xs != [] {
      SumAppend(xs[1..], y);
      assert (xs + [y])[1..] == xs[1..] + [y];
    }
  }

  lemma SortedKeepsBounds(bucket: seq<Entry>, least: int)
    requires CountsAtLeast(bucket, least)
    ensures CountsAtLeast(SortDesc(bucket), least)
  {
    var sorted := SortDesc(bucket);
    SortDescPermutes(bucket);
    forall k | 0 <= k < |sorted| ensures sorted[k].count >= least {
      assert sorted[k] in multiset(bucket);
    }
  }

  /**
   * The dataset has as many labels as values and at most five, and the values sum to
   * the bucket's total: nothing is lost by folding the remainder into Others.
   */
  lemma {:induction false} DatasetConservesTotal(version: string, bucket: seq<Entry>)
    requires CountsAtLeast(bucket, 0)
    ensures var ds := DatasetOf(version, bucket);
      |ds.labels| == |ds.data| <= Kept + 1 && Sum(ds.data) == SumCounts(bucket)
  {
    var sorted := SortDesc(bucket);
    var n := Min(Kept, |sorted|);
    var top, rest := sorted[..n], sorted[n..];
    SortedKeepsBounds(bucket, 0);
    SortDescTotal(bucket);
    assert sorted == top + rest;
    SumCountsConcat(top, rest);
    assert CountsAtLeast(rest, 0);
    SumCountsAtLeast(rest, 0);
    SumCountsOf(top);
    SumAppend(CountsOf(top), SumCounts(rest));
    var ds := DatasetOf(version, bucket);
    if SumCounts(rest) > 0 {
      assert ds.data == CountsOf(top) + [SumCounts(rest)];
    } else {
      assert ds.data == CountsOf(top);
    }
  }

  /**
   * With every count at least 1 (as every group of the query has), the Others entry is
   * there exactly when the bucket has more than four entries: the dataset has
   * min(|bucket|, 4) named values, plus Others, labelled `Others (v<version>)`, when
   * the bucket is longer.
   */
  lemma {:induction false} OthersExactlyBeyondFour(version: string, bucket: seq<Entry>)
    requires CountsAtLeast(bucket, 1)
    ensures var ds := DatasetOf(version, bucket);
      |ds.data| == (if |bucket| <= Kept then |bucket| else Kept + 1) &&
      (|bucket| > Kept ==> ds.labels[Kept] == OthersLabel(version))
  {
    var sorted := SortDesc(bucket);
    var n := Min(Kept, |sorted|);
    SortedKeepsBounds(bucket, 1);
    SumCountsAtLeast(sorted[n..], 1);
  }

  /**
   * The named values are the first four of the stable descending sort, each labelled
   * `<name> (v<version>)`, and every one of them is at least every count that went
   * into Others.
   */
  lemma KeptDominateFolded(version: string, bucket: seq<Entry>)
    ensures var ds := DatasetOf(version, bucket);
      var sorted := SortDesc(bucket);
      var n := Min(Kept, |bucket|);
      ds.title == "Version " + version &&
      (forall i :: 0 <= i < n ==>
        ds.data[i] == sorted[i].count && ds.labels[i] == EntryLabel(sorted[i].name, version)) &&
      (forall i, j :: 0 <= i < n <= j < |bucket| ==> ds.data[i] >= sorted[j].count)
  {
    DatasetPrefix(version, bucket);
    SortDescSorted(bucket);
  }

  /** The first values and labels of a dataset are those of the first entries of the sort. */
  lemma DatasetPrefix(version: string, bucket: seq<Entry>)
    ensures var ds := DatasetOf(version, bucket);
      var sorted := SortDesc(bucket);
      var n := Min(Kept, |bucket|);
      ds.title == "Version " + version && n <= |ds.data| && n <= |ds.labels| &&
      forall i :: 0 <= i < n ==>
        ds.data[i] == sorted[i].count && ds.labels[i] == EntryLabel(sorted[i].name, version)
  {
    var sorted := SortDesc(bucket);
    var n := Min(Kept, |sorted|);
    var top := sorted[..n];
    var others := SumCounts(sorted[n..]);
    var ds := DatasetOf(version, bucket);
    var data, labels := CountsOf(top), LabelsOf(top, version);
    if others > 0 {
      assert ds.data == data + [others] && ds.labels == labels + [OthersLabel(version)];
    } else {
      assert ds.data == data && ds.labels == labels;
    }
    forall i | 0 <= i < n
      ensures ds.data[i] == sorted[i].count && ds.labels[i] == EntryLabel(sorted[i].name, version)
    {
      assert ds.data[i] == data[i] && ds.labels[i] == labels[i];
      assert top[i] == sorted[i];
    }
  }

  /** Builds the dataset of one version, sorting that version's array in place first. */
  method BuildDataset(version: string, data: array<Entry>) returns (ds: Dataset)
    modifies data
    ensures data[..] == SortDesc(old(data[..]))
    ensures ds == DatasetOf(version, old(data[..]))
  {
    SortInPlace(data);
    var n := Min(Kept, data.Length);
    var top := data[..n];
    var othersCount := SumCounts(data[n..]);
    var versionLabels := LabelsOf(top, version);
    var versionData := CountsOf(top);
    if othersCount > 0 {
      versionLabels := versionLabels + [OthersLabel(version)];
      versionData := versionData + [othersCount];
    }
    ds := Dataset("Version " + version, versionLabels, versionData);
  }

  /**
   * The whole bucketing: one dataset per distinct version of the query result, in
   * first-seen order, each the top-4-plus-Others dataset of that version's bucket;
   * None when the loop throws on a version named after an inherited property.
   */
  method BuildDatasets(result: seq<Group>) returns (datasets: Option<seq<Dataset>>)
    ensures datasets.None? <==> HitsPrototype(result)
    ensures datasets.Some? ==> |datasets.value| == |VersionsOf(result)|
    ensures datasets.Some? ==> forall k :: 0 <= k < |datasets.value| ==>
      datasets.value[k] == DatasetOf(VersionsOf(result)[k], BucketOf(result, VersionsOf(result)[k]))
  {
    var thrown, versions, versionMap := Partition(result);
    if thrown {
      return None;
    }
    var built := [];
    for i := 0 to |versions|
      invariant |built| == i
      invariant forall k :: 0 <= k < i ==> built[k] == DatasetOf(versions[k], BucketOf(result, versions[k]))
    {
      var ds := BucketDataset(versions[i], versionMap[versions[i]]);
      built := built + [ds];
    }
    datasets := Some(built);
  }

  /** `versionMap[version]` is an array the sort works on in place. */
  method BucketDataset(version: string, bucket: seq<Entry>) returns (ds: Dataset)
    ensures ds == DatasetOf(version, bucket)
  {
    var data := new Entry[|bucket|](j requires 0 <= j < |bucket| => bucket[j]);
    assert data[..] == bucket;
    ds := BuildDataset(version, data);
  }
}
