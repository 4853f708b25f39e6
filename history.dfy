/**
 * The history list of the caffeine screen: the user's drinks grouped by
 * (name, caffeine, icon tag), one row per group showing its newest drink
 * and a count, newest group first; and the per-row delete button, which
 * removes the newest drink of that group.
 */
module History {
  import opened Wrappers
  import opened DrinkModel
  import opened Ordering
  import opened DrinkDao

  /** The grouping key: `Triple(name, caffeineMg, iconName)`. */
  datatype GroupKey = GroupKey(name: string, caffeineMg: int, iconName: string)

  function KeyOf(d: Drink): GroupKey {
    GroupKey(d.name, d.caffeineMg, d.iconName)
  }

  /** One history row: the group's newest drink and how many drinks it stands for. */
  datatype DrinkGroup = DrinkGroup(drink: Drink, count: nat)

  function RepTime(g: DrinkGroup): int {
    g.drink.timeAdded
  }

  function GroupKeyOf(g: DrinkGroup): GroupKey {
    KeyOf(g.drink)
  }

  /** The drinks with key `k`, in input order (one value list of `groupBy`). */
  function Bucket(ds: seq<Drink>, k: GroupKey): seq<Drink> {
    if ds == [] then []
    else Bucket(ds[..|ds| - 1], k) + (if KeyOf(ds[|ds| - 1]) == k then [ds[|ds| - 1]] else [])
  }

  /** A bucket holds exactly the drinks with its key. */
  lemma {:induction false} BucketMembers(ds: seq<Drink>, k: GroupKey)
    ensures forall d :: d in Bucket(ds, k) <==> d in ds && KeyOf(d) == k
  {
    if ds != [] {
      var init, last := ds[..|ds| - 1], ds[|ds| - 1];
      assert ds == init + [last];
      BucketMembers(init, k);
    }
  }

  lemma BucketSnoc(ds: seq<Drink>, d: Drink, k: GroupKey)
    ensures Bucket(ds + [d], k) == Bucket(ds, k) + (if KeyOf(d) == k then [d] else [])
  {
    var ds' := ds + [d];
    assert ds'[..|ds'| - 1] == ds;
  }

  /** The distinct keys of `ds` in order of first occurrence (the key order of `groupBy`). */
  function DistinctKeys(ds: seq<Drink>): (ks: seq<GroupKey>)
  {
    if ds == [] then []
    else
      var ks := DistinctKeys(ds[..|ds| - 1]);
      var k := KeyOf(ds[|ds| - 1]);
      if k in ks then ks else ks + [k]
  }

  /** The group of key `k`: its newest drink (first one on ties) and its size. */
  function GroupFor(ds: seq<Drink>, k: GroupKey): (g: DrinkGroup)
    requires Bucket(ds, k) != []
  {
    var b := Bucket(ds, k);
    DrinkGroup(b[LatestIndex(b, TimeAdded)], |b|)
  }

  function Summaries(ds: seq<Drink>, ks: seq<GroupKey>): (gs: seq<DrinkGroup>)
    requires forall k :: k in ks ==> Bucket(ds, k) != []
    ensures |gs| == |ks|
    ensures forall i :: 0 <= i < |ks| ==> gs[i] == GroupFor(ds, ks[i])
  {
    if ks == [] then []
    else
      var init := ks[..|ks| - 1];
      assert forall k :: k in init ==> k in ks;
      Summaries(ds, init) + [GroupFor(ds, ks[|ks| - 1])]
  }

  /**
   * `drinks.groupBy { Triple(...) }.map { DrinkGroup(latest, size) }
   *  .sortedByDescending { it.drink.timeAdded }`.
   */
  function GroupDrinks(ds: seq<Drink>): (r: seq<DrinkGroup>)
    ensures NonIncreasing(r, RepTime)
    ensures |r| == |DistinctKeys(ds)|
  {
    KeysHaveDrinks(ds);
    SortDesc(Summaries(ds, DistinctKeys(ds)), RepTime)
  }

  // ---- Facts about keys and buckets.

  lemma {:induction false} DistinctKeysMembers(ds: seq<Drink>)
    ensures forall i, j :: 0 <= i < j < |DistinctKeys(ds)| ==> DistinctKeys(ds)[i] != DistinctKeys(ds)[j]
    ensures forall k :: k in DistinctKeys(ds) <==> Bucket(ds, k) != []
  {
    if ds != [] {
      var init, last := ds[..|ds| - 1], ds[|ds| - 1];
      DistinctKeysMembers(init);
      forall k ensures k in DistinctKeys(ds) <==> Bucket(ds, k) != [] {
        assert Bucket(ds, k) == Bucket(init, k) + (if KeyOf(last) == k then [last] else []);
      }
    }
  }

  lemma KeysHaveDrinks(ds: seq<Drink>)
    ensures forall k :: k in DistinctKeys(ds) ==> Bucket(ds, k) != []
  {
    DistinctKeysMembers(ds);
  }

  /** The key of a drink is one of the distinct keys. */
  lemma KeyOfMemberIsKey(ds: seq<Drink>, d: Drink)
    requires d in ds
    ensures KeyOf(d) in DistinctKeys(ds)
  {
    DistinctKeysMembers(ds);
    BucketMembers(ds, KeyOf(d));
  }

  // ---- Counting.

  function SumCounts(gs: seq<DrinkGroup>): nat {
    if gs == [] then 0 else gs[0].count + SumCounts(gs[1..])
  }

  lemma {:induction false} SumCountsSnoc(gs: seq<DrinkGroup>, g: DrinkGroup)
    ensures SumCounts(gs + [g]) == SumCounts(gs) + g.count
  {
    if gs != [] {
      assert (gs + [g])[1..] == gs[1..] + [g];
      SumCountsSnoc(gs[1..], g);
    }
  }

  lemma {:induction false} SumCountsInsert(g: DrinkGroup, gs: seq<DrinkGroup>)
    ensures SumCounts(Insert(g, gs, RepTime)) == g.count + SumCounts(gs)
  {
    if gs != [] && RepTime(g) < RepTime(gs[0]) {
      SumCountsInsert(g, gs[1..]);
    }
  }

  lemma {:induction false} SumCountsSort(gs: seq<DrinkGroup>)
    ensures SumCounts(SortDesc(gs, RepTime)) == SumCounts(gs)
  {
    if gs != [] {
      SumCountsSort(gs[1..]);
      SumCountsInsert(gs[0], SortDesc(gs[1..], RepTime));
    }
  }

  /** The total size of the buckets of `ks`. */
  function SumBuckets(ds: seq<Drink>, ks: seq<GroupKey>): nat {
    if ks == [] then 0
    else SumBuckets(ds, ks[..|ks| - 1]) + |Bucket(ds, ks[|ks| - 1])|
  }

  lemma {:induction false} SumCountsSummaries(ds: seq<Drink>, ks: seq<GroupKey>)
    requires forall k :: k in ks ==> Bucket(ds, k) != []
    ensures SumCounts(Summaries(ds, ks)) == SumBuckets(ds, ks)
  {
    if ks != [] {
      var init := ks[..|ks| - 1];
      assert forall k :: k in init ==> k in ks;
      SumCountsSummaries(ds, init);
      SumCountsSnoc(Summaries(ds, init), GroupFor(ds, ks[|ks| - 1]));
    }
  }

  /** Appending a drink adds one to the bucket of its key, counted once per occurrence of the key. */
  lemma {:induction false} SumBucketsSnocDrink(ds: seq<Drink>, d: Drink, ks: seq<GroupKey>)
    ensures SumBuckets(ds + [d], ks) == SumBuckets(ds, ks) + multiset(ks)[KeyOf(d)]
  {
    if ks != [] {
      var init, k := ks[..|ks| - 1], ks[|ks| - 1];
      SumBucketsSnocDrink(ds, d, init);
      BucketSnoc(ds, d, k);
      MultisetCountLast(ks, KeyOf(d));
    }
  }

  lemma MultisetCountLast<T>(s: seq<T>, y: T)
    requires s != []
    ensures multiset(s)[y] == multiset(s[..|s| - 1])[y] + (if s[|s| - 1] == y then 1 else 0)
  {
    assert s == s[..|s| - 1] + [s[|s| - 1]];
    assert multiset(s) == multiset(s[..|s| - 1]) + multiset{s[|s| - 1]};
  }


  lemma {:induction false} DistinctCount(ks: seq<GroupKey>, k: GroupKey)
    requires forall i, j :: 0 <= i < j < |ks| ==> ks[i] != ks[j]
    ensures multiset(ks)[k] == if k in ks then 1 else 0
  {
    if ks != [] {
      var init, last := ks[..|ks| - 1], ks[|ks| - 1];
      assert ks == init + [last];
      DistinctCount(init, k);
    }
  }

  lemma {:induction false} SumBucketsOfKeys(ds: seq<Drink>)
    ensures SumBuckets(ds, DistinctKeys(ds)) == |ds|
  {
    if ds != [] {
      var init, d := ds[..|ds| - 1], ds[|ds| - 1];
      assert ds == init + [d];
      SumBucketsOfKeys(init);
      var ks := DistinctKeys(init);
      var k := KeyOf(d);
      DistinctKeysMembers(init);
      DistinctCount(ks, k);
      SumBucketsSnocDrink(init, d, ks);
      if k !in ks {
        assert DistinctKeys(ds) == ks + [k];
        assert (ks + [k])[..|ks|] == ks;
        assert Bucket(init, k) == [];
        assert Bucket(ds, k) == [d];
      }
    }
  }

  // ---- What the grouping promises.

  /** Grouping is a partition: the counts add up to the number of drinks. */
  lemma GroupingPreservesTotal(ds: seq<Drink>)
    ensures SumCounts(GroupDrinks(ds)) == |ds|
  {
    var ks := DistinctKeys(ds);
    KeysHaveDrinks(ds);
    SumCountsSort(Summaries(ds, ks));
    SumCountsSummaries(ds, ks);
    SumBucketsOfKeys(ds);
  }

  /** Exactly one group per distinct key: no key twice, and every drink's key has a group. */
  lemma OneGroupPerKey(ds: seq<Drink>)
    ensures DistinctBy(GroupDrinks(ds), GroupKeyOf)
    ensures forall d :: d in ds ==> exists i :: 0 <= i < |GroupDrinks(ds)| && GroupKeyOf(GroupDrinks(ds)[i]) == KeyOf(d)
  {
    var ks := DistinctKeys(ds);
    KeysHaveDrinks(ds);
    DistinctKeysMembers(ds);
    var u := Summaries(ds, ks);
    forall i | 0 <= i < |u| ensures GroupKeyOf(u[i]) == ks[i] {
      var b := Bucket(ds, ks[i]);
      BucketMembers(ds, ks[i]);
      assert u[i].drink in b;
    }
    SortKeepsDistinct(u, RepTime, GroupKeyOf);
    var r := GroupDrinks(ds);
    forall d | d in ds ensures exists i :: 0 <= i < |r| && GroupKeyOf(r[i]) == KeyOf(d) {
      KeyOfMemberIsKey(ds, d);
      var i :| 0 <= i < |ks| && ks[i] == KeyOf(d);
      assert u[i] in multiset(r);
      var j :| 0 <= j < |r| && r[j] == u[i];
    }
  }

  /** `x` is the newest drink of `b`, and the first one among equally new drinks. */
  predicate IsLatestIn(b: seq<Drink>, x: Drink) {
    exists i :: 0 <= i < |b| && b[i] == x
      && (forall j :: 0 <= j < |b| ==> b[j].timeAdded <= x.timeAdded)
      && (forall j :: 0 <= j < i ==> b[j].timeAdded < x.timeAdded)
  }

  /** The group of a key shows that key, the newest drink of its bucket, and the bucket's size. */
  lemma GroupForFacts(ds: seq<Drink>, k: GroupKey)
    requires Bucket(ds, k) != []
    ensures var g, b := GroupFor(ds, k), Bucket(ds, k);
      GroupKeyOf(g) == k && g.count == |b| > 0 && IsLatestIn(b, g.drink)
  {
    var b := Bucket(ds, k);
    BucketMembers(ds, k);
    var n := LatestIndex(b, TimeAdded);
    assert b[n] in b;
    assert forall j :: 0 <= j < |b| ==> TimeAdded(b[j]) <= TimeAdded(b[n]);
    assert forall j :: 0 <= j < n ==> TimeAdded(b[j]) < TimeAdded(b[n]);
  }

  /** Each row shows the newest drink of its key's bucket and counts that whole bucket. */
  lemma GroupRepresentatives(ds: seq<Drink>, g: DrinkGroup)
    requires g in GroupDrinks(ds)
    ensures var b := Bucket(ds, GroupKeyOf(g));
      g.count == |b| > 0 && IsLatestIn(b, g.drink)
  {
    var ks := DistinctKeys(ds);
    KeysHaveDrinks(ds);
    var u := Summaries(ds, ks);
    assert g in multiset(u);
    var i :| 0 <= i < |u| && u[i] == g;
    GroupForFacts(ds, ks[i]);
  }

  // ---- Deleting one drink of a group.

  /**
   * The drink the delete button removes: among the drinks with the row's
   * key, the newest (the first one on ties); none when no drink matches.
   */
  function ToDelete(drinks: seq<Drink>, g: DrinkGroup): (r: Option<Drink>)
    ensures r.None? <==> forall i :: 0 <= i < |drinks| ==> KeyOf(drinks[i]) != GroupKeyOf(g)
    ensures r.Some? ==> r.value in drinks && KeyOf(r.value) == GroupKeyOf(g)
    ensures r.Some? ==> forall d :: d in drinks && KeyOf(d) == GroupKeyOf(g) ==> d.timeAdded <= r.value.timeAdded
  {
    BucketMembers(drinks, GroupKeyOf(g));
    var b := Bucket(drinks, GroupKeyOf(g));
    if b == [] then None
    else
      var x := b[LatestIndex(b, TimeAdded)];
      assert x in b;
      Some(x)
  }

  /**
   * The row's delete button: pick the newest drink of the row's key among
   * the user's drinks and delete it from the table. Exactly that one row
   * goes, and every other user's drinks stay as they were.
   */
  method DeleteOneOfGroup(table: DrinkTable, user: string, g: DrinkGroup)
    requires table.Valid()
    modifies table
    ensures table.Valid()
    ensures var victim := ToDelete(Query(old(table.rows), user), g);
      && (victim.None? ==> table.rows == old(table.rows))
      && (victim.Some? ==>
            && victim.value in old(table.rows)
            && victim.value.userId == user
            && multiset(table.rows) + multiset{victim.value} == multiset(old(table.rows)))
    ensures forall b :: b != user ==> Query(table.rows, b) == Query(old(table.rows), b)
  {
    var drinks := table.DrinksForUser(user);
    var victim := ToDelete(drinks, g);
    if victim.Some? {
      var v := victim.value;
      ghost var rows := table.rows;
      ghost var k :| 0 <= k < |rows| && rows[k] == v;
      DeleteRemovesExactlyOne(rows, k);
      forall b | b != user ensures Query(WithoutId(rows, v.id), b) == Query(rows, b) {
        forall i | 0 <= i < |rows| && rows[i].id == v.id ensures rows[i].userId != b {
          assert i == k;
        }
        DeleteIsolation(rows, v.id, b);
      }
      table.DeleteDrink(v);
    }
  }
}
