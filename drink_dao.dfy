/**
 * The drinks table behind the data-access object: rows keyed by `id`, read
 * per user newest first, inserted one at a time, deleted by key or by user.
 */
module DrinkDao {
  import opened DrinkModel
  import opened Ordering

  /** The primary-key constraint: no two rows share an `id`. */
  ghost predicate UniqueIds(rows: seq<Drink>) {
    forall i, j :: 0 <= i < j < |rows| ==> rows[i].id != rows[j].id
  }

  predicate HasId(rows: seq<Drink>, id: string) {
    exists i :: 0 <= i < |rows| && rows[i].id == id
  }

  /** `WHERE userId = :user`, in table order. */
  function RowsOf(rows: seq<Drink>, user: string): (r: seq<Drink>)
    ensures forall d :: d in r <==> d in rows && d.userId == user
  {
    if rows == [] then []
    else
      var init := RowsOf(rows[..|rows| - 1], user);
      var last := rows[|rows| - 1];
      assert rows == rows[..|rows| - 1] + [last];
      init + (if last.userId == user then [last] else [])
  }

  /** The user's rows, each as many times as it occurs in the table; no other rows. */
  lemma {:induction false} RowsOfCounts(rows: seq<Drink>, user: string)
    ensures forall d :: multiset(RowsOf(rows, user))[d] == if d.userId == user then multiset(rows)[d] else 0
  {
    if rows != [] {
      var init, last := rows[..|rows| - 1], rows[|rows| - 1];
      RowsOfCounts(init, user);
      assert rows == init + [last];
      assert multiset(rows) == multiset(init) + multiset{last};
    }
  }

  /**
   * `getDrinksForUser`: exactly the user's rows, newest first. Among rows
   * with equal `timeAdded` the model keeps table order; the query itself
   * leaves that order unspecified, and no contract here depends on it.
   */
  function Query(rows: seq<Drink>, user: string): (r: seq<Drink>)
    ensures multiset(r) == multiset(RowsOf(rows, user))
    ensures forall d :: d in r <==> d in rows && d.userId == user
    ensures NonIncreasing(r, TimeAdded)
    ensures forall d :: multiset(r)[d] == if d.userId == user then multiset(rows)[d] else 0
  {
    RowsOfCounts(rows, user);
    var r := SortDesc(RowsOf(rows, user), TimeAdded);
    assert forall d :: d in r <==> d in multiset(RowsOf(rows, user));
    r
  }

  /** `DELETE ... WHERE id = :id` (Room's `@Delete` matches on the primary key only). */
  function WithoutId(rows: seq<Drink>, id: string): (r: seq<Drink>)
    ensures |r| <= |rows|
  {
    if rows == [] then []
    else
      var last := rows[|rows| - 1];
      assert rows == rows[..|rows| - 1] + [last];
      WithoutId(rows[..|rows| - 1], id) + (if last.id != id then [last] else [])
  }

  /** The rows left by `WithoutId` are the old rows with another key. */
  lemma {:induction false} WithoutIdMembers(rows: seq<Drink>, id: string)
    ensures forall d :: d in WithoutId(rows, id) <==> d in rows && d.id != id
  {
    if rows != [] {
      var init, last := rows[..|rows| - 1], rows[|rows| - 1];
      WithoutIdMembers(init, id);
      assert rows == init + [last];
    }
  }

  /** `DELETE FROM drinks_table WHERE userId = :user`. */
  function WithoutUser(rows: seq<Drink>, user: string): (r: seq<Drink>)
    ensures forall d :: d in r <==> d in rows && d.userId != user
  {
    if rows == [] then []
    else
      var last := rows[|rows| - 1];
      assert rows == rows[..|rows| - 1] + [last];
      WithoutUser(rows[..|rows| - 1], user) + (if last.userId != user then [last] else [])
  }

  // ---- Isolation: operations scoped to one user leave every other user's query alone.

  /** Inserting a row of user `a` leaves the query of every other user unchanged. */
  lemma InsertIsolation(rows: seq<Drink>, d: Drink, b: string)
    requires d.userId != b
    ensures Query(rows + [d], b) == Query(rows, b)
  {
    var rs := rows + [d];
    assert rs[..|rs| - 1] == rows;
    assert RowsOf(rs, b) == RowsOf(rows, b);
  }

  /** The inserted row shows up in its owner's query, alongside the old ones. */
  lemma InsertVisibleToOwner(rows: seq<Drink>, d: Drink)
    ensures multiset(Query(rows + [d], d.userId)) == multiset(Query(rows, d.userId)) + multiset{d}
  {
    var rs := rows + [d];
    assert rs[..|rs| - 1] == rows;
    assert RowsOf(rs, d.userId) == RowsOf(rows, d.userId) + [d];
  }

  lemma RowsOfSnoc(rows: seq<Drink>, d: Drink, user: string)
    ensures RowsOf(rows + [d], user) == RowsOf(rows, user) + (if d.userId == user then [d] else [])
  {
    var rs := rows + [d];
    assert rs[..|rs| - 1] == rows;
  }

  lemma {:induction false} RowsOfWithoutUser(rows: seq<Drink>, a: string, b: string)
    ensures RowsOf(WithoutUser(rows, a), b) == if a == b then [] else RowsOf(rows, b)
  {
    if rows != [] {
      var init, last := rows[..|rows| - 1], rows[|rows| - 1];
      RowsOfWithoutUser(init, a, b);
      var w := WithoutUser(init, a);
      assert rows == init + [last];
      RowsOfSnoc(init, last, b);
      if last.userId != a {
        assert WithoutUser(rows, a) == w + [last];
        RowsOfSnoc(w, last, b);
        if last.userId != b {
          assert RowsOf(w, b) + [] == RowsOf(w, b);
          assert RowsOf(init, b) + [] == RowsOf(init, b);
        }
      } else {
        assert WithoutUser(rows, a) == w + [] == w;
        if a != b {
          assert RowsOf(init, b) + [] == RowsOf(init, b);
        }
      }
    }
  }

  /** Deleting user `a`'s rows empties `a`'s query and leaves every other user's query unchanged. */
  lemma DeleteAllIsolation(rows: seq<Drink>, a: string, b: string)
    ensures Query(WithoutUser(rows, a), b) == if a == b then [] else Query(rows, b)
  {
    RowsOfWithoutUser(rows, a, b);
  }

  lemma {:induction false} RowsOfWithoutId(rows: seq<Drink>, id: string, b: string)
    requires forall i :: 0 <= i < |rows| && rows[i].id == id ==> rows[i].userId != b
    ensures RowsOf(WithoutId(rows, id), b) == RowsOf(rows, b)
  {
    if rows != [] {
      var init, last := rows[..|rows| - 1], rows[|rows| - 1];
      assert forall i :: 0 <= i < |init| ==> init[i] == rows[i];
      RowsOfWithoutId(init, id, b);
      var w := WithoutId(init, id);
      assert rows == init + [last];
      if last.id != id {
        var ws := w + [last];
        assert ws[..|ws| - 1] == w;
        assert WithoutId(rows, id) == ws;
        assert RowsOf(ws, b) == RowsOf(w, b) + (if last.userId == b then [last] else []);
      } else {
        assert WithoutId(rows, id) == w;
        assert last.userId != b;
        assert RowsOf(rows, b) == RowsOf(init, b);
      }
    }
  }

  /**
   * Deleting the row with a given key, when that row belongs to another
   * user (or there is none), leaves `b`'s query unchanged.
   */
  lemma DeleteIsolation(rows: seq<Drink>, id: string, b: string)
    requires forall i :: 0 <= i < |rows| && rows[i].id == id ==> rows[i].userId != b
    ensures Query(WithoutId(rows, id), b) == Query(rows, b)
  {
    RowsOfWithoutId(rows, id, b);
  }

  /**
   * With unique keys, deleting by the key of an existing row removes
   * exactly that one row.
   */
  lemma {:induction false} DeleteRemovesExactlyOne(rows: seq<Drink>, k: nat)
    requires UniqueIds(rows) && k < |rows|
    ensures multiset(WithoutId(rows, rows[k].id)) + multiset{rows[k]} == multiset(rows)
    ensures |WithoutId(rows, rows[k].id)| == |rows| - 1
  {
    var init, last := rows[..|rows| - 1], rows[|rows| - 1];
    assert rows == init + [last];
    if k == |rows| - 1 {
      assert forall i :: 0 <= i < |init| ==> init[i] == rows[i];
      WithoutIdOfAbsent(init, last.id);
      assert WithoutId(rows, last.id) == init;
    } else {
      assert UniqueIds(init);
      assert init[k] == rows[k];
      DeleteRemovesExactlyOne(init, k);
    }
  }

  lemma {:induction false} WithoutIdOfAbsent(rows: seq<Drink>, id: string)
    requires forall i :: 0 <= i < |rows| ==> rows[i].id != id
    ensures WithoutId(rows, id) == rows
  {
    if rows != [] {
      var init := rows[..|rows| - 1];
      assert forall i :: 0 <= i < |init| ==> init[i] == rows[i];
      WithoutIdOfAbsent(init, id);
      assert rows == init + [rows[|rows| - 1]];
    }
  }

  lemma {:induction false} WithoutIdKeepsUnique(rows: seq<Drink>, id: string)
    requires UniqueIds(rows)
    ensures UniqueIds(WithoutId(rows, id))
  {
    if rows != [] {
      var init, last := rows[..|rows| - 1], rows[|rows| - 1];
      WithoutIdKeepsUnique(init, id);
      WithoutIdMembers(init, id);
      var w := WithoutId(init, id);
      forall d | d in w ensures d.id != last.id {
        var i :| 0 <= i < |init| && init[i] == d;
        assert rows[i] == d;
      }
    }
  }

  lemma {:induction false} WithoutUserKeepsUnique(rows: seq<Drink>, user: string)
    requires UniqueIds(rows)
    ensures UniqueIds(WithoutUser(rows, user))
  {
    if rows != [] {
      var init, last := rows[..|rows| - 1], rows[|rows| - 1];
      WithoutUserKeepsUnique(init, user);
      var w := WithoutUser(init, user);
      forall d | d in w ensures d.id != last.id {
        var i :| 0 <= i < |init| && init[i] == d;
        assert rows[i] == d;
      }
    }
  }

  /** The table the DAO reads and writes. */
  class DrinkTable {
    var rows: seq<Drink>

    ghost predicate Valid()
      reads this
    {
      UniqueIds(rows)
    }

    constructor()
      ensures Valid() && rows == []
    {
      rows := [];
    }

    /** `getDrinksForUser` on the current contents. */
    function DrinksForUser(user: string): seq<Drink>
      reads this
    {
      Query(rows, user)
    }

    /**
     * `insertDrink`: appends the row. A second row with the same key
     * violates the primary key; Room then aborts the insert and throws,
     * which is modelled as `inserted == false` with the table unchanged.
     */
    method InsertDrink(d: Drink) returns (inserted: bool)
      requires Valid()
      modifies this
      ensures Valid()
      ensures inserted <==> !HasId(old(rows), d.id)
      ensures rows == if inserted then old(rows) + [d] else old(rows)
    {
      inserted := !HasId(rows, d.id);
      if inserted {
        rows := rows + [d];
      }
    }

    /** `deleteDrink`: removes the row whose key is `d.id`, if any. */
    method DeleteDrink(d: Drink)
      requires Valid()
      modifies this
      ensures Valid()
      ensures rows == WithoutId(old(rows), d.id)
    {
      WithoutIdKeepsUnique(rows, d.id);
      rows := WithoutId(rows, d.id);
    }

    /** `deleteAllForUser`: removes every row of `user`. */
    method DeleteAllForUser(user: string)
      requires Valid()
      modifies this
      ensures Valid()
      ensures rows == WithoutUser(old(rows), user)
      ensures DrinksForUser(user) == []
    {
      WithoutUserKeepsUnique(rows, user);
      rows := WithoutUser(rows, user);
      DeleteAllIsolation(old(rows), user, user);
    }
  }
}
