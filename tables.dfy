/**
 * Keyed sequences of rows: how the database finds, replaces and removes a row by
 * its primary key, and what "keys are unique" gives the queries over it.
 */
module Tables {
  import opened Nullable
  import opened Guids
  import opened Query

  predicate HasKey<T>(rows: seq<T>, key: T -> Guid, id: Guid)
  {
    exists i :: 0 <= i < |rows| && key(rows[i]) == id
  }

  predicate UniqueKeys<T>(rows: seq<T>, key: T -> Guid)
  {
    forall i, j :: 0 <= i < j < |rows| ==> key(rows[i]) != key(rows[j])
  }

  /** `FindAsync(id)`: the row with that key, or null when there is none. */
  function Find<T>(rows: seq<T>, key: T -> Guid, id: Guid): (r: Option<T>)
    ensures r.Some? <==> HasKey(rows, key, id)
    ensures r.Some? ==> key(r.value) == id && exists i :: 0 <= i < |rows| && rows[i] == r.value
  {
    if rows == [] then None
    else if key(rows[0]) == id then Some(rows[0])
    else
      var r := Find(rows[1..], key, id);
      assert forall i :: 0 <= i < |rows| - 1 ==> rows[1..][i] == rows[i + 1];
      r
  }

  /** With unique keys, the row found for an id is the only row with that id. */
  lemma FindUnique<T>(rows: seq<T>, key: T -> Guid, k: nat)
    requires UniqueKeys(rows, key) && k < |rows|
    ensures Find(rows, key, key(rows[k])) == Some(rows[k])
  {
    var r := Find(rows, key, key(rows[k]));
    var i :| 0 <= i < |rows| && rows[i] == r.value;
    assert i == k;
  }

  /** Saving a modified entity: every row with the entity's key becomes the new row. */
  function Replace<T>(rows: seq<T>, key: T -> Guid, row: T): (r: seq<T>)
    ensures |r| == |rows|
    ensures forall i :: 0 <= i < |rows| ==> r[i] == if key(rows[i]) == key(row) then row else rows[i]
  {
    seq(|rows|, i requires 0 <= i < |rows| => if key(rows[i]) == key(row) then row else rows[i])
  }

  /** Replacing rows by one with the same key keeps the key set and its uniqueness. */
  lemma ReplaceKeepsKeys<T>(rows: seq<T>, key: T -> Guid, row: T)
    requires UniqueKeys(rows, key)
    ensures UniqueKeys(Replace(rows, key, row), key)
    ensures forall id :: HasKey(Replace(rows, key, row), key, id) <==> HasKey(rows, key, id)
  {
    var r := Replace(rows, key, row);
    assert forall i :: 0 <= i < |rows| ==> key(r[i]) == key(rows[i]);
    forall id | HasKey(rows, key, id) ensures HasKey(r, key, id) {
      var i :| 0 <= i < |rows| && key(rows[i]) == id;
      assert key(r[i]) == id;
    }
  }

  /** Appending a row whose key is new keeps keys unique. */
  lemma AppendKeepsUnique<T>(rows: seq<T>, key: T -> Guid, row: T)
    requires UniqueKeys(rows, key) && !HasKey(rows, key, key(row))
    ensures UniqueKeys(rows + [row], key)
  {
    var r := rows + [row];
    forall i, j | 0 <= i < j < |r| ensures key(r[i]) != key(r[j]) {
      if j == |rows| {
        assert key(rows[i]) != key(row);
      }
    }
  }

  /** Removing rows (any filter) keeps keys unique. */
  lemma {:induction false} FilterKeepsUnique<T>(rows: seq<T>, key: T -> Guid, p: T -> bool)
    requires UniqueKeys(rows, key)
    ensures UniqueKeys(Filter(rows, p), key)
  {
    if rows != [] {
      var tail := rows[1..];
      assert UniqueKeys(tail, key) by {
        forall i, j | 0 <= i < j < |tail| ensures key(tail[i]) != key(tail[j]) {
          assert tail[i] == rows[i + 1] && tail[j] == rows[j + 1];
        }
      }
      FilterKeepsUnique(tail, key, p);
      var ft := Filter(tail, p);
      if p(rows[0]) {
        var r := [rows[0]] + ft;
        forall i, j | 0 <= i < j < |r| ensures key(r[i]) != key(r[j]) {
          if i == 0 {
            assert r[j] == ft[j - 1] && ft[j - 1] in tail;
            var k :| 0 <= k < |tail| && tail[k] == ft[j - 1];
            assert tail[k] == rows[k + 1];
          } else {
            assert r[i] == ft[i - 1] && r[j] == ft[j - 1];
          }
        }
      }
    }
  }

  /** `Remove(entity)`: the rows whose key is not `id`, in their order. */
  function Without<T(==)>(rows: seq<T>, key: T -> Guid, id: Guid): (r: seq<T>)
    ensures !HasKey(r, key, id)
    ensures forall i :: 0 <= i < |r| ==> r[i] in rows
    ensures forall i :: 0 <= i < |rows| && key(rows[i]) != id ==> rows[i] in r
    ensures !HasKey(rows, key, id) ==> r == rows
  {
    var r := Filter(rows, KeyOtherThan(key, id));
    assert !HasKey(rows, key, id) ==> r == rows by {
      if !HasKey(rows, key, id) {
        FilterAll(rows, KeyOtherThan(key, id));
      }
    }
    r
  }

  function KeyOtherThan<T>(key: T -> Guid, id: Guid): T -> bool
  {
    row => key(row) != id
  }

  /** Filtering by a predicate every element meets changes nothing. */
  lemma {:induction false} FilterAll<T>(s: seq<T>, p: T -> bool)
    requires forall i :: 0 <= i < |s| ==> p(s[i])
    ensures Filter(s, p) == s
  {
    if s != [] {
      FilterAll(s[1..], p);
    }
  }

  /** Unique keys imply no row occurs twice. */
  lemma UniqueKeysDistinct<T>(rows: seq<T>, key: T -> Guid)
    requires UniqueKeys(rows, key)
    ensures Distinct(rows)
  {
  }

  /**
   * Over a store whose keys are unique, two different pages of the same query share
   * no row, and consecutive pages rebuild the whole query result.
   */
  lemma StorePages<T>(rows: seq<T>, key: T -> Guid, matches: T -> bool, p: int, q: int, pageSize: int)
    requires UniqueKeys(rows, key) && 1 <= p < q && 1 <= pageSize <= MaxPageSize
    ensures forall x :: x in Paginate(rows, matches, p, pageSize).items ==> x !in Paginate(rows, matches, q, pageSize).items
    ensures PagesUpTo(Filter(rows, matches), pageSize, PageCount(|Filter(rows, matches)|, pageSize)) == Filter(rows, matches)
  {
    FilterKeepsUnique(rows, key, matches);
    UniqueKeysDistinct(Filter(rows, matches), key);
    PagesDisjoint(Filter(rows, matches), pageSize, p, q);
    PagesReconstruct(Filter(rows, matches), pageSize);
  }

  /** Every row satisfies `ok`: the row invariant a table keeps. */
  predicate Every<T>(rows: seq<T>, ok: T -> bool)
  {
    forall i :: 0 <= i < |rows| ==> ok(rows[i])
  }

  lemma EveryMember<T>(rows: seq<T>, ok: T -> bool, row: T)
    requires Every(rows, ok) && row in rows
    ensures ok(row)
  {
    var i :| 0 <= i < |rows| && rows[i] == row;
  }

  /** Appending a row that satisfies the invariant keeps it. */
  lemma EveryAppend<T>(rows: seq<T>, ok: T -> bool, row: T)
    requires Every(rows, ok) && ok(row)
    ensures Every(rows + [row], ok)
  {
    var r := rows + [row];
    forall i | 0 <= i < |r| ensures ok(r[i]) {
      if i < |rows| {
        assert r[i] == rows[i];
      }
    }
  }

  /** Overwriting a row with one that satisfies the invariant keeps it. */
  lemma EveryReplace<T>(rows: seq<T>, key: T -> Guid, ok: T -> bool, row: T)
    requires Every(rows, ok) && ok(row)
    ensures Every(Replace(rows, key, row), ok)
  {
    var r := Replace(rows, key, row);
    forall i | 0 <= i < |r| ensures ok(r[i]) {
      assert r[i] == row || r[i] == rows[i];
    }
  }

  /** Keeping only rows of a table keeps its invariant. */
  lemma EverySubset<T>(rows: seq<T>, kept: seq<T>, ok: T -> bool)
    requires Every(rows, ok) && forall i :: 0 <= i < |kept| ==> kept[i] in rows
    ensures Every(kept, ok)
  {
    forall i | 0 <= i < |kept| ensures ok(kept[i]) {
      EveryMember(rows, ok, kept[i]);
    }
  }
}
