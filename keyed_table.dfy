/**
 * Tables whose primary key is the user's email and which the backend writes only
 * with `REPLACE INTO` (user_locations and push_tokens in backend/index.js).
 * A table is the sequence of its rows; REPLACE deletes every row with the key
 * and inserts the new one, so the primary-key invariant `UniqueKeys` is kept.
 */
module KeyedTable {
  import opened Wrappers
  import opened Schema

  datatype Row<V> = Row(key: Email, value: V)

  /** The primary-key constraint: no two rows share an email. */
  ghost predicate UniqueKeys<V>(rows: seq<Row<V>>)
  {
    forall i, j :: 0 <= i < j < |rows| ==> rows[i].key != rows[j].key
  }

  /** The row for `k` (the first one, should the key not be unique), as a LEFT JOIN sees it. */
  function Lookup<V>(rows: seq<Row<V>>, k: Email): (r: Option<V>)
    ensures r.None? <==> forall i :: 0 <= i < |rows| ==> rows[i].key != k
    ensures r.Some? ==> Row(k, r.value) in rows
  {
    if rows == [] then None
    else if rows[0].key == k then Some(rows[0].value)
    else Lookup(rows[1..], k)
  }

  /** `DELETE FROM t WHERE email = k`: the rows of other keys, in their order. */
  function Without<V(!new)>(rows: seq<Row<V>>, k: Email): (r: seq<Row<V>>)
    ensures forall row :: row in r <==> row in rows && row.key != k
    ensures |r| <= |rows|
  {
    if rows == [] then []
    else if rows[0].key == k then Without(rows[1..], k)
    else [rows[0]] + Without(rows[1..], k)
  }

  /** `REPLACE INTO t (email, ...) VALUES (k, v)`. */
  function Replace<V(!new)>(rows: seq<Row<V>>, k: Email, v: V): seq<Row<V>>
  {
    Without(rows, k) + [Row(k, v)]
  }

  lemma {:induction false} LookupWithout<V(!new)>(rows: seq<Row<V>>, k: Email, other: Email)
    requires other != k
    ensures Lookup(Without(rows, k), other) == Lookup(rows, other)
  {
    if rows != [] {
      LookupWithout(rows[1..], k, other);
    }
  }

  lemma {:induction false} LookupAppendMissing<V>(rows: seq<Row<V>>, row: Row<V>)
    requires forall i :: 0 <= i < |rows| ==> rows[i].key != row.key
    ensures Lookup(rows + [row], row.key) == Some(row.value)
  {
    if rows != [] {
      assert (rows + [row])[1..] == rows[1..] + [row];
      LookupAppendMissing(rows[1..], row);
    }
  }

  lemma {:induction false} LookupAppendOther<V>(rows: seq<Row<V>>, row: Row<V>, other: Email)
    requires other != row.key
    ensures Lookup(rows + [row], other) == Lookup(rows, other)
  {
    if rows != [] {
      assert (rows + [row])[1..] == rows[1..] + [row];
      LookupAppendOther(rows[1..], row, other);
    }
  }

  /**
   * REPLACE is an upsert keyed by email: the key now maps to the new value,
   * every other key keeps its row, and there is still at most one row per key.
   */
  lemma ReplaceIsUpsert<V(!new)>(rows: seq<Row<V>>, k: Email, v: V)
    ensures Lookup(Replace(rows, k, v), k) == Some(v)
    ensures forall other :: other != k ==> Lookup(Replace(rows, k, v), other) == Lookup(rows, other)
    ensures UniqueKeys(rows) ==> UniqueKeys(Replace(rows, k, v))
    ensures |Replace(rows, k, v)| <= |rows| + 1
  {
    var kept := Without(rows, k);
    assert forall i :: 0 <= i < |kept| ==> kept[i].key != k by {
      forall i | 0 <= i < |kept| ensures kept[i].key != k {
        assert kept[i] in kept;
      }
    }
    LookupAppendMissing(kept, Row(k, v));
    forall other | other != k
      ensures Lookup(Replace(rows, k, v), other) == Lookup(rows, other)
    {
      LookupAppendOther(kept, Row(k, v), other);
      LookupWithout(rows, k, other);
    }
    if UniqueKeys(rows) {
      WithoutKeepsUnique(rows, k);
    }
  }

  lemma {:induction false} WithoutKeepsUnique<V(!new)>(rows: seq<Row<V>>, k: Email)
    requires UniqueKeys(rows)
    ensures UniqueKeys(Without(rows, k))
  {
    if rows != [] {
      assert UniqueKeys(rows[1..]) by {
        forall i, j | 0 <= i < j < |rows[1..]| ensures rows[1..][i].key != rows[1..][j].key {
          assert rows[1..][i] == rows[i + 1] && rows[1..][j] == rows[j + 1];
        }
      }
      WithoutKeepsUnique(rows[1..], k);
      var tail := Without(rows[1..], k);
      if rows[0].key != k {
        forall i | 0 <= i < |tail| ensures tail[i].key != rows[0].key {
          assert tail[i] in rows[1..];
          var j :| 0 <= j < |rows[1..]| && rows[1..][j] == tail[i];
          assert rows[j + 1] == tail[i];
        }
        var r := [rows[0]] + tail;
        forall i, j | 0 <= i < j < |r| ensures r[i].key != r[j].key {
          if i == 0 {
            assert r[j] == tail[j - 1];
          } else {
            assert r[i] == tail[i - 1] && r[j] == tail[j - 1];
          }
        }
      }
    }
  }

  /** Under the primary-key constraint the row found for a key is the only row with that key. */
  lemma {:induction false} LookupUnique<V>(rows: seq<Row<V>>, k: Email, v: V)
    requires UniqueKeys(rows) && Row(k, v) in rows
    ensures Lookup(rows, k) == Some(v)
  {
    if rows[0] != Row(k, v) {
      assert rows[0].key != k by {
        var j :| 0 <= j < |rows| && rows[j] == Row(k, v);
        assert j != 0;
      }
      assert Row(k, v) in rows[1..];
      assert UniqueKeys(rows[1..]) by {
        forall i, j | 0 <= i < j < |rows[1..]| ensures rows[1..][i].key != rows[1..][j].key {
          assert rows[1..][i] == rows[i + 1] && rows[1..][j] == rows[j + 1];
        }
      }
      LookupUnique(rows[1..], k, v);
    }
  }
}
