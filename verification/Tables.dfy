/** Primary-keyed tables as lists of rows, the SQL statements the SQLite store
    issues on them, and what each statement does to the table seen as a map. */
module Tables {
  import opened Records

  datatype Row<+K, +V> = Row(key: K, cols: V)

  /** PRIMARY KEY: no two rows share a key. */
  ghost predicate Keyed<K, V>(rows: seq<Row<K, V>>) {
    forall i, j :: 0 <= i < j < |rows| ==> rows[i].key != rows[j].key
  }

  /** SELECT ... WHERE key = ? */
  function Select<K(==), V>(rows: seq<Row<K, V>>, key: K): Option<V> {
    if rows == [] then None
    else if rows[0].key == key then Some(rows[0].cols)
    else Select(rows[1..], key)
  }

  /** DELETE ... WHERE where */
  function Delete<K, V>(rows: seq<Row<K, V>>, where: Row<K, V> -> bool): seq<Row<K, V>> {
    if rows == [] then []
    else (if where(rows[0]) then [] else [rows[0]]) + Delete(rows[1..], where)
  }

  /** UPDATE ... SET set WHERE where */
  function Update<K, V>(rows: seq<Row<K, V>>, where: Row<K, V> -> bool, change: V -> V): seq<Row<K, V>> {
    if rows == [] then []
    else [if where(rows[0]) then Row(rows[0].key, change(rows[0].cols)) else rows[0]] + Update(rows[1..], where, change)
  }

  /** INSERT OR REPLACE, and INSERT ... ON CONFLICT DO UPDATE of every column. */
  function Replace<K(==), V>(rows: seq<Row<K, V>>, key: K, cols: V): seq<Row<K, V>> {
    Delete(rows, (r: Row<K, V>) => r.key == key) + [Row(key, cols)]
  }

  /** The number of rows a statement's WHERE clause selects. */
  function Affected<K, V>(rows: seq<Row<K, V>>, where: Row<K, V> -> bool): nat {
    if rows == [] then 0
    else (if where(rows[0]) then 1 else 0) + Affected(rows[1..], where)
  }

  /** The table as a map, first row first. */
  function Contents<K(==), V>(rows: seq<Row<K, V>>): map<K, V> {
    if rows == [] then map[]
    else Contents(rows[1..])[rows[0].key := rows[0].cols]
  }

  lemma {:induction false} SelectContents<K, V>(rows: seq<Row<K, V>>, key: K)
    ensures Select(rows, key) == if key in Contents(rows) then Some(Contents(rows)[key]) else None
  {
    if rows != [] {
      SelectContents(rows[1..], key);
    }
  }

  lemma {:induction false} AffectedByKey<K, V>(rows: seq<Row<K, V>>, where: Row<K, V> -> bool, key: K)
    requires forall r :: where(r) <==> r.key == key
    ensures Affected(rows, where) == 0 <==> key !in Contents(rows)
  {
    if rows != [] {
      AffectedByKey(rows[1..], where, key);
    }
  }

  lemma {:induction false} ContentsKeys<K, V>(rows: seq<Row<K, V>>)
    ensures forall k :: k in Contents(rows) <==> exists i :: 0 <= i < |rows| && rows[i].key == k
  {
    if rows != [] {
      ContentsKeys(rows[1..]);
      forall k ensures k in Contents(rows) <==> exists i :: 0 <= i < |rows| && rows[i].key == k {
        if k in Contents(rows[1..]) {
          var i :| 0 <= i < |rows[1..]| && rows[1..][i].key == k;
          assert rows[i + 1].key == k;
        }
        if exists i :: 0 <= i < |rows| && rows[i].key == k {
          var i :| 0 <= i < |rows| && rows[i].key == k;
          if i > 0 { assert rows[1..][i - 1].key == k; }
        }
      }
    }
  }

  lemma KeyedTail<K, V>(rows: seq<Row<K, V>>)
    requires Keyed(rows) && rows != []
    ensures Keyed(rows[1..]) && rows[0].key !in Contents(rows[1..])
  {
    ContentsKeys(rows[1..]);
    forall i | 0 <= i < |rows[1..]| ensures rows[1..][i].key != rows[0].key {
      assert rows[1..][i] == rows[i + 1];
    }
  }

  lemma {:induction false} KeyedCons<K, V>(head: Row<K, V>, rest: seq<Row<K, V>>)
    requires Keyed(rest) && head.key !in Contents(rest)
    ensures Keyed([head] + rest)
  {
    ContentsKeys(rest);
    var rows := [head] + rest;
    forall i, j | 0 <= i < j < |rows| ensures rows[i].key != rows[j].key {
      assert rows[j] == rest[j - 1];
      if i > 0 { assert rows[i] == rest[i - 1]; }
    }
  }

  lemma {:induction false} DeleteContents<K, V>(rows: seq<Row<K, V>>, where: Row<K, V> -> bool)
    requires Keyed(rows)
    ensures Keyed(Delete(rows, where))
    ensures Contents(Delete(rows, where))
         == map k | k in Contents(rows) && !where(Row(k, Contents(rows)[k])) :: Contents(rows)[k]
  {
    if rows != [] {
      KeyedTail(rows);
      DeleteContents(rows[1..], where);
      var rest := Delete(rows[1..], where);
      if !where(rows[0]) {
        KeyedCons(rows[0], rest);
        assert Delete(rows, where) == [rows[0]] + rest;
        assert ([rows[0]] + rest)[1..] == rest;
      } else {
        assert Delete(rows, where) == rest;
      }
    }
  }

  lemma {:induction false} UpdateContents<K, V>(rows: seq<Row<K, V>>, where: Row<K, V> -> bool, change: V -> V)
    requires Keyed(rows)
    ensures Keyed(Update(rows, where, change))
    ensures Contents(Update(rows, where, change)) == map k | k in Contents(rows) ::
      if where(Row(k, Contents(rows)[k])) then change(Contents(rows)[k]) else Contents(rows)[k]
  {
    if rows != [] {
      KeyedTail(rows);
      UpdateContents(rows[1..], where, change);
      var rest := Update(rows[1..], where, change);
      var head := if where(rows[0]) then Row(rows[0].key, change(rows[0].cols)) else rows[0];
      KeyedCons(head, rest);
      assert Update(rows, where, change) == [head] + rest;
      assert ([head] + rest)[1..] == rest;
    }
  }

  lemma {:induction false} ContentsAppend<K, V>(rows: seq<Row<K, V>>, row: Row<K, V>)
    requires row.key !in Contents(rows)
    ensures Contents(rows + [row]) == Contents(rows)[row.key := row.cols]
  {
    if rows == [] {
      assert [row][1..] == [] && [] + [row] == [row];
    } else {
      ContentsAppend(rows[1..], row);
      assert (rows + [row])[1..] == rows[1..] + [row];
    }
  }

  /** Replacing a row keeps the key unique and is a map update. */
  lemma {:induction false} ReplaceContents<K, V>(rows: seq<Row<K, V>>, key: K, cols: V)
    requires Keyed(rows)
    ensures Keyed(Replace(rows, key, cols)) && Contents(Replace(rows, key, cols)) == Contents(rows)[key := cols]
  {
    var others := Delete(rows, (r: Row<K, V>) => r.key == key);
    DeleteContents(rows, (r: Row<K, V>) => r.key == key);
    ContentsKeys(others);
    ContentsAppend(others, Row(key, cols));
  }

  /** Inserting under a key not yet present. */
  lemma {:induction false} InsertContents<K, V>(rows: seq<Row<K, V>>, key: K, cols: V)
    requires Keyed(rows) && key !in Contents(rows)
    ensures Keyed(rows + [Row(key, cols)]) && Contents(rows + [Row(key, cols)]) == Contents(rows)[key := cols]
  {
    ContentsKeys(rows);
    ContentsAppend(rows, Row(key, cols));
  }
}
