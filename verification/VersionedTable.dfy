/** Append-only rows with a version, read through FINAL: the highest version of a key wins,
    the later row on a tie. */
module VersionedTable {
  import opened Basics

  datatype Row<K, V> = Row(key: K, val: V, version: nat)

  /** What a FINAL read returns for one key. */
  function FinalRow<K(==), V>(rows: seq<Row<K, V>>, k: K): (r: Option<Row<K, V>>)
    ensures r.Some? ==> r.value in rows && r.value.key == k
  {
    if rows == [] then None
    else
      var last := rows[|rows| - 1];
      var before := FinalRow(rows[..|rows| - 1], k);
      if last.key == k && (before.None? || before.value.version <= last.version) then Some(last) else before
  }

  /** The table as a map: the last row written for each key. */
  function LastWrites<K, V>(rows: seq<Row<K, V>>): map<K, V> {
    if rows == [] then map[] else LastWrites(rows[..|rows| - 1])[rows[|rows| - 1].key := rows[|rows| - 1].val]
  }

  /** Later rows of one key carry higher versions. */
  ghost predicate Ascending<K(!new), V(!new)>(rows: seq<Row<K, V>>) {
    forall i, j :: 0 <= i < j < |rows| && rows[i].key == rows[j].key ==> rows[i].version < rows[j].version
  }

  ghost predicate Bounded<K, V>(rows: seq<Row<K, V>>, version: nat) {
    forall r <- rows :: r.version <= version
  }

  /** FINAL returns a row no other row of its key outranks, and returns none only when there is none. */
  lemma {:induction false} FinalRowIsHighest<K, V>(rows: seq<Row<K, V>>, k: K)
    ensures FinalRow(rows, k).None? <==> forall r <- rows :: r.key != k
    ensures FinalRow(rows, k).Some? ==> forall r <- rows :: r.key == k ==> r.version <= FinalRow(rows, k).value.version
  {
    if rows != [] {
      FinalRowIsHighest(rows[..|rows| - 1], k);
      forall r <- rows ensures r in rows[..|rows| - 1] || r == rows[|rows| - 1] {
      }
    }
  }

  /** While versions ascend per key, reading FINAL is reading the last write. */
  lemma {:induction false} FinalIsLastWrite<K(!new), V(!new)>(rows: seq<Row<K, V>>, k: K)
    requires Ascending(rows)
    ensures FinalRow(rows, k).Some? <==> k in LastWrites(rows)
    ensures k in LastWrites(rows) ==> FinalRow(rows, k).value.val == LastWrites(rows)[k]
  {
    if rows != [] {
      var n := |rows| - 1;
      FinalIsLastWrite(rows[..n], k);
      if FinalRow(rows[..n], k).Some? {
        var i :| 0 <= i < n && rows[i] == FinalRow(rows[..n], k).value;
      }
    }
  }

  /** A row whose version was taken after every earlier one becomes the final row of its key
      and changes no other. */
  lemma AppendWins<K(!new), V(!new)>(rows: seq<Row<K, V>>, r: Row<K, V>)
    requires Ascending(rows) && Bounded(rows, r.version) && forall x <- rows :: x.version < r.version
    ensures Ascending(rows + [r]) && Bounded(rows + [r], r.version)
    ensures LastWrites(rows + [r]) == LastWrites(rows)[r.key := r.val]
  {
    assert (rows + [r])[..|rows|] == rows;
  }

  /** What an update with any version does to the read of its key: it is seen exactly when no
      earlier row of the key outranks it. A process restarted with a version source behind
      the stored rows therefore writes updates that FINAL never shows. */
  lemma UpdateIsSeenExactlyWhenNotOutranked<K(!new), V(!new)>(rows: seq<Row<K, V>>, r: Row<K, V>)
    ensures FinalRow(rows + [r], r.key) ==
      if forall x <- rows :: x.key == r.key ==> x.version <= r.version then Some(r) else FinalRow(rows, r.key)
  {
    assert (rows + [r])[..|rows|] == rows;
    FinalRowIsHighest(rows, r.key);
  }
}
