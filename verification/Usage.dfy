/**
  Rows of the file list and their usage: what one reclaim cycle takes and keeps, by workspace, and how the
  totals split.  Sums are over sequences of rows, under the key usage is recorded with, in bytes and in
  files; everything is by induction over the list.  Nothing in here changes anything: Books says what steps
  do to list and ledger, and Retention what the methods of the store do.
*/
module Usage {
  datatype FileRow = FileRow(id: nat, workspace: nat, signal: nat, size: int, maxTs: int, remote: bool, deleted: bool)

  predicate DistinctIds(rows: seq<FileRow>) {
    forall i, j :: 0 <= i < j < |rows| ==> rows[i].id != rows[j].id
  }

  /** What usage is recorded under; the day of the cycle is fixed. */
  datatype Key = Key(workspace: nat, signal: nat)

  datatype Usage = Usage(bytes: nat, files: nat)

  /** Which of the two numbers of a usage record. */
  datatype Measure = InBytes | InFiles

  function Size(r: FileRow): nat {
    if r.size > 0 then r.size else 0
  }

  function Amount(r: FileRow, key: Key, m: Measure): nat {
    if r.workspace != key.workspace || r.signal != key.signal then 0 else if m == InBytes then Size(r) else 1
  }

  function Total(rows: seq<FileRow>, key: Key, m: Measure): nat {
    if rows == [] then 0 else Total(rows[..|rows| - 1], key, m) + Amount(rows[|rows| - 1], key, m)
  }

  function At(ledger: map<Key, Usage>, key: Key, m: Measure): nat {
    if key !in ledger then 0 else if m == InBytes then ledger[key].bytes else ledger[key].files
  }

  /** One more file under its key. */
  function Added(ledger: map<Key, Usage>, r: FileRow): map<Key, Usage> {
    var key := Key(r.workspace, r.signal);
    var u := if key in ledger then ledger[key] else Usage(0, 0);
    ledger[key := Usage(u.bytes + Size(r), u.files + 1)]
  }

  lemma {:induction false} AddedAt(ledger: map<Key, Usage>, r: FileRow, key: Key, m: Measure)
    ensures At(Added(ledger, r), key, m) == At(ledger, key, m) + Amount(r, key, m)
  {}

  // ---------------------------------------------------------------- one reclaim cycle

  /** What a cycle finds: live leases, bytes on disk, whether object storage is configured, deletes that fail. */
  datatype Cycle = Cycle(leased: set<nat>, disk: set<nat>, storage: bool, refused: set<nat>)

  /** The row may be dropped: its bytes were removed, were already gone, or cannot be reached. */
  predicate Removable(c: Cycle, r: FileRow) {
    if r.remote then !c.storage || r.id !in c.refused else r.id !in c.disk || r.id !in c.refused
  }

  predicate Taken(c: Cycle, r: FileRow, ws: set<nat>) {
    r.deleted && r.id !in c.leased && Removable(c, r) && r.workspace in ws
  }

  function Kept(rows: seq<FileRow>, c: Cycle, ws: set<nat>): seq<FileRow> {
    if rows == [] then [] else
      var last := rows[|rows| - 1];
      Kept(rows[..|rows| - 1], c, ws) + if Taken(c, last, ws) then [] else [last]
  }

  function Reclaimed(rows: seq<FileRow>, c: Cycle, ws: set<nat>): seq<FileRow> {
    if rows == [] then [] else
      var last := rows[|rows| - 1];
      Reclaimed(rows[..|rows| - 1], c, ws) + if Taken(c, last, ws) then [last] else []
  }

  /** Rows a cycle passes over because of a live lease. */
  function Skipped(rows: seq<FileRow>, c: Cycle, ws: set<nat>): nat {
    if rows == [] then 0 else
      var last := rows[|rows| - 1];
      Skipped(rows[..|rows| - 1], c, ws) + if last.deleted && last.id in c.leased && last.workspace in ws then 1 else 0
  }

  function Cleared(rows: seq<FileRow>, c: Cycle, ws: set<nat>): set<nat> {
    set r | r in rows && Taken(c, r, ws) && (r.remote ==> c.storage) :: r.id
  }

  /** One more row in the list. */
  lemma {:induction false} RowNext(rows: seq<FileRow>, r: FileRow, c: Cycle, ws: set<nat>)
    ensures Kept(rows + [r], c, ws) == if Taken(c, r, ws) then Kept(rows, c, ws) else Kept(rows, c, ws) + [r]
    ensures Reclaimed(rows + [r], c, ws) ==
              if Taken(c, r, ws) then Reclaimed(rows, c, ws) + [r] else Reclaimed(rows, c, ws)
    ensures Skipped(rows + [r], c, ws) ==
              Skipped(rows, c, ws) + if r.deleted && r.id in c.leased && r.workspace in ws then 1 else 0
  {
    assert (rows + [r])[..|rows|] == rows;
  }

  lemma {:induction false} TotalNext(rows: seq<FileRow>, r: FileRow, key: Key, m: Measure)
    ensures Total(rows + [r], key, m) == Total(rows, key, m) + Amount(r, key, m)
  {
    assert (rows + [r])[..|rows|] == rows;
  }

  lemma {:induction false} NoRows(c: Cycle, ws: set<nat>, key: Key, m: Measure)
    ensures Kept([], c, ws) == Reclaimed([], c, ws) == [] && Cleared([], c, ws) == {} && Total([], key, m) == 0
  {}

  /** Every file is either still listed or accounted for, never both. */
  lemma {:induction false} Accounted(rows: seq<FileRow>, c: Cycle, ws: set<nat>, key: Key, m: Measure)
    ensures Total(Kept(rows, c, ws), key, m) + Total(Reclaimed(rows, c, ws), key, m) == Total(rows, key, m)
  {
    hide Kept, Reclaimed, Total, Taken, Amount;
    if rows == [] {
      NoRows(c, ws, key, m);
    } else {
      var init, last := rows[..|rows| - 1], rows[|rows| - 1];
      assert rows == init + [last];
      Accounted(init, c, ws, key, m);
      RowNext(init, last, c, ws);
      TotalNext(init, last, key, m);
      if Taken(c, last, ws) {
        TotalNext(Reclaimed(init, c, ws), last, key, m);
      } else {
        TotalNext(Kept(init, c, ws), last, key, m);
      }
    }
  }

  lemma {:induction false} TakenApart(c: Cycle, r: FileRow, ws: set<nat>, w: nat)
    ensures Taken(c, r, ws + {w}) <==> Taken(c, r, ws) || Taken(c, r, {w})
    ensures w !in ws ==> !(Taken(c, r, ws) && Taken(c, r, {w}))
  {}

  /** Workspaces are reclaimed one by one, and their shares add up. */
  lemma {:induction false} OneMore(rows: seq<FileRow>, c: Cycle, ws: set<nat>, w: nat, key: Key, m: Measure)
    requires w !in ws
    ensures Total(Reclaimed(rows, c, ws + {w}), key, m) ==
              Total(Reclaimed(rows, c, ws), key, m) + Total(Reclaimed(rows, c, {w}), key, m)
  {
    hide Reclaimed, Total, Taken, Amount;
    if rows == [] {
      NoRows(c, ws, key, m);
      NoRows(c, {w}, key, m);
      NoRows(c, ws + {w}, key, m);
    } else {
      var init, last := rows[..|rows| - 1], rows[|rows| - 1];
      assert rows == init + [last];
      OneMore(init, c, ws, w, key, m);
      TakenApart(c, last, ws, w);
      RowNext(init, last, c, ws);
      RowNext(init, last, c, {w});
      RowNext(init, last, c, ws + {w});
      TotalNext(Reclaimed(init, c, ws), last, key, m);
      TotalNext(Reclaimed(init, c, {w}), last, key, m);
      TotalNext(Reclaimed(init, c, ws + {w}), last, key, m);
    }
  }

  /** Rows without these ids. */
  function Without(rows: seq<FileRow>, ids: set<nat>): seq<FileRow> {
    if rows == [] then [] else
      var last := rows[|rows| - 1];
      Without(rows[..|rows| - 1], ids) + if last.id in ids then [] else [last]
  }

  function Ids(rows: seq<FileRow>): set<nat> {
    set r | r in rows :: r.id
  }

  lemma {:induction false} ReclaimedMembers(rows: seq<FileRow>, c: Cycle, ws: set<nat>)
    ensures forall r :: r in Reclaimed(rows, c, ws) <==> r in rows && Taken(c, r, ws)
  {
    if rows != [] {
      ReclaimedMembers(rows[..|rows| - 1], c, ws);
      assert forall r :: r in rows <==> r in rows[..|rows| - 1] || r == rows[|rows| - 1];
    }
  }

  lemma {:induction false} SameRow(rows: seq<FileRow>, a: FileRow, b: FileRow)
    requires DistinctIds(rows) && a in rows && b in rows && a.id == b.id
    ensures a == b
  {}

  lemma {:induction false} WithoutNext(rows: seq<FileRow>, r: FileRow, ids: set<nat>)
    ensures Without(rows + [r], ids) == if r.id in ids then Without(rows, ids) else Without(rows, ids) + [r]
    ensures Without([], ids) == []
  {
    assert (rows + [r])[..|rows|] == rows;
  }

  /** The ids a cycle takes in a workspace are those of the rows it takes. */
  lemma {:induction false} IdTaken(all: seq<FileRow>, c: Cycle, w: nat, r: FileRow)
    requires DistinctIds(all) && r in all
    ensures r.id in Ids(Reclaimed(all, c, {w})) <==> Taken(c, r, {w})
  {
    ReclaimedMembers(all, c, {w});
    hide Taken, Reclaimed;
    if r.id in Ids(Reclaimed(all, c, {w})) {
      var x :| x in Reclaimed(all, c, {w}) && x.id == r.id;
      SameRow(all, x, r);
    }
  }

  /** Dropping the rows of one more workspace by their ids. */
  lemma {:induction false} DropNext(all: seq<FileRow>, c: Cycle, ws: set<nat>, w: nat, n: nat)
    requires DistinctIds(all) && n <= |all|
    ensures Without(Kept(all[..n], c, ws), Ids(Reclaimed(all, c, {w}))) == Kept(all[..n], c, ws + {w})
  {
    var ids := Ids(Reclaimed(all, c, {w}));
    if n == 0 {
      NoRows(c, ws, Key(0, 0), InBytes);
      NoRows(c, ws + {w}, Key(0, 0), InBytes);
      assert all[..0] == [];
    } else {
      var init, last := all[..n - 1], all[n - 1];
      assert all[..n] == init + [last];
      DropNext(all, c, ws, w, n - 1);
      IdTaken(all, c, w, last);
      TakenApart(c, last, ws, w);
      hide Kept, Reclaimed, Without, Taken, Ids, DistinctIds;
      RowNext(init, last, c, ws);
      RowNext(init, last, c, ws + {w});
      WithoutNext(Kept(init, c, ws), last, ids);
    }
  }

  lemma {:induction false} IdsNext(rows: seq<FileRow>, r: FileRow)
    ensures Ids(rows + [r]) == Ids(rows) + {r.id} && Ids([]) == {}
  {
    assert forall x :: x in rows + [r] <==> x in rows || x == r;
  }

  lemma {:induction false} WithoutNone(rows: seq<FileRow>)
    ensures Without(rows, {}) == rows
  {
    if rows != [] { WithoutNone(rows[..|rows| - 1]); }
  }
}
