/**
  File list and usage ledger, under any number of overlapping reclaim cycles, soft deletions and new files.
*/
module Books {
  import opened Usage

  /** The file list, the next id, the usage recorded for reclaimed files, and whether a usage store is configured. */
  datatype Books = Books(rows: seq<FileRow>, nextId: nat, ledger: map<Key, Usage>, track: bool)

  datatype Step =
    | Commit(taken: seq<FileRow>)   // a cycle records these rows, as it listed them, and drops their ids
    | Retire(ids: set<nat>)         // soft deletion
    | Register(workspace: nat, signal: nat, size: int, maxTs: int, remote: bool)

  function Deltas(taken: seq<FileRow>): map<Key, Usage> {
    if taken == [] then map[] else Added(Deltas(taken[..|taken| - 1]), taken[|taken| - 1])
  }

  function Merged(ledger: map<Key, Usage>, deltas: map<Key, Usage>): map<Key, Usage> {
    map key | key in ledger.Keys + deltas.Keys ::
      Usage(At(ledger, key, InBytes) + At(deltas, key, InBytes), At(ledger, key, InFiles) + At(deltas, key, InFiles))
  }

  lemma {:induction false} MergedAt(ledger: map<Key, Usage>, deltas: map<Key, Usage>, key: Key, m: Measure)
    ensures At(Merged(ledger, deltas), key, m) == At(ledger, key, m) + At(deltas, key, m)
  {}

  function Retired(rows: seq<FileRow>, ids: set<nat>): seq<FileRow> {
    if rows == [] then [] else
      var last := rows[|rows| - 1];
      Retired(rows[..|rows| - 1], ids) + [if last.id in ids then last.(deleted := true) else last]
  }

  function NewRow(b: Books, st: Step): FileRow
    requires st.Register?
  {
    FileRow(b.nextId, st.workspace, st.signal, st.size, st.maxTs, st.remote, false)
  }

  function After(b: Books, st: Step): Books {
    match st
    case Commit(taken) =>
      b.(rows := Without(b.rows, Ids(taken)), ledger := if b.track then Merged(b.ledger, Deltas(taken)) else b.ledger)
    case Retire(ids) => b.(rows := Retired(b.rows, ids))
    case Register(_, _, _, _, _) => b.(rows := b.rows + [NewRow(b, st)], nextId := b.nextId + 1)
  }

  function Run(b: Books, steps: seq<Step>): Books {
    if steps == [] then b else After(Run(b, steps[..|steps| - 1]), steps[|steps| - 1])
  }

  ghost predicate WellKept(b: Books) {
    DistinctIds(b.rows) && forall r :: r in b.rows ==> r.id < b.nextId
  }

  /** The rows as some cycle listed them: those still there have the same size under the same key. */
  ghost predicate AsListed(b: Books, taken: seq<FileRow>) {
    && DistinctIds(taken)
    && (forall r :: r in taken ==> r.id < b.nextId)
    && (forall r, x :: r in taken && x in b.rows && x.id == r.id ==> SameUsage(x, r))
  }

  predicate SameUsage(x: FileRow, r: FileRow) {
    x.workspace == r.workspace && x.signal == r.signal && x.size == r.size
  }

  /** Usage on record and usage still listed. */
  function Held(b: Books, key: Key, m: Measure): nat {
    At(b.ledger, key, m) + Total(b.rows, key, m)
  }

  /** The rows of a listing whose ids are no longer in the list. */
  function Lapsed(rows: seq<FileRow>, taken: seq<FileRow>): seq<FileRow> {
    if taken == [] then [] else
      var last := taken[|taken| - 1];
      Lapsed(rows, taken[..|taken| - 1]) + if last.id in Ids(rows) then [] else [last]
  }

  lemma {:induction false} DeltasAt(taken: seq<FileRow>, key: Key, m: Measure)
    ensures At(Deltas(taken), key, m) == Total(taken, key, m)
  {
    if taken != [] {
      DeltasAt(taken[..|taken| - 1], key, m);
      AddedAt(Deltas(taken[..|taken| - 1]), taken[|taken| - 1], key, m);
    }
  }

  lemma {:induction false} DeltasNext(taken: seq<FileRow>, r: FileRow)
    ensures Deltas(taken + [r]) == Added(Deltas(taken), r) && Deltas([]) == map[]
  {
    assert (taken + [r])[..|taken|] == taken;
  }

  lemma {:induction false} WithoutMembers(rows: seq<FileRow>, ids: set<nat>)
    ensures forall r :: r in Without(rows, ids) <==> r in rows && r.id !in ids
    ensures DistinctIds(rows) ==> DistinctIds(Without(rows, ids))
  {
    if rows != [] {
      var init, last := rows[..|rows| - 1], rows[|rows| - 1];
      WithoutMembers(init, ids);
      assert rows == init + [last];
      if DistinctIds(rows) {
        assert DistinctIds(init);
        forall k | 0 <= k < |Without(init, ids)| ensures Without(init, ids)[k].id != last.id {
          assert Without(init, ids)[k] in init;
        }
      }
    }
  }

  lemma {:induction false} WithoutTwice(rows: seq<FileRow>, ids: set<nat>, id: nat)
    ensures Without(Without(rows, ids), {id}) == Without(rows, ids + {id})
  {
    if rows != [] {
      var init, last := rows[..|rows| - 1], rows[|rows| - 1];
      WithoutTwice(init, ids, id);
      if last.id !in ids {
        assert (Without(init, ids) + [last])[..|Without(init, ids)|] == Without(init, ids);
      } else {
        assert Without(init, ids) + [] == Without(init, ids);
      }
    }
  }

  lemma {:induction false} LapsedNext(rows: seq<FileRow>, taken: seq<FileRow>, r: FileRow)
    ensures Lapsed(rows, taken + [r]) == if r.id in Ids(rows) then Lapsed(rows, taken) else Lapsed(rows, taken) + [r]
  {
    assert (taken + [r])[..|taken|] == taken;
  }

  lemma {:induction false} FreshId(rows: seq<FileRow>, r: FileRow)
    requires DistinctIds(rows + [r])
    ensures DistinctIds(rows) && r.id !in Ids(rows)
  {
    forall i, j | 0 <= i < j < |rows| ensures rows[i].id != rows[j].id {
      assert (rows + [r])[i] == rows[i] && (rows + [r])[j] == rows[j];
    }
    forall x | x in rows ensures x.id != r.id {
      var k :| 0 <= k < |rows| && rows[k] == x;
      assert (rows + [r])[k].id != (rows + [r])[|rows|].id;
    }
  }

  /** Dropping one row takes its usage out of the list, if it is there. */
  lemma {:induction false} DropOne(rows: seq<FileRow>, r: FileRow, key: Key, m: Measure)
    requires DistinctIds(rows) && forall x :: x in rows && x.id == r.id ==> SameUsage(x, r)
    ensures Total(Without(rows, {r.id}), key, m) + (if r.id in Ids(rows) then Amount(r, key, m) else 0) ==
              Total(rows, key, m)
  {
    hide Total, Without, Ids, DistinctIds;
    if rows == [] {
      IdsNext([], r);
      WithoutNext([], r, {r.id});
    } else {
      var init, last := rows[..|rows| - 1], rows[|rows| - 1];
      assert rows == init + [last];
      FreshId(init, last);
      DropOne(init, r, key, m);
      IdsNext(init, last);
      WithoutNext(init, last, {r.id});
      TotalNext(init, last, key, m);
      TotalNext(Without(init, {r.id}), last, key, m);
    }
  }

  lemma {:induction false} IdsWithout(rows: seq<FileRow>, ids: set<nat>, id: nat)
    requires id !in ids
    ensures id in Ids(Without(rows, ids)) <==> id in Ids(rows)
  {
    WithoutMembers(rows, ids);
    hide Without;
    if id in Ids(rows) {
      var r :| r in rows && r.id == id;
      assert r in Without(rows, ids);
    }
  }

  /** A commit records each of its rows and drops those still there. */
  lemma {:induction false} DropAll(rows: seq<FileRow>, taken: seq<FileRow>, key: Key, m: Measure)
    requires DistinctIds(rows) && DistinctIds(taken)
    requires forall r, x :: r in taken && x in rows && x.id == r.id ==> SameUsage(x, r)
    ensures Total(Without(rows, Ids(taken)), key, m) + Total(taken, key, m) ==
              Total(rows, key, m) + Total(Lapsed(rows, taken), key, m)
  {
    hide Total, Without, Ids, DistinctIds, Lapsed, Amount, SameUsage;
    if taken == [] {
      WithoutNone(rows);
      NoIds(rows);
    } else {
      var init, last := taken[..|taken| - 1], taken[|taken| - 1];
      assert taken == init + [last];
      FreshId(init, last);
      DropAll(rows, init, key, m);
      var left := Without(rows, Ids(init));
      WithoutMembers(rows, Ids(init));
      DropOne(left, last, key, m);
      WithoutTwice(rows, Ids(init), last.id);
      IdsNext(init, last);
      IdsWithout(rows, Ids(init), last.id);
      TotalNext(init, last, key, m);
      LapsedNext(rows, init, last);
      TotalNext(Lapsed(rows, init), last, key, m);
    }
  }

  lemma {:induction false} NoIds(rows: seq<FileRow>)
    ensures Ids([]) == {} && Lapsed(rows, []) == []
  {}

  lemma {:induction false} CommitHeld(b: Books, taken: seq<FileRow>, key: Key, m: Measure)
    requires WellKept(b) && AsListed(b, taken) && b.track
    ensures Held(After(b, Commit(taken)), key, m) == Held(b, key, m) + Total(Lapsed(b.rows, taken), key, m)
  {
    hide Without, Lapsed, Total, At, Merged, Deltas;
    DropAll(b.rows, taken, key, m);
    MergedAt(b.ledger, Deltas(taken), key, m);
    DeltasAt(taken, key, m);
  }

  lemma {:induction false} RetiredShape(rows: seq<FileRow>, ids: set<nat>)
    ensures |Retired(rows, ids)| == |rows|
    ensures forall k :: 0 <= k < |rows| ==>
              Retired(rows, ids)[k] == if rows[k].id in ids then rows[k].(deleted := true) else rows[k]
  {
    if rows != [] { RetiredShape(rows[..|rows| - 1], ids); }
  }

  lemma {:induction false} RetiredTotal(rows: seq<FileRow>, ids: set<nat>, key: Key, m: Measure)
    ensures Total(Retired(rows, ids), key, m) == Total(rows, key, m)
  {
    if rows != [] {
      var init, last := rows[..|rows| - 1], rows[|rows| - 1];
      RetiredTotal(init, ids, key, m);
      TotalNext(Retired(init, ids), if last.id in ids then last.(deleted := true) else last, key, m);
    }
  }

  lemma {:induction false} StepKeeps(b: Books, st: Step)
    requires WellKept(b)
    ensures WellKept(After(b, st)) && b.nextId <= After(b, st).nextId && After(b, st).track == b.track
  {
    match st {
      case Commit(taken) => WithoutMembers(b.rows, Ids(taken));
      case Retire(ids) => RetiredShape(b.rows, ids);
      case Register(_, _, _, _, _) =>
    }
  }

  /** A listing stays one: ids are not used again, and nothing changes the size of a file. */
  lemma {:induction false} StepKeepsListed(b: Books, st: Step, taken: seq<FileRow>)
    requires WellKept(b) && AsListed(b, taken)
    ensures AsListed(After(b, st), taken)
  {
    hide DistinctIds, Merged, Deltas, SameUsage;
    match st {
      case Commit(others) =>
        WithoutMembers(b.rows, Ids(others));
        hide Without, Ids;
      case Retire(ids) => RetiredKeepsListed(b, ids, taken);
      case Register(_, _, _, _, _) =>
    }
  }

  lemma {:induction false} RetiredKeepsListed(b: Books, ids: set<nat>, taken: seq<FileRow>)
    requires AsListed(b, taken)
    ensures AsListed(After(b, Retire(ids)), taken)
  {
    RetiredShape(b.rows, ids);
    hide DistinctIds, Retired;
    forall r, x | r in taken && x in Retired(b.rows, ids) && x.id == r.id ensures SameUsage(x, r) {
      var k :| 0 <= k < |b.rows| && Retired(b.rows, ids)[k] == x;
      assert b.rows[k] in b.rows;
    }
  }

  lemma {:induction false} RunKeeps(b: Books, steps: seq<Step>)
    requires WellKept(b)
    ensures WellKept(Run(b, steps)) && Run(b, steps).track == b.track
  {
    hide WellKept, After;
    if steps != [] {
      RunKeeps(b, steps[..|steps| - 1]);
      StepKeeps(Run(b, steps[..|steps| - 1]), steps[|steps| - 1]);
    }
  }

  lemma {:induction false} RunKeepsListed(b: Books, steps: seq<Step>, taken: seq<FileRow>)
    requires WellKept(b) && AsListed(b, taken)
    ensures AsListed(Run(b, steps), taken)
  {
    hide WellKept, After, AsListed;
    if steps != [] {
      RunKeeps(b, steps[..|steps| - 1]);
      RunKeepsListed(b, steps[..|steps| - 1], taken);
      StepKeepsListed(Run(b, steps[..|steps| - 1]), steps[|steps| - 1], taken);
    }
  }

  /** Every commit records rows that its cycle listed at some earlier time. */
  ghost predicate Honest(b: Books, steps: seq<Step>) {
    steps == [] ||
      var init, last := steps[..|steps| - 1], steps[|steps| - 1];
      Honest(b, init) && (last.Commit? ==> AsListed(Run(b, init), last.taken))
  }

  /** Every id of every commit is still listed when the commit runs. */
  ghost predicate EachListed(b: Books, steps: seq<Step>) {
    steps == [] ||
      var init, last := steps[..|steps| - 1], steps[|steps| - 1];
      EachListed(b, init) && (last.Commit? ==> forall r :: r in last.taken ==> r.id in Ids(Run(b, init).rows))
  }

  /** The files registered meanwhile. */
  function Registered(b: Books, steps: seq<Step>): seq<FileRow> {
    if steps == [] then [] else
      var init, last := steps[..|steps| - 1], steps[|steps| - 1];
      Registered(b, init) + if last.Register? then [NewRow(Run(b, init), last)] else []
  }

  /** The rows that were recorded although they were gone. */
  function Stale(b: Books, steps: seq<Step>): seq<FileRow> {
    if steps == [] then [] else
      var init, last := steps[..|steps| - 1], steps[|steps| - 1];
      Stale(b, init) + if last.Commit? then Lapsed(Run(b, init).rows, last.taken) else []
  }

  lemma {:induction false} TotalConcat(rows: seq<FileRow>, more: seq<FileRow>, key: Key, m: Measure)
    ensures Total(rows + more, key, m) == Total(rows, key, m) + Total(more, key, m)
  {
    hide Total;
    if more == [] {
      NothingTotal(key, m);
      assert rows + more == rows;
    } else {
      var init, last := more[..|more| - 1], more[|more| - 1];
      TotalConcat(rows, init, key, m);
      assert rows + more == (rows + init) + [last] && more == init + [last];
      TotalNext(rows + init, last, key, m);
      TotalNext(init, last, key, m);
    }
  }

  lemma {:induction false} NothingTotal(key: Key, m: Measure)
    ensures Total([], key, m) == 0
  {}

  lemma {:induction false} StepHeld(b: Books, st: Step, key: Key, m: Measure)
    requires WellKept(b) && b.track && (st.Commit? ==> AsListed(b, st.taken))
    ensures Held(After(b, st), key, m) == Held(b, key, m)
              + Total(if st.Register? then [NewRow(b, st)] else [], key, m)
              + Total(if st.Commit? then Lapsed(b.rows, st.taken) else [], key, m)
  {
    hide Total, WellKept, AsListed, Without, Lapsed, Retired, At, Merged;
    NothingTotal(key, m);
    match st {
      case Commit(taken) => CommitHeld(b, taken, key, m);
      case Retire(ids) => RetiredTotal(b.rows, ids, key, m);
      case Register(_, _, _, _, _) => TotalConcat(b.rows, [NewRow(b, st)], key, m);
    }
  }

  /** What is held changes by the files registered and by the rows recorded a second time. */
  lemma {:induction false} HistoryHeld(b: Books, steps: seq<Step>, key: Key, m: Measure)
    requires WellKept(b) && b.track && Honest(b, steps)
    ensures Held(Run(b, steps), key, m) ==
              Held(b, key, m) + Total(Registered(b, steps), key, m) + Total(Stale(b, steps), key, m)
  {
    hide Held, Total, WellKept, AsListed, After, Lapsed;
    if steps == [] {
      NothingTotal(key, m);
    } else {
      var init, last := steps[..|steps| - 1], steps[|steps| - 1];
      HistoryHeld(b, init, key, m);
      RunKeeps(b, init);
      StepHeld(Run(b, init), last, key, m);
      TotalConcat(Registered(b, init), if last.Register? then [NewRow(Run(b, init), last)] else [], key, m);
      TotalConcat(Stale(b, init), if last.Commit? then Lapsed(Run(b, init).rows, last.taken) else [], key, m);
    }
  }

  lemma {:induction false} LapsedNone(rows: seq<FileRow>, taken: seq<FileRow>)
    ensures Lapsed(rows, taken) == [] <==> forall r :: r in taken ==> r.id in Ids(rows)
  {
    hide Ids;
    if taken != [] {
      var init, last := taken[..|taken| - 1], taken[|taken| - 1];
      LapsedNone(rows, init);
      assert taken == init + [last];
    }
  }

  lemma {:induction false} StaleNone(b: Books, steps: seq<Step>)
    ensures Stale(b, steps) == [] <==> EachListed(b, steps)
  {
    hide Lapsed, Ids;
    if steps != [] {
      var init, last := steps[..|steps| - 1], steps[|steps| - 1];
      StaleNone(b, init);
      if last.Commit? { LapsedNone(Run(b, init).rows, last.taken); }
    }
  }

  lemma {:induction false} FirstCounts(rows: seq<FileRow>)
    requires rows != []
    ensures Total(rows, Key(rows[0].workspace, rows[0].signal), InFiles) > 0
  {
    if |rows| > 1 { FirstCounts(rows[..|rows| - 1]); }
  }

  /**
    Recorded and listed usage together are conserved, over any history of overlapping cycles, exactly if each
    id of each commit is still listed when the commit runs.
  */
  lemma {:induction false} HistoryExact(b: Books, steps: seq<Step>)
    requires WellKept(b) && b.track && Honest(b, steps)
    ensures (forall key, m :: Held(Run(b, steps), key, m) == Held(b, key, m) + Total(Registered(b, steps), key, m)) <==>
            EachListed(b, steps)
  {
    hide Held, WellKept, Honest, EachListed, Registered, Run;
    StaleNone(b, steps);
    forall key, m
      ensures Held(Run(b, steps), key, m) ==
                Held(b, key, m) + Total(Registered(b, steps), key, m) + Total(Stale(b, steps), key, m)
      ensures Total([], key, m) == 0
    {
      HistoryHeld(b, steps, key, m);
    }
    if Stale(b, steps) != [] { FirstCounts(Stale(b, steps)); }
  }
}
