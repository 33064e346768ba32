/**
  The file list as an index over rows: time bounds in microseconds chosen by the writer, pruning by
  those bounds, the file a compaction writes, and what queries can see.
*/
module Catalog {
  import opened Prelude
  import opened Bytes
  import Partition
  import Policy

  datatype Signal = Traces | Metrics | Logs | Scores

  /** `duration` is meaningful for spans only. */
  datatype Row = Row(id: nat, ts: I64, duration: I64)

  datatype File = File(
    id: nat, workspace: string, signal: Signal, stream: string, date: int, rows: seq<Row>,
    minTs: I64, maxTs: I64, records: nat, size: int, local: bool, createdAt: int, deleted: bool)

  // ---------------------------------------------------------------- time bounds

  /** Nanoseconds to microseconds, cut off toward zero. */
  function Micros(ns: I64): I64 {
    Partition.Truncated(ns, 1000)
  }

  lemma {:induction false} MicrosMonotone(x: I64, y: I64)
    requires x <= y
    ensures Micros(x) <= Micros(y)
  {}

  function Start(rows: seq<Row>): I64
    requires rows != []
  {
    if |rows| == 1 then rows[0].ts else
      var rest := Start(rows[1..]);
      if rows[0].ts < rest then rows[0].ts else rest
  }

  /** When the row ends, as the writer of its signal counts it. */
  function EndOf(signal: Signal, r: Row): I64 {
    if signal == Traces then Policy.SatAdd(r.ts, r.duration) else r.ts
  }

  function End(signal: Signal, rows: seq<Row>): I64
    requires rows != []
  {
    if |rows| == 1 then EndOf(signal, rows[0]) else
      var rest := End(signal, rows[1..]);
      if EndOf(signal, rows[0]) > rest then EndOf(signal, rows[0]) else rest
  }

  lemma {:induction false} StartIsLeast(rows: seq<Row>, i: nat)
    requires i < |rows|
    ensures Start(rows) <= rows[i].ts
  {
    if |rows| > 1 && i > 0 { StartIsLeast(rows[1..], i - 1); }
  }

  lemma {:induction false} EndIsGreatest(signal: Signal, rows: seq<Row>, i: nat)
    requires i < |rows|
    ensures EndOf(signal, rows[i]) <= End(signal, rows)
  {
    if |rows| > 1 && i > 0 { EndIsGreatest(signal, rows[1..], i - 1); }
  }

  /** The file a write registers. */
  function Written(id: nat, workspace: string, signal: Signal, stream: string, rows: seq<Row>, size: int,
                   now: int): File
    requires rows != []
  {
    File(id, workspace, signal, stream, Partition.HourOf(Start(rows)), rows,
         Micros(Start(rows)), Micros(End(signal, rows)), |rows|, size, true, now, false)
  }

  lemma {:induction false} StartAttained(rows: seq<Row>) returns (i: nat)
    requires rows != []
    ensures i < |rows| && rows[i].ts == Start(rows)
  {
    i := 0;
    if |rows| > 1 && rows[0].ts >= Start(rows[1..]) {
      var j := StartAttained(rows[1..]);
      i := j + 1;
    }
  }

  lemma {:induction false} EndAttained(signal: Signal, rows: seq<Row>) returns (i: nat)
    requires rows != []
    ensures i < |rows| && EndOf(signal, rows[i]) == End(signal, rows)
  {
    i := 0;
    if |rows| > 1 && EndOf(signal, rows[0]) <= End(signal, rows[1..]) {
      var j := EndAttained(signal, rows[1..]);
      i := j + 1;
    }
  }

  /** What is registered: bounds and hour of the earliest row, the end of the latest, the number of rows. */
  lemma {:induction false} WrittenFields(id: nat, workspace: string, signal: Signal, stream: string, rows: seq<Row>,
                                         size: int, now: int) returns (first: nat, last: nat)
    requires rows != []
    ensures first < |rows| && forall i :: 0 <= i < |rows| ==> rows[first].ts <= rows[i].ts
    ensures last < |rows| && forall i :: 0 <= i < |rows| ==> EndOf(signal, rows[i]) <= EndOf(signal, rows[last])
    ensures var f := Written(id, workspace, signal, stream, rows, size, now);
            && f.minTs == Micros(rows[first].ts) && f.date == Partition.HourOf(rows[first].ts)
            && f.maxTs == Micros(EndOf(signal, rows[last])) && f.records == |rows| && f.rows == rows
            && f.id == id && f.workspace == workspace && f.signal == signal && f.stream == stream
            && f.size == size && f.createdAt == now && f.local && !f.deleted
  {
    first := StartAttained(rows);
    last := EndAttained(signal, rows);
    forall i: nat | i < |rows| ensures rows[first].ts <= rows[i].ts && EndOf(signal, rows[i]) <= End(signal, rows) {
      StartIsLeast(rows, i);
      EndIsGreatest(signal, rows, i);
    }
  }

  // ---------------------------------------------------------------- pruning

  predicate InWindow(r: Row, start: I64, end: I64) {
    start <= r.ts <= end
  }

  /** The test of the file list, on microseconds. */
  predicate Overlaps(f: File, start: I64, end: I64) {
    f.maxTs >= Micros(start) && f.minTs <= Micros(end)
  }

  function Select(rows: seq<Row>, start: I64, end: I64): seq<Row> {
    if rows == [] then [] else
      (if InWindow(rows[0], start, end) then [rows[0]] else []) + Select(rows[1..], start, end)
  }

  /** The rows of a time range, read from all live files. */
  function FullScan(files: seq<File>, start: I64, end: I64): seq<Row> {
    if files == [] then [] else
      (if files[0].deleted then [] else Select(files[0].rows, start, end)) + FullScan(files[1..], start, end)
  }

  /** The same, read only from the files the index lets through. */
  function PrunedScan(files: seq<File>, start: I64, end: I64): seq<Row> {
    if files == [] then [] else
      (if files[0].deleted || !Overlaps(files[0], start, end) then [] else Select(files[0].rows, start, end))
      + PrunedScan(files[1..], start, end)
  }

  /** Every row lies within the file's bounds. */
  predicate Sound(f: File) {
    forall i :: 0 <= i < |f.rows| ==> f.minTs <= Micros(f.rows[i].ts) <= f.maxTs
  }

  predicate AllSound(files: seq<File>) {
    forall i :: 0 <= i < |files| ==> Sound(files[i])
  }

  lemma {:induction false} SelectNone(rows: seq<Row>, start: I64, end: I64)
    ensures Select(rows, start, end) == [] <==> forall i :: 0 <= i < |rows| ==> !InWindow(rows[i], start, end)
  {
    if rows != [] {
      SelectNone(rows[1..], start, end);
      if InWindow(rows[0], start, end) { assert Select(rows, start, end)[0] == rows[0]; }
    }
  }

  /** A file the index rules out holds no row of the range. */
  lemma {:induction false} PruneSound(f: File, start: I64, end: I64)
    requires Sound(f) && !Overlaps(f, start, end)
    ensures Select(f.rows, start, end) == []
  {
    forall i | 0 <= i < |f.rows| ensures !InWindow(f.rows[i], start, end) {
      if start <= f.rows[i].ts { MicrosMonotone(start, f.rows[i].ts); }
      if f.rows[i].ts <= end { MicrosMonotone(f.rows[i].ts, end); }
    }
    SelectNone(f.rows, start, end);
  }

  lemma {:induction false} PrunedEqualsFull(files: seq<File>, start: I64, end: I64)
    requires AllSound(files)
    ensures PrunedScan(files, start, end) == FullScan(files, start, end)
  {
    if files != [] {
      assert AllSound(files[1..]);
      PrunedEqualsFull(files[1..], start, end);
      if !Overlaps(files[0], start, end) { PruneSound(files[0], start, end); }
    }
  }

  /** A row outside its file's bounds is missed by the query for its own instant. */
  lemma {:induction false} UnsoundMisses(f: File, i: nat)
    requires i < |f.rows| && !(f.minTs <= Micros(f.rows[i].ts) <= f.maxTs) && !f.deleted
    ensures PrunedScan([f], f.rows[i].ts, f.rows[i].ts) != FullScan([f], f.rows[i].ts, f.rows[i].ts)
  {
    var t := f.rows[i].ts;
    assert [f][1..] == [];
    SelectNone(f.rows, t, t);
    assert InWindow(f.rows[i], t, t);
  }

  /** The latest start of a row. */
  function Latest(rows: seq<Row>): I64
    requires rows != []
  {
    End(Logs, rows)
  }

  lemma {:induction false} LatestAttained(rows: seq<Row>) returns (i: nat)
    requires rows != []
    ensures i < |rows| && rows[i].ts == Latest(rows)
  {
    i := 0;
    if |rows| > 1 && rows[0].ts <= Latest(rows[1..]) {
      var j := LatestAttained(rows[1..]);
      i := j + 1;
    }
  }

  lemma {:induction false} WrittenSoundExactly(id: nat, workspace: string, signal: Signal, stream: string,
                                               rows: seq<Row>, size: int, now: int)
    requires rows != []
    ensures Sound(Written(id, workspace, signal, stream, rows, size, now)) <==>
              Micros(End(signal, rows)) >= Micros(Latest(rows))
  {
    var f := Written(id, workspace, signal, stream, rows, size, now);
    if Micros(End(signal, rows)) >= Micros(Latest(rows)) {
      forall i: nat | i < |rows| ensures f.minTs <= Micros(rows[i].ts) <= f.maxTs {
        StartIsLeast(rows, i);
        EndIsGreatest(Logs, rows, i);
        MicrosMonotone(Start(rows), rows[i].ts);
        MicrosMonotone(rows[i].ts, Latest(rows));
      }
    } else {
      var i := LatestAttained(rows);
      assert f.rows[i].ts == Latest(rows);
    }
  }

  /**
    Pruning a written file never changes an answer, whatever the range, exactly if the latest end of its
    rows is not an earlier microsecond than the latest start.
  */
  lemma {:induction false} PruningExact(id: nat, workspace: string, signal: Signal, stream: string, rows: seq<Row>,
                                        size: int, now: int)
    requires rows != []
    ensures var f := Written(id, workspace, signal, stream, rows, size, now);
            (forall start: I64, end: I64 :: PrunedScan([f], start, end) == FullScan([f], start, end)) <==>
              Micros(End(signal, rows)) >= Micros(Latest(rows))
  {
    var f := Written(id, workspace, signal, stream, rows, size, now);
    WrittenSoundExactly(id, workspace, signal, stream, rows, size, now);
    if Sound(f) {
      forall start: I64, end: I64 ensures PrunedScan([f], start, end) == FullScan([f], start, end) {
        PrunedEqualsFull([f], start, end);
      }
    } else {
      var i :| 0 <= i < |f.rows| && !(f.minTs <= Micros(f.rows[i].ts) <= f.maxTs);
      UnsoundMisses(f, i);
    }
  }

  /** A span that ends a microsecond before it starts: the query for its own instant does not find it. */
  lemma {:induction false} BackwardSpanMissed()
    ensures var f := Written(0, "w", Traces, "s", [Row(0, 5000, -1000)], 1, 0);
            PrunedScan([f], 5000, 5000) == [] && FullScan([f], 5000, 5000) == [Row(0, 5000, -1000)]
  {
    var f := Written(0, "w", Traces, "s", [Row(0, 5000, -1000)], 1, 0);
    assert [f][1..] == [] && f.rows[1..] == [];
    assert f.maxTs == 4;
  }

  /** Spans of non-negative duration, and all rows of the other signals. */
  predicate Forward(signal: Signal, rows: seq<Row>) {
    signal == Traces ==> forall i :: 0 <= i < |rows| ==> rows[i].duration >= 0
  }

  lemma {:induction false} ForwardIsSound(id: nat, workspace: string, signal: Signal, stream: string, rows: seq<Row>,
                                          size: int, now: int)
    requires rows != [] && Forward(signal, rows)
    ensures Sound(Written(id, workspace, signal, stream, rows, size, now))
  {
    var i := LatestAttained(rows);
    EndIsGreatest(signal, rows, i);
    MicrosMonotone(Latest(rows), End(signal, rows));
    WrittenSoundExactly(id, workspace, signal, stream, rows, size, now);
  }

  // ---------------------------------------------------------------- compaction

  /** Bounds that came from nanoseconds can be scaled back without overflow. */
  predicate Scalable(f: File) {
    -I64_LIMIT <= f.minTs * 1000 < I64_LIMIT && -I64_LIMIT <= f.maxTs * 1000 < I64_LIMIT
  }

  lemma {:induction false} MicrosScale(ns: I64)
    ensures var us: int := Micros(ns); -I64_LIMIT <= us * 1000 < I64_LIMIT
  {}

  /** Microseconds to nanoseconds and back is the identity if the nanoseconds fit. */
  lemma {:induction false} ScaleBack(us: I64)
    requires var n: int := us; -I64_LIMIT <= n * 1000 < I64_LIMIT
    ensures Micros(Nanos(us)) == us
  {}

  function RowsOf(group: seq<File>): seq<Row> {
    if group == [] then [] else RowsOf(group[..|group| - 1]) + group[|group| - 1].rows
  }

  function LeastMin(group: seq<File>): I64
    requires group != []
  {
    if |group| == 1 then group[0].minTs else
      var rest := LeastMin(group[1..]);
      if group[0].minTs < rest then group[0].minTs else rest
  }

  function GreatestMax(group: seq<File>): I64
    requires group != []
  {
    if |group| == 1 then group[0].maxTs else
      var rest := GreatestMax(group[1..]);
      if group[0].maxTs > rest then group[0].maxTs else rest
  }

  lemma {:induction false} GroupBounds(group: seq<File>, i: nat)
    requires i < |group|
    ensures LeastMin(group) <= group[i].minTs && group[i].maxTs <= GreatestMax(group)
  {
    if |group| > 1 && i > 0 { GroupBounds(group[1..], i - 1); }
  }

  lemma {:induction false} GroupScalable(group: seq<File>)
    requires group != [] && forall i :: 0 <= i < |group| ==> Scalable(group[i])
    ensures -I64_LIMIT <= LeastMin(group) * 1000 < I64_LIMIT && -I64_LIMIT <= GreatestMax(group) * 1000 < I64_LIMIT
  {
    if |group| > 1 { GroupScalable(group[1..]); }
  }

  /** Microseconds to nanoseconds, with the wrap-around of 64-bit multiplication. */
  function Nanos(us: I64): I64 {
    var n: int := us;
    (n * 1000 + I64_LIMIT) % U64_LIMIT - I64_LIMIT
  }

  /** The merged file: all rows, the stream of the first file, bounds through nanoseconds. */
  function Merged(group: seq<File>, id: nat, size: int, now: int): File
    requires group != []
  {
    var minNs, maxNs := Nanos(LeastMin(group)), Nanos(GreatestMax(group));
    File(id, group[0].workspace, group[0].signal, group[0].stream, Partition.HourOf(minNs), RowsOf(group),
         Micros(minNs), Micros(maxNs), |RowsOf(group)|, size, true, now, false)
  }

  lemma {:induction false} RowOrigin(group: seq<File>, k: nat) returns (i: nat, j: nat)
    requires k < |RowsOf(group)|
    ensures i < |group| && j < |group[i].rows| && group[i].rows[j] == RowsOf(group)[k]
  {
    var n := |group| - 1;
    if k < |RowsOf(group[..n])| {
      i, j := RowOrigin(group[..n], k);
    } else {
      i, j := n, k - |RowsOf(group[..n])|;
    }
  }

  /** Bounds survive the way through nanoseconds. */
  lemma {:induction false} MergedBounds(group: seq<File>, id: nat, size: int, now: int)
    requires group != [] && forall i :: 0 <= i < |group| ==> Scalable(group[i])
    ensures var f := Merged(group, id, size, now);
            Scalable(f) && f.minTs == LeastMin(group) && f.maxTs == GreatestMax(group)
  {
    GroupScalable(group);
    ScaleBack(LeastMin(group));
    ScaleBack(GreatestMax(group));
  }

  lemma {:induction false} GroupBoundsAttained(group: seq<File>) returns (i: nat, j: nat)
    requires group != []
    ensures i < |group| && group[i].minTs == LeastMin(group) && j < |group| && group[j].maxTs == GreatestMax(group)
  {
    i, j := 0, 0;
    if |group| > 1 {
      var x, y := GroupBoundsAttained(group[1..]);
      if group[1..][x].minTs <= group[0].minTs { i := x + 1; }
      if group[1..][y].maxTs >= group[0].maxTs { j := y + 1; }
    }
  }

  /** What is registered for a merged group: the bounds of its members, the hour of the earliest, all rows. */
  lemma {:induction false} MergedFile(group: seq<File>, id: nat, size: int, now: int) returns (first: nat, last: nat)
    requires group != [] && forall i :: 0 <= i < |group| ==> Scalable(group[i])
    ensures first < |group| && forall i :: 0 <= i < |group| ==> group[first].minTs <= group[i].minTs
    ensures last < |group| && forall i :: 0 <= i < |group| ==> group[i].maxTs <= group[last].maxTs
    ensures var f, us: int := Merged(group, id, size, now), group[first].minTs;
            && f.minTs == us && f.date == Partition.HourOf(us * 1000) && f.maxTs == group[last].maxTs
            && f.rows == RowsOf(group) && f.records == |f.rows|
            && f.id == id && f.workspace == group[0].workspace && f.signal == group[0].signal
            && f.stream == group[0].stream && f.size == size && f.createdAt == now && f.local && !f.deleted
  {
    first, last := GroupBoundsAttained(group);
    MergedBounds(group, id, size, now);
    GroupScalable(group);
    forall i: nat | i < |group| ensures LeastMin(group) <= group[i].minTs && group[i].maxTs <= GreatestMax(group) {
      GroupBounds(group, i);
    }
  }

  /** So the merged file prunes as well as its parts. */
  lemma {:induction false} MergedSound(group: seq<File>, id: nat, size: int, now: int)
    requires group != [] && forall i :: 0 <= i < |group| ==> Scalable(group[i]) && Sound(group[i])
    ensures Sound(Merged(group, id, size, now))
  {
    MergedBounds(group, id, size, now);
    var f := Merged(group, id, size, now);
    forall k: nat | k < |f.rows| ensures f.minTs <= Micros(f.rows[k].ts) <= f.maxTs {
      var i, j := RowOrigin(group, k);
      GroupBounds(group, i);
    }
  }

  // ---------------------------------------------------------------- live rows

  /** What a query asks for: a signal of a workspace, and perhaps only one stream of it. */
  datatype Scope = Scope(workspace: string, signal: Signal, stream: Option<string>)

  predicate Within(f: File, v: Scope) {
    f.workspace == v.workspace && f.signal == v.signal && (v.stream.Some? ==> f.stream == v.stream.value)
  }

  /** What queries of a scope can see. */
  function Live(files: seq<File>, v: Scope): multiset<Row> {
    if files == [] then multiset{} else Live(files[..|files| - 1], v) + LiveIn(files[|files| - 1], v)
  }

  function LiveIn(f: File, v: Scope): multiset<Row> {
    if f.deleted || !Within(f, v) then multiset{} else multiset(f.rows)
  }

  predicate DistinctIds(files: seq<File>) {
    forall i, j :: 0 <= i < j < |files| ==> files[i].id != files[j].id
  }

  function MarkOne(files: seq<File>, id: nat): seq<File> {
    seq(|files|, i requires 0 <= i < |files| =>
      if files[i].id == id then files[i].(deleted := true) else files[i])
  }

  /** One statement that marks the rows of the whole group. */
  function Mark(files: seq<File>, group: seq<File>): seq<File> {
    if group == [] then files else MarkOne(Mark(files, group[..|group| - 1]), group[|group| - 1].id)
  }

  lemma {:induction false} MarkOneUnknown(files: seq<File>, id: nat)
    requires forall i :: 0 <= i < |files| ==> files[i].id != id
    ensures MarkOne(files, id) == files
  {}

  /** Marking one live file takes exactly its rows out of sight. */
  lemma {:induction false} MarkOneLive(files: seq<File>, f: File, v: Scope)
    requires DistinctIds(files) && f in files
    ensures Live(files, v) == Live(MarkOne(files, f.id), v) + LiveIn(f, v)
  {
    var n := |files| - 1;
    var init, last := files[..n], files[n];
    var init' := MarkOne(files, f.id)[..n];
    assert init' == MarkOne(init, f.id);
    if last == f {
      MarkOneUnknown(init, f.id);
    } else {
      assert f in init;
      MarkOneLive(init, f, v);
    }
  }

  lemma {:induction false} MarkShape(files: seq<File>, group: seq<File>)
    ensures var marked := Mark(files, group);
            && |marked| == |files|
            && forall i :: 0 <= i < |files| ==>
                 marked[i] ==
                    if exists g :: g in group && g.id == files[i].id then files[i].(deleted := true) else files[i]
  {
    if group != [] {
      var init, last := group[..|group| - 1], group[|group| - 1];
      MarkShape(files, init);
      assert forall g :: g in group <==> g in init || g == last;
    }
  }

  lemma {:induction false} StillThere(files: seq<File>, group: seq<File>, f: File)
    requires DistinctIds(files) && f in files && forall i :: 0 <= i < |group| ==> group[i].id != f.id
    ensures f in Mark(files, group) && DistinctIds(Mark(files, group))
  {
    MarkShape(files, group);
    var i :| 0 <= i < |files| && files[i] == f;
    assert Mark(files, group)[i] == f;
  }

  lemma {:induction false} LiveAppend(files: seq<File>, f: File, v: Scope)
    ensures Live(files + [f], v) == Live(files, v) + LiveIn(f, v)
  {
    assert (files + [f])[..|files|] == files;
  }

  lemma {:induction false} GroupUnseen(group: seq<File>, v: Scope)
    requires forall i :: 0 <= i < |group| ==> !Within(group[i], v) || group[i].rows == []
    ensures Live(group, v) == multiset{}
  {
    if group != [] { GroupUnseen(group[..|group| - 1], v); }
  }

  lemma {:induction false} GroupSees(group: seq<File>, i: nat, v: Scope)
    requires i < |group| && !group[i].deleted && Within(group[i], v) && group[i].rows != []
    ensures Live(group, v) != multiset{}
  {
    if i == |group| - 1 {
      assert group[i].rows[0] in LiveIn(group[i], v);
      assert group[i].rows[0] in Live(group, v);
    } else {
      GroupSees(group[..|group| - 1], i, v);
    }
  }

  lemma {:induction false} Cancel(a: multiset<Row>, b: multiset<Row>, x: multiset<Row>, y: multiset<Row>)
    requires a + x == b + y
    ensures a == b <==> x == y
  {
    if a == b {
      forall r ensures x[r] == y[r] { assert (a + x)[r] == (b + y)[r]; }
    }
    if x == y {
      forall r ensures a[r] == b[r] { assert (a + x)[r] == (b + y)[r]; }
    }
  }

  lemma {:induction false} BoundsNext(signal: Signal, rows: seq<Row>, k: nat)
    requires 0 < k < |rows|
    ensures Start(rows[..k + 1]) == if rows[k].ts < Start(rows[..k]) then rows[k].ts else Start(rows[..k])
    ensures End(signal, rows[..k + 1]) ==
              if EndOf(signal, rows[k]) > End(signal, rows[..k]) then EndOf(signal, rows[k]) else End(signal, rows[..k])
    decreases k
  {
    if k > 1 {
      BoundsNext(signal, rows[1..], k - 1);
      assert rows[..k + 1][1..] == rows[1..][..k] && rows[..k][1..] == rows[1..][..k - 1];
    } else {
      assert rows[..2][1..] == [rows[1]];
    }
  }
}
