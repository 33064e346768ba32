/**
  The write-ahead log as the object the server holds.  The methods follow the loops of `Wal`,
  `WalFlusher`, `WalReplayer` and `WalJanitor`; each one is proved against its function of WalSpec,
  and therefore is a run of the machine of WalModel.
*/
module WalLog {
  import opened Prelude
  import opened WalModel
  import opened WalPending
  import opened WalSpec
  import opened WalLoops

  method Insert(ids: seq<nat>, id: nat) returns (r: seq<nat>)
    requires Sorted(ids) && id !in ids
    ensures Sorted(r) && forall x :: x in r <==> x in ids || x == id
  {
    var k := 0;
    while k < |ids| && ids[k] < id
      invariant 0 <= k <= |ids|
      invariant forall i :: 0 <= i < k ==> ids[i] < id
    {
      k := k + 1;
    }
    InsertedAt(ids, id, k);
    r := ids[..k] + [id] + ids[k..];
  }

  /** All segment ids of the directory, smallest first. */
  method ListSegments(files: set<nat>) returns (ids: seq<nat>)
    ensures Sorted(ids)
    ensures forall id :: id in ids <==> id in files
  {
    ids := [];
    var rest := files;
    while rest != {}
      invariant rest <= files && Sorted(ids)
      invariant forall id :: id in ids <==> id in files - rest
      decreases rest
    {
      var id :| id in rest;
      ids := Insert(ids, id);
      rest := rest - {id};
    }
  }

  class Wal {
    const segmentMaxBytes: nat
    const replayBatchMaxBytes: nat
    var up: bool
    var segs: map<nat, seq<Entry>>
    var tails: map<nat, nat>          // bytes of a record cut short at the end of a file
    var active: nat
    var size: nat
    var next: nat
    var cp: Option<Checkpoint>
    ghost var synced: map<nat, nat>
    ghost var delivered: seq<Entry>
    ghost var owed: seq<Entry>
    var count: nat

    ghost function View(): WalModel.Wal
      reads this
    {
      WalModel.Wal(up, segs, synced, active, false, next, {}, cp, delivered, owed, count, Idle, None)
    }

    ghost predicate Valid()
      reads this
    {
      Agrees(View(), tails, size)
    }

    function FileSize(id: nat): nat
      requires id in segs
      reads this
    {
      SegmentSize(segs[id]) + if id in tails then tails[id] else 0
    }

    /** An empty directory. */
    constructor (segmentMaxBytes: nat, replayBatchMaxBytes: nat)
      ensures Valid() && View() == EMPTY && tails == map[]
      ensures this.segmentMaxBytes == segmentMaxBytes && this.replayBatchMaxBytes == replayBatchMaxBytes
    {
      this.segmentMaxBytes, this.replayBatchMaxBytes := segmentMaxBytes, replayBatchMaxBytes;
      up, segs, tails, synced, active, size, next := false, map[], map[], map[], 0, 0, 0;
      cp, delivered, owed, count := None, [], [], 0;
    }

    /** A new, empty segment file becomes the writer's. */
    method StartSegment(id: nat)
      requires synced.Keys == segs.Keys && forall x :: x in segs ==> x <= id
      modifies `segs, `synced, `tails, `active, `size
      ensures tails == old(tails) - {id}
      ensures View() == Started(old(View()), id) && size == SegmentSize(segs[id])
    {
      segs, synced, tails := segs[id := []], synced[id := 0], tails - {id};
      active, size := id, SEGMENT_HEADER_SIZE;
    }

    /** Cut the file off after its whole records. */
    method Truncate(id: nat, at: nat)
      requires id in segs && at == SegmentSize(segs[id])
      modifies `tails
      ensures tails == old(tails) - {id} && FileSize(id) == at
    {
      tails := tails - {id};
    }

    /** The recovery scan of one segment; the torn tail, if there is one, is cut off before the size is taken. */
    method Scan(id: nat) returns (maxOffset: nat, fileSize: nat)
      requires id in segs
      modifies `tails
      ensures maxOffset == MaxOffset(segs[id]) && fileSize == SegmentSize(segs[id])
      ensures tails == old(tails) - {id}
    {
      var es := segs[id];
      var at: nat := SEGMENT_HEADER_SIZE;
      maxOffset := 0;
      for i := 0 to |es|
        invariant maxOffset == MaxOffset(es[..i]) && at == SegmentSize(es[..i])
      {
        assert es[..i + 1][..i] == es[..i];
        maxOffset := Max(maxOffset, es[i].offset);
        at := at + RECORD_HEADER_SIZE + es[i].size;
      }
      assert es[..|es|] == es;
      if id in tails {
        Truncate(id, at);
      } else {
        assert tails - {id} == tails;
      }
      fileSize := FileSize(id);
    }

    /** Continue after the largest offset of segment `last`; start a new segment if that one is full. */
    method Reopen(last: nat)
      requires Valid() && !up && LastSegment(View(), last)
      modifies `up, `segs, `synced, `tails, `active, `size, `next
      ensures Valid() && View() == Reopened(old(View()), last, segmentMaxBytes)
      ensures tails == old(tails) - {last}
      ensures active == last <==> SegmentSize(old(segs)[last]) < segmentMaxBytes
    {
      ReopenFits(View(), last, segmentMaxBytes);
      AgreesReopened(View(), tails, size, last, segmentMaxBytes);
      hide MaxOffset, SegmentSize, Agrees;
      ghost var w := View();
      var maxOffset, fileSize := Scan(last);
      next, up := maxOffset + 1, true;
      if fileSize >= segmentMaxBytes {
        StartSegment(last + 1);
      } else {
        active, size := last, fileSize;
      }
      assert View() == Reopened(w, last, segmentMaxBytes);
    }

    /** Go on with the last segment, or start with segment 0. */
    method Open()
      requires Valid() && !up
      modifies `up, `segs, `synced, `tails, `active, `size, `next
      ensures Valid() && up
      ensures if old(segs) == map[] then View() == Created(old(View())) && tails == old(tails) else
              exists last :: LastSegment(old(View()), last) && tails == old(tails) - {last}
                             && View() == Reopened(old(View()), last, segmentMaxBytes)
                             && (active == last <==> SegmentSize(old(segs)[last]) < segmentMaxBytes)
    {
      var segments := ListSegments(segs.Keys);
      if |segments| > 0 {
        var last := segments[|segments| - 1];
        forall x | x in segs ensures x <= last { assert x in segments; }
        assert last in segments;
        Reopen(last);
      } else {
        assert forall x :: x in segs.Keys ==> x in segments;
        assert segs == map[];
        StartSegment(0);
        next, up := 0, true;
      }
    }

    /** The process dies; the last append may have left `cut` bytes of its record. */
    method Stop(cut: nat)
      requires Valid() && up
      modifies `up, `tails
      ensures Valid() && View() == Down(old(View()))
      ensures tails == if cut > 0 then old(tails)[active := cut] else old(tails)
    {
      if cut > 0 { tails := tails[active := cut]; }
      up := false;
    }

    /** Seal the writer's segment and go on in the next. */
    method Rotate()
      requires Valid() && up
      modifies `segs, `synced, `tails, `active, `size
      ensures Valid() && up && View() == Rotated(old(View()))
    {
      synced := synced[active := |segs[active]|];
      StartSegment(active + 1);
    }

    /** Write the next record at the end of the writer's segment. */
    method Write(payloadSize: nat)
      requires Valid() && up
      modifies `segs, `size, `next, `count, `owed
      ensures Valid() && View() == Written(old(View()), payloadSize)
    {
      hide SegmentSize;
      var e := Entry(count, next, payloadSize);
      SegmentSizeAppend(segs[active], e);
      segs := segs[active := segs[active] + [e]];
      size := size + RECORD_HEADER_SIZE + payloadSize;
      next, count, owed := next + 1, count + 1, owed + [e];
    }

    /** Reserve the next offset, rotate if the record does not fit, write. */
    method Append(payloadSize: nat)
      requires Valid() && up
      modifies `segs, `synced, `tails, `active, `size, `next, `count, `owed
      ensures Valid()
      ensures View() == Appended(old(View()), payloadSize, segmentMaxBytes)
      ensures active == old(active) <==> old(FileSize(active)) + RECORD_HEADER_SIZE + payloadSize <= segmentMaxBytes
      ensures SegmentSize(segs[active]) <= segmentMaxBytes || |segs[active]| == 1
    {
      AppendFits(View(), payloadSize, segmentMaxBytes);
      hide SegmentSize, Rotated, Written;
      if size + RECORD_HEADER_SIZE + payloadSize > segmentMaxBytes {
        Rotate();
      }
      Write(payloadSize);
    }

    /** Remove the file unless it is stuck. */
    method RemoveFile(id: nat, stuck: set<nat>) returns (removed: nat)
      requires id in segs
      modifies `segs, `synced, `tails
      ensures tails == if id in stuck then old(tails) else Trimmed(old(tails), {id})
      ensures View() == if id in stuck then old(View()) else Cleaned(old(View()), {id})
      ensures segs.Keys == if id in stuck then old(segs).Keys else old(segs).Keys - {id}
      ensures removed == |old(segs)| - |segs|
    {
      if id in stuck { return 0; }
      OneLess(segs, id);
      segs, synced, tails := segs - {id}, synced - {id}, tails - {id};
      removed := 1;
    }

    /** Remove the sealed segments below the checkpoint's; the files in `stuck` cannot be removed. */
    method CleanupOnce(stuck: set<nat>) returns (removed: nat, ghost listed: seq<nat>)
      requires Valid() && up
      modifies `segs, `synced, `tails
      ensures Valid()
      ensures tails == Trimmed(old(tails), Removals(old(View()), listed, stuck))
      ensures forall id :: id in listed <==> id in old(segs)
      ensures View() == Cleaned(old(View()), Removals(old(View()), listed, stuck))
      ensures removed == |old(segs)| - |segs|
      ensures forall id :: id in segs <==>
        id in old(segs) && (cp.None? || id >= active || id >= cp.value.segment || id in stuck)
    {
      CleanedFields(View(), segs.Keys, stuck);
      hide Agrees, Cleaned, Trimmed, Removals;
      removed := 0;
      var segments := ListSegments(segs.Keys);
      listed := segments;
      if cp.None? {
        CleanedNone(View(), segments, stuck);
        TrimmedNone(View(), segments, stuck, tails);
        return;
      }
      AgreesCleaned(View(), tails, size, segments, stuck);
      removed := RemoveSealed(segments, cp.value, active, stuck);
    }

    /** Go through the listing and remove what lies below the active segment and the checkpoint's. */
    method RemoveSealed(segments: seq<nat>, checkpoint: Checkpoint, activeId: nat, stuck: set<nat>)
      returns (removed: nat)
      requires Sorted(segments) && cp == Some(checkpoint) && active == activeId
      requires forall j :: 0 <= j < |segments| ==> segments[j] in segs
      modifies `segs, `synced, `tails
      ensures tails == Trimmed(old(tails), Removals(old(View()), segments, stuck))
      ensures View() == Cleaned(old(View()), Removals(old(View()), segments, stuck))
      ensures removed == |old(segs)| - |segs|
    {
      hide Sorted, Swept, Cleaned, Trimmed, Removals, Removable;
      SweepStart(View(), tails, segments, stuck);
      removed := 0;
      for i := 0 to |segments|
        invariant cp == old(cp) && active == old(active)
        invariant Swept(old(View()), old(tails), segments, i, stuck, View(), tails, removed)
      {
        var id := segments[i];
        SweepFile(old(View()), old(tails), segments, i, stuck, View(), tails, removed);
        RemovableTest(old(View()), id, checkpoint, activeId);
        ghost var w, torn, before := View(), tails, removed;
        if id < activeId && id < checkpoint.segment {
          var n := RemoveFile(id, stuck);
          removed := removed + n;
        }
        SweepNext(old(View()), old(tails), segments, i, stuck, w, torn, before, View(), tails, removed);
      }
      SweepEnd(old(View()), old(tails), segments, stuck, View(), tails, removed);
    }

    /** Read one segment and keep what the checkpoint has not covered, with its largest offset. */
    method ReadFresh(checkpoint: Option<Checkpoint>, startId: nat, id: nat)
      returns (batch: seq<Entry>, top: Option<nat>)
      requires id in segs && startId == Start(checkpoint) <= id
      ensures batch == Fresh(checkpoint, id, segs[id])
      ensures top == if batch == [] then None else Some(MaxOffset(batch))
    {
      hide *;
      var es := segs[id];
      batch, top := [], None;
      ReadStart(checkpoint, id, es);
      for k := 0 to |es|
        invariant batch == Fresh(checkpoint, id, es[..k]) && Tops(batch, top)
      {
        var rec := es[k];
        BehindTest(checkpoint, startId, id, rec);
        ReadNext(checkpoint, id, es, k, batch, top);
        if checkpoint.Some? && rec.offset <= checkpoint.value.offset && id == startId {
          continue;
        }
        var highest: nat := if top.Some? then Max(top.value, rec.offset) else rec.offset;
        top := Some(highest);
        batch := batch + [rec];
      }
      assert es[..|es|] == es;
      assert top == if batch == [] then None else Some(MaxOffset(batch)) by { ReadEnd(batch, top); }
    }

    /** Between two listed ids there is no file, so the pass skips nothing. */
    lemma {:induction false} Gap(w: WalModel.Wal, segments: seq<nat>, i: nat, floor: Option<Checkpoint>, at: nat,
                                 to: nat, allow: nat)
      requires i <= |segments| && at <= to <= w.active + 1
      requires forall id :: id in w.segs ==> id in segments
      requires forall j :: 0 <= j < i ==> segments[j] < at
      requires forall j :: i <= j < |segments| ==> to <= segments[j]
      ensures FlushFrom(w, floor, at, allow) == FlushFrom(w, floor, to, allow)
    {
      forall id: nat | at <= id < to ensures Part(w.segs, floor, id) == [] {
        assert forall j :: 0 <= j < |segments| ==> segments[j] != id;
        assert id !in segments;
      }
      SkipEmpty(w, floor, at, to, allow);
    }

    /** Read, deliver and record one segment; `ok` unless the sink refused. */
    method FlushSegment(checkpoint: Option<Checkpoint>, startId: nat, id: nat, left: nat)
      returns (ok: bool, left': nat)
      requires id in segs && id <= active && startId == Start(checkpoint)
      modifies `cp, `delivered
      ensures ok ==> FlushFrom(old(View()), checkpoint, id, left) == FlushFrom(View(), checkpoint, id + 1, left')
      ensures !ok ==> FlushFrom(old(View()), checkpoint, id, left) == FlushResult(View(), false)
    {
      ok, left' := true, left;
      if id < startId {
        FreshNone(checkpoint, id, segs[id]);
        return;
      }
      var batch, top := ReadFresh(checkpoint, startId, id);
      if top.Some? {
        if left == 0 { return false, 0; }
        left' := left - 1;
        delivered := delivered + batch;
        cp := Some(Checkpoint(id, top.value));
      }
    }

    /**
      One pass from the checkpoint forward.  The sink accepts the first `allow` batches it is given and
      refuses the next, which ends the pass.
    */
    method FlushOnce(allow: nat) returns (ok: bool)
      requires Valid() && up
      modifies `cp, `delivered
      ensures Valid()
      ensures FlushResult(View(), ok) == FlushPass(old(View()), allow)
    {
      hide FlushFrom, Part, Fresh, SegmentSize;
      var checkpoint := cp;
      var segments := ListSegments(segs.Keys);
      var activeId := active;
      var startId := if checkpoint.Some? then checkpoint.value.segment else 0;
      var left: nat := allow;
      ghost var at: nat := 0;
      ok := true;
      var i := 0;
      while i < |segments|
        invariant 0 <= i <= |segments| && at <= active + 1 && ok
        invariant forall j :: 0 <= j < i ==> segments[j] < at
        invariant forall j :: i <= j < |segments| ==> at <= segments[j]
        invariant FlushPass(old(View()), allow) == FlushFrom(View(), checkpoint, at, left)
      {
        var id := segments[i];
        assert id in segments;
        if id > activeId { break; }
        Gap(View(), segments, i, checkpoint, at, id, left);
        ok, left := FlushSegment(checkpoint, startId, id, left);
        if !ok { return; }
        at := id + 1;
        i := i + 1;
        if id == activeId { break; }
      }
      Gap(View(), segments, i, checkpoint, at, active + 1, left);
      FlushDone(View(), checkpoint, active + 1, left);
    }

    /**
      Replay one segment in batches that end as soon as they reach the size bound.  A torn tail is cut off
      when the loop comes to it.
    */
    method ReplaySegment(checkpoint: Option<Checkpoint>, startId: nat, id: nat, budget: nat)
      returns (ok: bool, left: nat, replayed: nat, good: Option<Checkpoint>, calls: seq<Call>)
      requires id in segs && startId == Start(checkpoint) <= id
      modifies `tails
      ensures tails == old(tails) - {id} || (!ok && tails == old(tails))
      ensures Flatten(calls) <= Fresh(checkpoint, id, segs[id])
      ensures if ok then Flatten(calls) == Fresh(checkpoint, id, segs[id])
              else left == 0 && |Flatten(calls)| < |Fresh(checkpoint, id, segs[id])|
      ensures left + |calls| == budget
      ensures WellCut(calls, replayBatchMaxBytes)
      ensures forall i :: 0 <= i < |calls| ==> calls[i].segment == id
      ensures good == LastCheckpoint(calls) && replayed == |Flatten(calls)|
    {
      hide *;
      var es := segs[id];
      var batch: seq<Entry>, batchBytes: nat, top: nat := [], 0, 0;
      var at: nat := SEGMENT_HEADER_SIZE;
      SizeTake(es, 0);
      ok, left, replayed, good, calls := true, budget, 0, None, [];
      SegmentStart(checkpoint, id, es, replayBatchMaxBytes);
      for k := 0 to |es|
        invariant ok && left + |calls| == budget && SegmentAt(checkpoint, id, es, k, replayBatchMaxBytes, calls, batch)
        invariant good == LastCheckpoint(calls) && replayed == |Flatten(calls)|
        invariant batchBytes == Weight(batch) && top == MaxOffset(batch)
        invariant at == SegmentSize(es[..k]) && tails == old(tails)
      {
        var rec := es[k];
        SizeTake(es, k);
        at := at + RECORD_HEADER_SIZE + rec.size;
        BehindTest(checkpoint, startId, id, rec);
        if checkpoint.Some? && rec.offset <= checkpoint.value.offset && id == startId {
          SegmentSkip(checkpoint, id, es, k, replayBatchMaxBytes, calls, batch);
          continue;
        }
        SegmentPush(checkpoint, id, es, k, replayBatchMaxBytes, calls, batch);
        batchBytes := batchBytes + rec.size + 64;
        top := Max(top, rec.offset);
        batch := batch + [rec];
        if batchBytes >= replayBatchMaxBytes {
          SegmentSend(checkpoint, id, es, k + 1, replayBatchMaxBytes, calls, batch);
          if left == 0 {
            SegmentStop(checkpoint, id, es, k + 1, replayBatchMaxBytes, calls, batch);
            ok := false;
            return;
          }
          left, calls := left - 1, calls + [Call(id, batch)];
          replayed, good := replayed + |batch|, Some(Checkpoint(id, top));
          batch, batchBytes, top := [], 0, 0;
        }
      }
      SegmentEnd(checkpoint, id, es, replayBatchMaxBytes, calls, batch);
      assert es[..|es|] == es;
      if id in tails {
        Truncate(id, at);
      } else {
        assert tails - {id} == tails;
      }
      if batch != [] {
        if left == 0 { ok := false; return; }
        left, calls := left - 1, calls + [Call(id, batch)];
        replayed, good := replayed + |batch|, Some(Checkpoint(id, top));
      }
    }

    /**
      Replay everything ahead of the checkpoint before the server starts.  The sink accepts the first
      `budget` batches and refuses the next, which makes the start fail.  One checkpoint is saved, at the end.
      The torn tails of the segments read are cut off.
    */
    method Replay(budget: nat) returns (ok: bool, replayed: nat, calls: seq<Call>)
      requires Valid() && up
      modifies `cp, `delivered, `up, `tails
      ensures Valid()
      ensures ok ==> tails == CutFrom(old(tails), Start(old(cp)), old(active) + 2)
      ensures Remains(tails, old(tails))
      ensures WellCut(calls, replayBatchMaxBytes)
      ensures ok ==> CoversTo(old(View()), calls, active + 2) && replayed == |Flatten(calls)|
      ensures ok ==> View() == Replayed(old(View()), calls)
      ensures |calls| <= budget
      ensures !ok ==> |calls| == budget
      ensures !ok ==> Flatten(calls) <= Unflushed(old(View())) && |Flatten(calls)| < |Unflushed(old(View()))|
      ensures !ok ==> View() == Down(old(View()).(delivered := old(delivered) + Flatten(calls)))
    {
      hide Agrees, Progress, Remains, CutFrom, CoversTo, ReplayAt, WellCut, Flatten, Fresh, Pending, Part, Unflushed,
           LastCheckpoint, Replayed;
      ghost var w := View();
      var checkpoint := cp;
      var segments := ListSegments(segs.Keys);
      var startId := if checkpoint.Some? then checkpoint.value.segment else 0;
      var left: nat, good: Option<Checkpoint> := budget, None;
      ok, replayed, calls := true, 0, [];
      ProgressStart(w, tails, size, segments, replayBatchMaxBytes);
      for i := 0 to |segments|
        invariant ok && left + |calls| == budget
        invariant Progress(w, old(tails), segments, i, calls, replayBatchMaxBytes, good, replayed, tails)
        invariant View() == w.(delivered := w.delivered + Flatten(calls))
      {
        var id := segments[i];
        if id < startId {
          ProgressSkip(w, old(tails), segments, i, calls, replayBatchMaxBytes, good, replayed, tails);
          continue;
        }
        assert id in segments;
        var done, rest, count, last, more := ReplaySegment(checkpoint, startId, id, left);
        if !done {
          ProgressStopped(w, old(tails), size, segments, i, calls, more, replayBatchMaxBytes, good, replayed, tails);
          delivered, calls := delivered + Flatten(more), calls + more;
          ok, up := false, false;
          return;
        }
        ProgressNext(w, old(tails), segments, i, calls, more, replayBatchMaxBytes, good, replayed, tails);
        delivered, calls := delivered + Flatten(more), calls + more;
        left, replayed := rest, replayed + count;
        if last.Some? { good := last; }
      }
      ProgressEnd(w, old(tails), size, segments, calls, replayBatchMaxBytes, good, replayed, tails);
      if replayed > 0 {
        cp := good;
      }
    }
  }
}
