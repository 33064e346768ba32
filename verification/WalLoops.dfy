/**
  What the loops of WalLog keep.  Listing and inserting, the janitor's sweep over its listing, a flush pass
  reading a segment, the replayer filling and cutting batches, its progress over the listing, and the torn
  tails of files: lemmas and predicates about values, so that the methods only name them.  Nothing in
  here is about runs; the functions the loops compute, and what is proved of them, are in WalSpec.
*/
module WalLoops {
  import opened Prelude
  import opened WalModel
  import opened WalPending
  import opened WalSpec

  predicate Sorted(ids: seq<nat>) {
    forall i, j :: 0 <= i < j < |ids| ==> ids[i] < ids[j]
  }

  lemma {:induction false} InsertedAt(ids: seq<nat>, id: nat, k: nat)
    requires Sorted(ids) && id !in ids && k <= |ids|
    requires (forall i :: 0 <= i < k ==> ids[i] < id) && (k < |ids| ==> ids[k] >= id)
    ensures var r := ids[..k] + [id] + ids[k..]; Sorted(r) && forall x :: x in r <==> x in ids || x == id
  {
    var r := ids[..k] + [id] + ids[k..];
    forall i | k <= i < |ids| ensures id < ids[i] { assert ids[i] in ids && ids[k] <= ids[i]; }
    assert r[..k] == ids[..k] && r[k + 1..] == ids[k..];
    forall x ensures x in r <==> x in ids || x == id {
      assert ids == ids[..k] + ids[k..];
    }
  }

  // ---------------------------------------------------------------- segments and their sizes

  lemma {:induction false} SegmentSizeAppend(es: seq<Entry>, e: Entry)
    ensures SegmentSize(es + [e]) == SegmentSize(es) + RECORD_HEADER_SIZE + e.size
  {
    assert (es + [e])[..|es|] == es;
  }

  // ---------------------------------------------------------------- the janitor and torn tails

  lemma {:induction false} RemovableTest(w: Wal, id: nat, checkpoint: Checkpoint, activeId: nat)
    requires w.cp == Some(checkpoint) && w.active == activeId
    ensures Removable(w, id) <==> id < activeId && id < checkpoint.segment
  {}

  /** Which files a cleanup leaves: the active one and those above, the checkpoint's and those above, and stuck ones. */
  lemma {:induction false} CleanedFields(w: Wal, keys: set<nat>, stuck: set<nat>)
    requires keys == w.segs.Keys
    ensures forall ids: seq<nat> :: (forall id :: id in ids <==> id in keys) ==>
              forall id :: id in Cleaned(w, Removals(w, ids, stuck)).segs <==>
                id in keys && (w.cp.None? || id >= w.active || id >= w.cp.value.segment || id in stuck)
  {}

  /** One more listed file: it is removed exactly if the janitor may take it and can. */
  lemma {:induction false} CleanedStep(w: Wal, ids: seq<nat>, i: nat, stuck: set<nat>)
    requires i < |ids|
    ensures var before := Cleaned(w, Removals(w, ids[..i], stuck));
            Cleaned(w, Removals(w, ids[..i + 1], stuck)) ==
              if Removable(w, ids[i]) && ids[i] !in stuck then Cleaned(before, {ids[i]}) else before
  {}

  lemma {:induction false} CleanedNone(w: Wal, ids: seq<nat>, stuck: set<nat>)
    requires ids == [] || w.cp.None?
    ensures Cleaned(w, Removals(w, ids, stuck)) == w
  {
    assert Removals(w, ids, stuck) == {};
    assert w.segs - {} == w.segs && w.synced - {} == w.synced;
  }

  /** What is left of the torn tails once files are gone. */
  function Trimmed(tails: map<nat, nat>, gone: set<nat>): map<nat, nat> {
    tails - gone
  }

  lemma {:induction false} TrimmedStep(w: Wal, ids: seq<nat>, i: nat, stuck: set<nat>, tails: map<nat, nat>)
    requires i < |ids|
    ensures var before := Trimmed(tails, Removals(w, ids[..i], stuck));
            Trimmed(tails, Removals(w, ids[..i + 1], stuck)) ==
              if Removable(w, ids[i]) && ids[i] !in stuck then Trimmed(before, {ids[i]}) else before
  {
    assert ids[..i + 1] == ids[..i] + [ids[i]];
    assert Removals(w, ids[..i + 1], stuck) ==
           Removals(w, ids[..i], stuck) + if Removable(w, ids[i]) && ids[i] !in stuck then {ids[i]} else {};
  }

  lemma {:induction false} TrimmedNone(w: Wal, ids: seq<nat>, stuck: set<nat>, tails: map<nat, nat>)
    requires ids == [] || w.cp.None?
    ensures Trimmed(tails, Removals(w, ids, stuck)) == tails
  {
    assert Removals(w, ids, stuck) == {};
  }

  // ---------------------------------------------------------------- reading a segment

  /** The test the loops make is the resume test, for the segments they read. */
  lemma {:induction false} BehindTest(cp: Option<Checkpoint>, startId: nat, id: nat, e: Entry)
    requires startId == Start(cp) <= id
    ensures Behind(cp, id, e) <==> cp.Some? && e.offset <= cp.value.offset && id == startId
  {}

  /** The largest offset a flush pass tracks while it fills a batch. */
  predicate Tops(batch: seq<Entry>, top: Option<nat>) {
    top == if batch == [] then None else Some(MaxOffset(batch))
  }

  lemma {:induction false} ReadStart(cp: Option<Checkpoint>, id: nat, es: seq<Entry>)
    ensures Fresh(cp, id, es[..0]) == [] && Tops([], None)
  {}

  lemma {:induction false} ReadNext(cp: Option<Checkpoint>, id: nat, es: seq<Entry>, k: nat,
                                    batch: seq<Entry>, top: Option<nat>)
    requires k < |es| && batch == Fresh(cp, id, es[..k]) && Tops(batch, top)
    ensures Fresh(cp, id, es[..k + 1]) == if Behind(cp, id, es[k]) then batch else batch + [es[k]]
    ensures Tops(batch + [es[k]], Some(if top.Some? then Max(top.value, es[k].offset) else es[k].offset))
  {
    FreshNext(cp, id, es, k);
    hide Fresh, Behind;
    TopsNext(batch, es[k], top);
  }

  lemma {:induction false} TopsNext(batch: seq<Entry>, e: Entry, top: Option<nat>)
    requires Tops(batch, top)
    ensures Tops(batch + [e], Some(if top.Some? then Max(top.value, e.offset) else e.offset))
  {
    hide MaxOffset;
    MaxOffsetAppend(batch, e);
  }

  lemma {:induction false} ReadEnd(batch: seq<Entry>, top: Option<nat>)
    requires Tops(batch, top)
    ensures top == if batch == [] then None else Some(MaxOffset(batch))
  {}

  lemma {:induction false} FlushDone(w: Wal, floor: Option<Checkpoint>, at: nat, allow: nat)
    requires at > w.active
    ensures FlushFrom(w, floor, at, allow) == FlushResult(w, true)
  {}

  // ---------------------------------------------------------------- batches of a replay

  lemma {:induction false} FlattenAppend(calls: seq<Call>, c: Call)
    ensures Flatten(calls + [c]) == Flatten(calls) + c.records
  {
    assert (calls + [c])[..|calls|] == calls;
  }

  lemma {:induction false} FlattenConcat(calls: seq<Call>, more: seq<Call>)
    ensures Flatten(calls + more) == Flatten(calls) + Flatten(more)
  {
    if more == [] {
      assert calls + [] == calls;
    } else {
      var init, last := more[..|more| - 1], more[|more| - 1];
      FlattenConcat(calls, init);
      assert calls + more == calls + init + [last];
      FlattenAppend(calls + init, last);
      Associate(Flatten(calls), Flatten(init), last.records);
    }
  }

  lemma {:induction false} LastIsSuffix(calls: seq<Call>)
    requires calls != []
    ensures var last, all := calls[|calls| - 1].records, Flatten(calls);
            |last| <= |all| && last == all[|all| - |last|..]
  {}

  /** The calls of one more segment are added. */
  lemma {:induction false} CoversNext(w: Wal, calls: seq<Call>, more: seq<Call>, at: nat)
    requires CoversTo(w, calls, at)
    requires Flatten(more) == Part(w.segs, w.cp, at)
    requires forall i :: 0 <= i < |more| ==> more[i].segment == at && more[i].records != []
    ensures CoversTo(w, calls + more, at + 1)
  {
    FlattenConcat(calls, more);
    PendingLast(w.segs, w.cp, at);
    if more == [] {
      assert calls + more == calls;
    } else {
      LastIsSuffix(more);
      assert (calls + more)[|calls + more| - 1] == more[|more| - 1];
    }
  }

  lemma {:induction false} CoversGap(w: Wal, calls: seq<Call>, lo: nat, hi: nat)
    requires lo <= hi && CoversTo(w, calls, lo)
    requires forall id :: lo <= id < hi ==> Part(w.segs, w.cp, id) == []
    ensures CoversTo(w, calls, hi)
  {
    PendingExtend(w.segs, w.cp, lo, hi);
  }

  /** The calls of one segment while it is read: every one of them was cut because it met the bound. */
  ghost predicate CutEarly(calls: seq<Call>, id: nat, limit: nat) {
    forall i :: 0 <= i < |calls| ==>
      calls[i].segment == id && Cut(calls[i].records, limit) && Weight(calls[i].records) >= limit
  }

  lemma {:induction false} CutEarlyWellCut(calls: seq<Call>, id: nat, limit: nat, batch: seq<Entry>)
    requires CutEarly(calls, id, limit)
    ensures WellCut(calls, limit)
    ensures Cut(batch, limit) ==> WellCut(calls + [Call(id, batch)], limit)
  {}

  lemma {:induction false} WellCutConcat(calls: seq<Call>, more: seq<Call>, limit: nat, at: nat)
    requires WellCut(calls, limit) && WellCut(more, limit)
    requires calls != [] ==> calls[|calls| - 1].segment < at
    requires forall i :: 0 <= i < |more| ==> more[i].segment == at
    ensures WellCut(calls + more, limit)
  {}

  lemma {:induction false} LastCheckpointConcat(calls: seq<Call>, more: seq<Call>)
    ensures LastCheckpoint(calls + more) == if more == [] then LastCheckpoint(calls) else LastCheckpoint(more)
  {}

  /** What the replayer holds after `k` records of a segment: the accepted calls and the open batch. */
  ghost predicate SegmentAt(cp: Option<Checkpoint>, id: nat, es: seq<Entry>, k: nat, limit: nat,
                            calls: seq<Call>, batch: seq<Entry>)
  {
    && k <= |es| && Flatten(calls) + batch == Fresh(cp, id, es[..k])
    && CutEarly(calls, id, limit) && Weight(batch) < Max(limit, 1)
  }

  lemma {:induction false} SegmentSkip(cp: Option<Checkpoint>, id: nat, es: seq<Entry>, k: nat, limit: nat,
                                       calls: seq<Call>, batch: seq<Entry>)
    requires SegmentAt(cp, id, es, k, limit, calls, batch) && k < |es| && Behind(cp, id, es[k])
    ensures SegmentAt(cp, id, es, k + 1, limit, calls, batch)
  {
    assert es[..k + 1][..k] == es[..k];
  }

  lemma {:induction false} SegmentPush(cp: Option<Checkpoint>, id: nat, es: seq<Entry>, k: nat, limit: nat,
                                       calls: seq<Call>, batch: seq<Entry>)
    requires SegmentAt(cp, id, es, k, limit, calls, batch) && k < |es| && !Behind(cp, id, es[k])
    ensures var batch' := batch + [es[k]];
            && Weight(batch') == Weight(batch) + es[k].size + 64
            && MaxOffset(batch') == Max(MaxOffset(batch), es[k].offset)
            && Flatten(calls) + batch' == Fresh(cp, id, es[..k + 1])
            && Cut(batch', limit) && CutEarly(calls, id, limit)
            && (Weight(batch') < limit ==> SegmentAt(cp, id, es, k + 1, limit, calls, batch'))
  {
    assert es[..k + 1][..k] == es[..k];
    assert (batch + [es[k]])[..|batch|] == batch;
    Associate(Flatten(calls), batch, [es[k]]);
    if |batch| > 0 { assert Weight(batch) >= 64; }
  }

  lemma {:induction false} SegmentStart(cp: Option<Checkpoint>, id: nat, es: seq<Entry>, limit: nat)
    ensures SegmentAt(cp, id, es, 0, limit, [], [])
    ensures Weight([]) == 0 && MaxOffset([]) == 0 && |Flatten([])| == 0 && LastCheckpoint([]) == None
  {
    assert Max(limit, 1) > 0;
  }

  /** A full batch is handed over. */
  lemma {:induction false} SegmentSend(cp: Option<Checkpoint>, id: nat, es: seq<Entry>, k: nat, limit: nat,
                                       calls: seq<Call>, batch: seq<Entry>)
    requires k <= |es| && Flatten(calls) + batch == Fresh(cp, id, es[..k])
    requires CutEarly(calls, id, limit) && Cut(batch, limit) && Weight(batch) >= limit
    ensures SegmentAt(cp, id, es, k, limit, calls + [Call(id, batch)], [])
    ensures Flatten(calls + [Call(id, batch)]) == Flatten(calls) + batch
    ensures LastCheckpoint(calls + [Call(id, batch)]) == Some(Checkpoint(id, MaxOffset(batch)))
    ensures Weight([]) == 0 && MaxOffset([]) == 0
  {
    FlattenAppend(calls, Call(id, batch));
  }

  /** The sink refused a batch in the middle of the segment. */
  lemma {:induction false} SegmentStop(cp: Option<Checkpoint>, id: nat, es: seq<Entry>, k: nat, limit: nat,
                                       calls: seq<Call>, batch: seq<Entry>)
    requires k <= |es| && Flatten(calls) + batch == Fresh(cp, id, es[..k])
    requires CutEarly(calls, id, limit) && Cut(batch, limit)
    ensures Flatten(calls) <= Fresh(cp, id, es) && |Flatten(calls)| < |Fresh(cp, id, es)| && WellCut(calls, limit)
    ensures forall i :: 0 <= i < |calls| ==> calls[i].segment == id
  {
    FreshPrefix(cp, id, es, k);
    CutEarlyWellCut(calls, id, limit, []);
  }

  /** The segment has been read; what is left in the batch is its last call. */
  lemma {:induction false} SegmentEnd(cp: Option<Checkpoint>, id: nat, es: seq<Entry>, limit: nat,
                                      calls: seq<Call>, batch: seq<Entry>)
    requires SegmentAt(cp, id, es, |es|, limit, calls, batch)
    ensures Flatten(calls) + batch == Fresh(cp, id, es) && WellCut(calls, limit)
    ensures forall i :: 0 <= i < |calls| ==> calls[i].segment == id
    ensures var calls' := calls + [Call(id, batch)];
            && Flatten(calls') == Flatten(calls) + batch
            && LastCheckpoint(calls') == Some(Checkpoint(id, MaxOffset(batch)))
            && (batch != [] ==> WellCut(calls', limit))
  {
    assert es[..|es|] == es;
    FlattenAppend(calls, Call(id, batch));
    CutEarlyWellCut(calls, id, limit, batch);
    if batch != [] { CutLast(batch, limit); }
  }

  lemma {:induction false} CutLast(batch: seq<Entry>, limit: nat)
    requires batch != [] && Weight(batch) < Max(limit, 1)
    ensures Cut(batch, limit)
  {}

  lemma {:induction false} FreshPrefix(cp: Option<Checkpoint>, id: nat, es: seq<Entry>, k: nat)
    requires k <= |es|
    ensures Fresh(cp, id, es[..k]) <= Fresh(cp, id, es)
  {
    if k == |es| {
      assert es[..k] == es;
    } else {
      assert es[..|es| - 1][..k] == es[..k];
      FreshPrefix(cp, id, es[..|es| - 1], k);
    }
  }

  /** How far a replay has come, before the segments from `at` on. */
  ghost predicate ReplayAt(w: Wal, calls: seq<Call>, at: nat, limit: nat, good: Option<Checkpoint>, replayed: nat) {
    && CoversTo(w, calls, at) && WellCut(calls, limit)
    && good == LastCheckpoint(calls) && replayed == |Flatten(calls)|
  }

  lemma {:induction false} ReplayStart(w: Wal, limit: nat)
    ensures ReplayAt(w, [], 0, limit, None, 0) && w.delivered + Flatten([]) == w.delivered
  {}

  /** Ids without a file, or behind the checkpoint, are passed over. */
  lemma {:induction false} ReplayGap(w: Wal, calls: seq<Call>, lo: nat, hi: nat, limit: nat,
                                     good: Option<Checkpoint>, replayed: nat)
    requires lo <= hi && ReplayAt(w, calls, lo, limit, good, replayed)
    requires forall id :: lo <= id < hi ==> id !in w.segs || id < Start(w.cp)
    ensures ReplayAt(w, calls, hi, limit, good, replayed)
  {
    forall id: nat | lo <= id < hi && id in w.segs ensures Part(w.segs, w.cp, id) == [] {
      FreshNone(w.cp, id, w.segs[id]);
    }
    CoversGap(w, calls, lo, hi);
  }

  lemma {:induction false} PendingPrefix(w: Wal, id: nat, part: seq<Entry>, n: nat)
    requires id < n && part <= Part(w.segs, w.cp, id)
    ensures Pending(w.segs, w.cp, id) + part <= Pending(w.segs, w.cp, n)
    decreases n
  {
    PendingLast(w.segs, w.cp, n - 1);
    if id < n - 1 { PendingPrefix(w, id, part, n - 1); }
  }

  lemma {:induction false} ReplayStopped(w: Wal, calls: seq<Call>, more: seq<Call>, at: nat, limit: nat,
                                         good: Option<Checkpoint>, replayed: nat)
    requires ReplayAt(w, calls, at, limit, good, replayed) && WellCut(more, limit)
    requires forall i :: 0 <= i < |more| ==> more[i].segment == at
    requires at in w.segs && at <= w.active + 1
    requires Flatten(more) <= Fresh(w.cp, at, w.segs[at]) && |Flatten(more)| < |Fresh(w.cp, at, w.segs[at])|
    ensures WellCut(calls + more, limit)
    ensures Flatten(calls + more) <= Unflushed(w) && |Flatten(calls + more)| < |Unflushed(w)|
    ensures w.delivered + Flatten(calls) + Flatten(more) == w.delivered + Flatten(calls + more)
  {
    hide Flatten, Pending, Fresh, WellCut;
    WellCutConcat(calls, more, limit, at);
    FlattenConcat(calls, more);
    Associate(w.delivered, Flatten(calls), Flatten(more));
    PendingPrefix(w, at, Flatten(more), w.active + 2);
    PendingPrefix(w, at, Part(w.segs, w.cp, at), w.active + 2);
  }

  lemma {:induction false} ReplayNext(w: Wal, calls: seq<Call>, more: seq<Call>, at: nat, limit: nat,
                                      good: Option<Checkpoint>, replayed: nat)
    requires ReplayAt(w, calls, at, limit, good, replayed) && WellCut(more, limit)
    requires forall i :: 0 <= i < |more| ==> more[i].segment == at
    requires at in w.segs && Flatten(more) == Fresh(w.cp, at, w.segs[at])
    ensures ReplayAt(w, calls + more, at + 1, limit,
                     if LastCheckpoint(more).Some? then LastCheckpoint(more) else good, replayed + |Flatten(more)|)
    ensures w.delivered + Flatten(calls) + Flatten(more) == w.delivered + Flatten(calls + more)
  {
    FlattenConcat(calls, more);
    WellCutConcat(calls, more, limit, at);
    LastCheckpointConcat(calls, more);
    CoversNext(w, calls, more, at);
    Associate(w.delivered, Flatten(calls), Flatten(more));
  }

  /** The end of a replay: the checkpoint moves exactly when something was replayed. */
  lemma {:induction false} ReplayEnd(w: Wal, calls: seq<Call>, at: nat, limit: nat, good: Option<Checkpoint>,
                                     replayed: nat)
    requires ReplayAt(w, calls, at, limit, good, replayed)
    ensures CoversTo(w, calls, at) && WellCut(calls, limit) && replayed == |Flatten(calls)|
    ensures w.(delivered := w.delivered + Flatten(calls), cp := if replayed > 0 then good else w.cp) ==
              Replayed(w, calls)
  {}

  // ---------------------------------------------------------------- the object, its sweep and its replay

  /** The object agrees with itself: `tails` are the torn ends of files, `size` the writer's idea of its file. */
  ghost predicate Agrees(w: WalModel.Wal, tails: map<nat, nat>, size: nat) {
    && w.synced.Keys == w.segs.Keys
    && (w.segs != map[] ==> w.active in w.segs)
    && (forall id :: id in w.segs ==> id <= w.active + 1)
    && (forall id :: id in tails ==> id in w.segs)
    && (w.up ==> w.active in w.segs && w.active !in tails && size == SegmentSize(w.segs[w.active]))
  }

  lemma {:induction false} AgreesCleaned(w: WalModel.Wal, tails: map<nat, nat>, size: nat, ids: seq<nat>,
                                         stuck: set<nat>)
    requires Agrees(w, tails, size)
    ensures var gone := Removals(w, ids, stuck); Agrees(Cleaned(w, gone), Trimmed(tails, gone), size)
  {
    hide SegmentSize;
    assert w.active !in Removals(w, ids, stuck);
  }

  lemma {:induction false} AgreesReopened(w: WalModel.Wal, tails: map<nat, nat>, size: nat, last: nat,
                                          segmentMaxBytes: nat)
    requires Agrees(w, tails, size) && LastSegment(w, last)
    ensures last + 1 !in w.segs && tails - {last} - {last + 1} == tails - {last}
    ensures var w' := Reopened(w, last, segmentMaxBytes); Agrees(w', tails - {last}, SegmentSize(w'.segs[w'.active]))
  {
    hide SegmentSize, MaxOffset;
  }

  lemma {:induction false} OneLess(segs: map<nat, seq<Entry>>, id: nat)
    requires id in segs
    ensures |segs - {id}| == |segs| - 1 && (segs - {id}).Keys == segs.Keys - {id}
  {
    assert segs.Keys == (segs - {id}).Keys + {id};
  }

  /** The sweep over a listing has come to `ids[i]`. */
  ghost predicate Swept(w0: WalModel.Wal, before: map<nat, nat>, ids: seq<nat>, i: nat, stuck: set<nat>,
                        w: WalModel.Wal, tails: map<nat, nat>, removed: nat)
  {
    && Sorted(ids) && i <= |ids|
    && w == Cleaned(w0, Removals(w0, ids[..i], stuck)) && tails == Trimmed(before, Removals(w0, ids[..i], stuck))
    && (forall j :: i <= j < |ids| ==> ids[j] in w.segs)
    && |w.segs| == |w0.segs| - removed
  }

  lemma {:induction false} SweepStart(w: WalModel.Wal, tails: map<nat, nat>, ids: seq<nat>, stuck: set<nat>)
    requires Sorted(ids) && forall j :: 0 <= j < |ids| ==> ids[j] in w.segs
    ensures Swept(w, tails, ids, 0, stuck, w, tails, 0)
  {
    hide Cleaned, Trimmed, Removals;
    assert ids[..0] == [];
    CleanedNone(w, [], stuck);
    TrimmedNone(w, [], stuck, tails);
  }

  lemma {:induction false} SweepFile(w0: WalModel.Wal, before: map<nat, nat>, ids: seq<nat>, i: nat, stuck: set<nat>,
                                     w: WalModel.Wal, tails: map<nat, nat>, removed: nat)
    requires Swept(w0, before, ids, i, stuck, w, tails, removed) && i < |ids|
    ensures ids[i] in w.segs
  {}

  lemma {:induction false} SweepNext(w0: WalModel.Wal, before: map<nat, nat>, ids: seq<nat>, i: nat, stuck: set<nat>,
                                     w: WalModel.Wal, tails: map<nat, nat>, removed: nat,
                                     w': WalModel.Wal, tails': map<nat, nat>, removed': nat)
    requires Swept(w0, before, ids, i, stuck, w, tails, removed) && i < |ids|
    requires var takes := Removable(w0, ids[i]) && ids[i] !in stuck;
             && w' == (if takes then Cleaned(w, {ids[i]}) else w)
             && tails' == if takes then Trimmed(tails, {ids[i]}) else tails
    requires w'.segs.Keys == w.segs.Keys || w'.segs.Keys == w.segs.Keys - {ids[i]}
    requires removed' == removed + (|w.segs| - |w'.segs|)
    ensures Swept(w0, before, ids, i + 1, stuck, w', tails', removed')
  {
    hide Cleaned, Trimmed, Removals, Removable;
    CleanedStep(w0, ids, i, stuck);
    TrimmedStep(w0, ids, i, stuck, before);
  }

  lemma {:induction false} SweepEnd(w0: WalModel.Wal, before: map<nat, nat>, ids: seq<nat>, stuck: set<nat>,
                                    w: WalModel.Wal, tails: map<nat, nat>, removed: nat)
    requires Swept(w0, before, ids, |ids|, stuck, w, tails, removed)
    ensures w == Cleaned(w0, Removals(w0, ids, stuck)) && tails == Trimmed(before, Removals(w0, ids, stuck))
    ensures removed == |w0.segs| - |w.segs|
  {
    assert ids[..|ids|] == ids;
  }

  /** The torn tails of the segments from `lo` up to `hi` are gone. */
  function CutFrom(tails: map<nat, nat>, lo: nat, hi: nat): map<nat, nat> {
    map id | id in tails && !(lo <= id < hi) :: tails[id]
  }

  /** Torn tails only went. */
  ghost predicate Remains(tails: map<nat, nat>, before: map<nat, nat>) {
    forall id :: id in tails ==> id in before && tails[id] == before[id]
  }

  lemma {:induction false} CutRemains(tails: map<nat, nat>, lo: nat, at: nat, id: nat)
    ensures Remains(CutFrom(tails, lo, at), tails) && Remains(CutFrom(tails, lo, at) - {id}, tails)
  {}

  /** Deliveries, a checkpoint and a stop leave the files alone. */
  lemma {:induction false} AgreesReplayed(w: WalModel.Wal, w': WalModel.Wal, tails: map<nat, nat>,
                                          tails': map<nat, nat>, size: nat)
    requires Agrees(w, tails, size) && Remains(tails', tails)
    requires w'.up ==> w.up
    requires w'.segs == w.segs && w'.synced == w.synced && w'.active == w.active
    ensures Agrees(w', tails', size)
  {
    hide SegmentSize;
  }

  /** The first segment id not looked at after `i` listed segments. */
  function After(segments: seq<nat>, i: nat): nat
    requires i <= |segments|
  {
    if i == 0 then 0 else segments[i - 1] + 1
  }

  /** How far a replay has come over its listing; `before` are the torn tails at its start. */
  ghost predicate Progress(w: WalModel.Wal, before: map<nat, nat>, segments: seq<nat>, i: nat, calls: seq<Call>,
                           limit: nat, good: Option<Checkpoint>, replayed: nat, tails: map<nat, nat>)
  {
    && Sorted(segments) && (forall id :: id in segments <==> id in w.segs)
    && (forall id :: id in before ==> id in w.segs) && (forall id :: id in w.segs ==> id <= w.active + 1)
    && i <= |segments|
    && ReplayAt(w, calls, After(segments, i), limit, good, replayed)
    && tails == CutFrom(before, Start(w.cp), After(segments, i))
  }

  /** Between two listed ids there is no file. */
  lemma {:induction false} NoFile(files: set<nat>, segments: seq<nat>, i: nat, at: nat, to: nat)
    requires i <= |segments|
    requires forall id :: id in files ==> id in segments
    requires forall j :: 0 <= j < i ==> segments[j] < at
    requires forall j :: i <= j < |segments| ==> to <= segments[j]
    ensures forall id :: at <= id < to ==> id !in files
  {
    forall id: nat | at <= id < to ensures id !in files {
      assert forall j :: 0 <= j < |segments| ==> segments[j] != id;
      assert id !in segments;
    }
  }

  lemma {:induction false} CutGap(files: set<nat>, tails: map<nat, nat>, lo: nat, at: nat, to: nat)
    requires forall id :: id in tails ==> id in files
    requires forall id :: at <= id < to ==> id !in files || id < lo
    requires at <= to
    ensures CutFrom(tails, lo, at) == CutFrom(tails, lo, to)
  {}

  lemma {:induction false} CutOne(tails: map<nat, nat>, lo: nat, id: nat)
    requires lo <= id
    ensures CutFrom(tails, lo, id) - {id} == CutFrom(tails, lo, id + 1)
  {}

  lemma {:induction false} ProgressStart(w: WalModel.Wal, tails: map<nat, nat>, size: nat, segments: seq<nat>,
                                         limit: nat)
    requires Agrees(w, tails, size) && Sorted(segments) && forall id :: id in segments <==> id in w.segs
    ensures Progress(w, tails, segments, 0, [], limit, None, 0, tails) && w.delivered + Flatten([]) == w.delivered
  {
    ReplayStart(w, limit);
  }

  /** The gap before a listed segment, and that segment too if `skip`. */
  lemma {:induction false} ProgressGap(w: WalModel.Wal, before: map<nat, nat>, segments: seq<nat>, i: nat,
                                       calls: seq<Call>, limit: nat, good: Option<Checkpoint>, replayed: nat,
                                       tails: map<nat, nat>, to: nat)
    requires Progress(w, before, segments, i, calls, limit, good, replayed, tails)
    requires if i < |segments| then to == segments[i] || (to == segments[i] + 1 && segments[i] < Start(w.cp))
             else to == w.active + 2
    ensures ReplayAt(w, calls, to, limit, good, replayed) && tails == CutFrom(before, Start(w.cp), to)
  {
    hide ReplayAt, CutFrom;
    var at := After(segments, i);
    assert forall j :: 0 <= j < |segments| ==> segments[j] in segments;
    NoFile(w.segs.Keys, segments, i, at, if i < |segments| then segments[i] else to);
    ReplayGap(w, calls, at, to, limit, good, replayed);
    CutGap(w.segs.Keys, before, Start(w.cp), at, to);
  }

  lemma {:induction false} ProgressSkip(w: WalModel.Wal, before: map<nat, nat>, segments: seq<nat>, i: nat,
                                        calls: seq<Call>, limit: nat, good: Option<Checkpoint>, replayed: nat,
                                        tails: map<nat, nat>)
    requires Progress(w, before, segments, i, calls, limit, good, replayed, tails)
    requires i < |segments| && segments[i] < Start(w.cp)
    ensures Progress(w, before, segments, i + 1, calls, limit, good, replayed, tails)
  {
    hide ReplayAt, CutFrom;
    ProgressGap(w, before, segments, i, calls, limit, good, replayed, tails, segments[i] + 1);
  }

  lemma {:induction false} ProgressNext(w: WalModel.Wal, before: map<nat, nat>, segments: seq<nat>, i: nat,
                                        calls: seq<Call>, more: seq<Call>, limit: nat, good: Option<Checkpoint>,
                                        replayed: nat, tails: map<nat, nat>)
    requires i < |segments| && segments[i] in w.segs && Start(w.cp) <= segments[i]
    requires WellCut(more, limit) && forall k :: 0 <= k < |more| ==> more[k].segment == segments[i]
    requires Flatten(more) == Fresh(w.cp, segments[i], w.segs[segments[i]])
    requires exists last ::
               Progress(w, before, segments, i, calls, limit, good, replayed, last) && tails == last - {segments[i]}
    ensures Progress(w, before, segments, i + 1, calls + more, limit,
                     if LastCheckpoint(more).Some? then LastCheckpoint(more) else good,
                     replayed + |Flatten(more)|, tails)
    ensures w.delivered + Flatten(calls) + Flatten(more) == w.delivered + Flatten(calls + more)
  {
    hide ReplayAt, CutFrom, WellCut, Flatten, Fresh, LastCheckpoint;
    var last :| Progress(w, before, segments, i, calls, limit, good, replayed, last) && tails == last - {segments[i]};
    ProgressGap(w, before, segments, i, calls, limit, good, replayed, last, segments[i]);
    ReplayNext(w, calls, more, segments[i], limit, good, replayed);
    CutOne(before, Start(w.cp), segments[i]);
  }

  lemma {:induction false} ProgressStopped(w: WalModel.Wal, before: map<nat, nat>, size: nat, segments: seq<nat>,
                                           i: nat, calls: seq<Call>, more: seq<Call>, limit: nat,
                                           good: Option<Checkpoint>, replayed: nat, tails: map<nat, nat>)
    requires Agrees(w, before, size)
    requires i < |segments| && segments[i] in w.segs
    requires WellCut(more, limit) && forall k :: 0 <= k < |more| ==> more[k].segment == segments[i]
    requires Flatten(more) <= Fresh(w.cp, segments[i], w.segs[segments[i]])
    requires |Flatten(more)| < |Fresh(w.cp, segments[i], w.segs[segments[i]])|
    requires exists last :: Progress(w, before, segments, i, calls, limit, good, replayed, last)
                            && (tails == last || tails == last - {segments[i]})
    ensures WellCut(calls + more, limit) && Remains(tails, before)
    ensures Flatten(calls + more) <= Unflushed(w) && |Flatten(calls + more)| < |Unflushed(w)|
    ensures w.delivered + Flatten(calls) + Flatten(more) == w.delivered + Flatten(calls + more)
    ensures Agrees(Down(w.(delivered := w.delivered + Flatten(calls + more))), tails, size)
  {
    hide ReplayAt, CutFrom, WellCut, Flatten, Fresh, LastCheckpoint, Agrees, Remains, Unflushed;
    var last :| Progress(w, before, segments, i, calls, limit, good, replayed, last)
                && (tails == last || tails == last - {segments[i]});
    ProgressGap(w, before, segments, i, calls, limit, good, replayed, last, segments[i]);
    ReplayStopped(w, calls, more, segments[i], limit, good, replayed);
    CutRemains(before, Start(w.cp), After(segments, i), segments[i]);
    AgreesReplayed(w, Down(w.(delivered := w.delivered + Flatten(calls + more))), before, tails, size);
  }

  lemma {:induction false} ProgressEnd(w: WalModel.Wal, before: map<nat, nat>, size: nat, segments: seq<nat>,
                                       calls: seq<Call>, limit: nat, good: Option<Checkpoint>, replayed: nat,
                                       tails: map<nat, nat>)
    requires Agrees(w, before, size) && Progress(w, before, segments, |segments|, calls, limit, good, replayed, tails)
    ensures CoversTo(w, calls, w.active + 2) && WellCut(calls, limit) && replayed == |Flatten(calls)|
    ensures w.(delivered := w.delivered + Flatten(calls), cp := if replayed > 0 then good else w.cp) ==
              Replayed(w, calls)
    ensures tails == CutFrom(before, Start(w.cp), w.active + 2) && Remains(tails, before)
    ensures Agrees(Replayed(w, calls), tails, size)
  {
    hide ReplayAt, CutFrom, WellCut, Flatten, Fresh, LastCheckpoint, Agrees, Remains, CoversTo;
    ProgressGap(w, before, segments, |segments|, calls, limit, good, replayed, tails, w.active + 2);
    ReplayEnd(w, calls, w.active + 2, limit, good, replayed);
    CutRemains(before, Start(w.cp), w.active + 2, 0);
    AgreesReplayed(w, Replayed(w, calls), before, tails, size);
  }

  lemma {:induction false} SizeTake(es: seq<Entry>, k: nat)
    requires k <= |es|
    ensures SegmentSize(es[..0]) == SEGMENT_HEADER_SIZE
    ensures k < |es| ==> SegmentSize(es[..k + 1]) == SegmentSize(es[..k]) + RECORD_HEADER_SIZE + es[k].size
  {
    if k < |es| { assert es[..k + 1][..k] == es[..k]; }
  }
}
