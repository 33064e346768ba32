/** What one call of each method of the log does to its state, and that it is a run of the machine. */
module WalSpec {
  import opened Prelude
  import opened WalModel
  import opened WalPending
  import opened WalSafety
  import opened WalOnce

  const SEGMENT_HEADER_SIZE: nat := 13
  const RECORD_HEADER_SIZE: nat := 41

  function SegmentSize(es: seq<Entry>): nat {
    if es == [] then SEGMENT_HEADER_SIZE else
      SegmentSize(es[..|es| - 1]) + RECORD_HEADER_SIZE + es[|es| - 1].size
  }

  // ---------------------------------------------------------------- runs of the machine

  /** A run without late writes and power losses leads from one state to the other. */
  ghost predicate Reaches(w: Wal, w': Wal) {
    exists acts :: Possible(w, acts) && Atomic(acts) && Final(w, acts) == w'
  }

  lemma {:induction false} ReachesSelf(w: Wal)
    ensures Reaches(w, w)
  {
    assert Possible(w, []) && Atomic([]) && Final(w, []) == w;
  }

  lemma {:induction false} Then(w: Wal, acts: seq<Action>, a: Action)
    requires Possible(w, acts) && Enabled(Final(w, acts), a)
    ensures Possible(w, acts + [a]) && Final(w, acts + [a]) == Apply(Final(w, acts), a)
    decreases |acts|
  {
    if acts == [] {
      assert ([] + [a])[1..] == [];
    } else {
      assert (acts + [a])[1..] == acts[1..] + [a];
      Then(Apply(w, acts[0]), acts[1..], a);
    }
  }

  lemma {:induction false} ReachesStep(w: Wal, w': Wal, a: Action)
    requires Reaches(w, w') && Enabled(w', a) && !a.Reserve? && !a.Write? && !a.PowerLoss?
    ensures Reaches(w, Apply(w', a))
  {
    var acts :| Possible(w, acts) && Atomic(acts) && Final(w, acts) == w';
    Then(w, acts, a);
    assert Atomic(acts + [a]);
  }

  /** Whatever calls lead from one state to the other, no record is lost on the way. */
  lemma {:induction false} ReachesKeepsInv(w: Wal, w': Wal)
    requires Inv(w) && Reaches(w, w')
    ensures Inv(w') && NoLoss(w')
  {
    var acts :| Possible(w, acts) && Atomic(acts) && Final(w, acts) == w';
    AtomicGuarded(w, acts);
    InvOnRuns(w, acts);
    InvMeansNoLoss(w');
  }

  // ---------------------------------------------------------------- append

  predicate Full(w: Wal, size: nat, segmentMaxBytes: nat)
    requires w.active in w.segs
  {
    SegmentSize(w.segs[w.active]) + RECORD_HEADER_SIZE + size > segmentMaxBytes
  }

  /** A new, empty segment file becomes the writer's. */
  function Started(w: Wal, id: nat): Wal {
    w.(segs := w.segs[id := []], synced := w.synced[id := 0], active := id)
  }

  /** The writer syncs its segment and moves to a new one. */
  function Rotated(w: Wal): Wal
    requires w.active in w.segs
  {
    Started(w.(synced := w.synced[w.active := |w.segs[w.active]|]), w.active + 1)
  }

  function Written(w: Wal, size: nat): Wal
    requires w.active in w.segs
  {
    Put(w, w.next, size).(next := w.next + 1)
  }

  /** A record that does not fit goes to a new segment. */
  function Appended(w: Wal, size: nat, segmentMaxBytes: nat): Wal
    requires w.active in w.segs
  {
    if Full(w, size, segmentMaxBytes) then Written(Rotated(w), size) else Written(w, size)
  }

  lemma {:induction false} AppendedReached(w: Wal, size: nat, segmentMaxBytes: nat)
    requires Struct(w) && Quiescent(w)
    ensures Reaches(w, Appended(w, size, segmentMaxBytes))
  {
    ReachesSelf(w);
    if Full(w, size, segmentMaxBytes) {
      var created := Apply(w, RotateCreate);
      ReachesStep(w, w, RotateCreate);
      var swapped := Apply(created, RotateSwap);
      ReachesStep(w, created, RotateSwap);
      ReachesStep(w, swapped, Append(size));
    } else {
      ReachesStep(w, w, Append(size));
    }
  }

  /**
    The record goes into the writer's segment exactly if it fits there, and else alone into the next one: only
    a record that is alone may exceed the limit.
  */
  lemma {:induction false} AppendFits(w: Wal, size: nat, segmentMaxBytes: nat)
    requires w.active in w.segs
    ensures var w', e := Appended(w, size, segmentMaxBytes), Entry(w.count, w.next, size);
            var fits := SegmentSize(w.segs[w.active]) + RECORD_HEADER_SIZE + size <= segmentMaxBytes;
            && w'.active == (if fits then w.active else w.active + 1)
            && w'.segs == w.segs[w'.active := (if fits then w.segs[w.active] else []) + [e]]
            && (SegmentSize(w'.segs[w'.active]) <= segmentMaxBytes || w'.segs[w'.active] == [e])
  {
    var es, e := w.segs[w.active], Entry(w.count, w.next, size);
    assert (es + [e])[..|es|] == es;
  }

  // ---------------------------------------------------------------- open

  /** Continue after the largest offset of segment `last`; start a new segment if `last` is full. */
  function Reopened(w: Wal, last: nat, segmentMaxBytes: nat): Wal
    requires last in w.segs
  {
    var w' := w.(up := true, next := MaxOffset(w.segs[last]) + 1);
    if SegmentSize(w.segs[last]) >= segmentMaxBytes then
      Started(w', last + 1)
    else
      w'.(active := last)
  }

  function Created(w: Wal): Wal {
    w.(up := true, segs := map[0 := []], synced := map[0 := 0], active := 0, next := 0)
  }

  /** The last segment is continued exactly if it is below the limit; otherwise the writer starts with an empty one. */
  lemma {:induction false} ReopenFits(w: Wal, last: nat, segmentMaxBytes: nat)
    requires last in w.segs
    ensures var w', below := Reopened(w, last, segmentMaxBytes), SegmentSize(w.segs[last]) < segmentMaxBytes;
            && w'.active == (if below then last else last + 1)
            && w'.segs == (if below then w.segs else w.segs[last + 1 := []])
  {}

  lemma {:induction false} OpenReached(w: Wal, last: nat, segmentMaxBytes: nat)
    requires !w.up
    ensures w.segs == map[] ==> Reaches(w, Created(w))
    ensures LastSegment(w, last) ==> Reaches(w, Reopened(w, last, segmentMaxBytes))
  {
    ReachesSelf(w);
    if w.segs == map[] { ReachesStep(w, w, Create); }
    if LastSegment(w, last) {
      ReachesStep(w, w, Open(last, SegmentSize(w.segs[last]) >= segmentMaxBytes));
    }
  }

  // ---------------------------------------------------------------- cleanup

  predicate Removable(w: Wal, id: nat) {
    w.cp.Some? && id < w.active && id < w.cp.value.segment
  }

  /** The files of a listing the janitor takes; those in `stuck` cannot be removed. */
  function Removals(w: Wal, ids: seq<nat>, stuck: set<nat>): set<nat> {
    set id | id in ids && Removable(w, id) && id !in stuck
  }

  function Cleaned(w: Wal, gone: set<nat>): Wal {
    w.(segs := w.segs - gone, synced := w.synced - gone)
  }

  lemma {:induction false} RemoveEach(w: Wal, m: Wal, gone: set<nat>)
    requires Reaches(w, m) && Struct(m) && m.up && m.cp.Some?
    requires m.janitor == Some(JanitorView(m.cp.value.segment, m.active))
    requires forall id :: id in gone ==> id in m.segs && Removable(m, id)
    ensures Reaches(w, Cleaned(m, gone)) && Struct(Cleaned(m, gone))
    decreases |gone|
  {
    hide Struct, Reaches, MaxOffset, Fresh, Pending, Part;
    if gone == {} {
      assert Cleaned(m, gone) == m;
    } else {
      var id :| id in gone;
      ReachesStep(w, m, JanitorRemove(id));
      StructKept(m, JanitorRemove(id));
      var m' := Apply(m, JanitorRemove(id));
      RemoveEach(w, m', gone - {id});
      assert m.segs - {id} - (gone - {id}) == m.segs - gone;
      assert m.synced - {id} - (gone - {id}) == m.synced - gone;
      assert Cleaned(m', gone - {id}) == Cleaned(m, gone);
    }
  }

  /** Removing removable files, whichever of the removals succeed, is a run of the machine. */
  lemma {:induction false} CleanedReached(w: Wal, gone: set<nat>)
    requires Struct(w) && Quiescent(w)
    requires forall id :: id in gone ==> id in w.segs && Removable(w, id)
    ensures Reaches(w, Cleaned(w, gone)) && Struct(Cleaned(w, gone))
  {
    ReachesSelf(w);
    if w.cp.None? {
      assert gone == {};
      assert Cleaned(w, gone) == w;
    } else {
      StructKept(w, JanitorLoad);
      ReachesStep(w, w, JanitorLoad);
      var m := Apply(w, JanitorLoad);
      RemoveEach(w, m, gone);
      ReachesStep(w, Cleaned(m, gone), JanitorDone);
      StructKept(Cleaned(m, gone), JanitorDone);
      assert Apply(Cleaned(m, gone), JanitorDone) == Cleaned(w, gone);
    }
  }

  // ---------------------------------------------------------------- one flush pass

  datatype FlushResult = FlushResult(wal: Wal, ok: bool)

  /**
    A pass that loaded `floor`, from segment `at` on, with a sink that accepts `allow` more batches and
    then refuses: segment by segment, what is ahead of the checkpoint is delivered and recorded.
  */
  function FlushFrom(w: Wal, floor: Option<Checkpoint>, at: nat, allow: nat): FlushResult
    decreases w.active + 1 - at
  {
    if at > w.active then FlushResult(w, true)
    else
      var batch := Part(w.segs, floor, at);
      if batch == [] then FlushFrom(w, floor, at + 1, allow)
      else if allow == 0 then FlushResult(w, false)
      else FlushFrom(Recorded(w, at, batch), floor, at + 1, allow - 1)
  }

  function Recorded(w: Wal, at: nat, batch: seq<Entry>): Wal {
    w.(delivered := w.delivered + batch, cp := Some(Checkpoint(at, MaxOffset(batch))))
  }

  function FlushPass(w: Wal, allow: nat): FlushResult {
    FlushFrom(w, w.cp, 0, allow)
  }

  lemma {:induction false} SkipEmpty(w: Wal, floor: Option<Checkpoint>, lo: nat, hi: nat, allow: nat)
    requires lo <= hi <= w.active + 1
    requires forall id :: lo <= id < hi ==> Part(w.segs, floor, id) == []
    ensures FlushFrom(w, floor, lo, allow) == FlushFrom(w, floor, hi, allow)
    decreases hi - lo
  {
    if lo < hi { SkipEmpty(w, floor, lo + 1, hi, allow); }
  }

  ghost predicate Bounded(w: Wal) {
    && (forall id :: id in w.segs ==> id <= w.active + 1)
    && (w.active + 1 in w.segs ==> w.segs[w.active + 1] == [])
  }

  /** How far a pass has come: nothing is pending below `at`, and above it checkpoint and floor agree. */
  ghost predicate PassAt(w: Wal, floor: Option<Checkpoint>, at: nat) {
    && Bounded(w)
    && Pending(w.segs, w.cp, at) == []
    && (w.cp == floor || (w.cp.Some? && w.cp.value.segment < at && Start(floor) < at))
  }

  lemma {:induction false} PassStart(w: Wal)
    requires Struct(w)
    ensures PassAt(w, w.cp, 0)
  {}

  lemma {:induction false} PassBatch(w: Wal, floor: Option<Checkpoint>, at: nat)
    requires PassAt(w, floor, at) && at <= w.active && Part(w.segs, floor, at) != []
    ensures var batch := Part(w.segs, floor, at);
            && Start(w.cp) <= at && Start(floor) <= at
            && Part(w.segs, w.cp, at) == batch
            && Part(w.segs, Some(Checkpoint(at, MaxOffset(batch))), at) == []
  {
    var es := w.segs[at];
    FreshMember(floor, at, es);
    assert Part(w.segs, floor, at)[0] in Part(w.segs, floor, at);
    ReadSplit(w.cp, floor, at, es);
  }

  /** One segment of the pass: what is delivered comes off the front of the queue. */
  lemma {:induction false} PassStep(w: Wal, floor: Option<Checkpoint>, at: nat)
    requires PassAt(w, floor, at) && at <= w.active && Part(w.segs, floor, at) != []
    ensures var batch := Part(w.segs, floor, at); var w' := Recorded(w, at, batch);
            PassAt(w', floor, at + 1) && Unflushed(w) == batch + Unflushed(w')
  {
    PassBatch(w, floor, at);
    PresentPart(w.segs, floor, at);
    hide Pending, Fresh, MaxOffset, Part, Bounded, Behind;
    var batch := Part(w.segs, floor, at);
    PendingTaken(w.segs, w.cp, Some(Checkpoint(at, MaxOffset(batch))), at, w.active + 2);
    RecordedBounded(w, at, batch);
    assert Recorded(w, at, batch).cp == Some(Checkpoint(at, MaxOffset(batch)));
  }

  lemma {:induction false} PresentPart(segs: map<nat, seq<Entry>>, cp: Option<Checkpoint>, at: nat)
    requires Part(segs, cp, at) != []
    ensures at in segs
  {}

  lemma {:induction false} RecordedBounded(w: Wal, at: nat, batch: seq<Entry>)
    requires Bounded(w)
    ensures Bounded(Recorded(w, at, batch))
  {}

  lemma {:induction false} PassSkip(w: Wal, floor: Option<Checkpoint>, at: nat)
    requires PassAt(w, floor, at) && Part(w.segs, floor, at) == []
    ensures PassAt(w, floor, at + 1)
  {}

  lemma {:induction false} PassAtEnd(w: Wal, floor: Option<Checkpoint>, at: nat)
    requires PassAt(w, floor, at) && at == w.active + 1
    ensures Unflushed(w) == []
  {
    PendingLast(w.segs, w.cp, at);
  }

  /**
    Whatever the sink answers, nothing is lost, repeated or reordered: what was delivered moved from the
    front of the queue to the end of the sink.  A pass the sink accepts leaves the queue empty.
  */
  lemma {:induction false} FlushConserves(w: Wal, floor: Option<Checkpoint>, at: nat, allow: nat)
    requires PassAt(w, floor, at) && at <= w.active + 1
    ensures var r := FlushFrom(w, floor, at, allow);
            && w.delivered + Unflushed(w) == r.wal.delivered + Unflushed(r.wal)
            && w.delivered <= r.wal.delivered
            && (r.ok ==> Unflushed(r.wal) == [])
            && r.wal == w.(delivered := r.wal.delivered, cp := r.wal.cp)
    decreases w.active + 1 - at
  {
    hide PassAt, Unflushed, Part, MaxOffset;
    if at > w.active {
      PassAtEnd(w, floor, at);
    } else {
      var batch := Part(w.segs, floor, at);
      if batch == [] {
        PassSkip(w, floor, at);
        FlushConserves(w, floor, at + 1, allow);
      } else if allow > 0 {
        PassStep(w, floor, at);
        var w' := Recorded(w, at, batch);
        FlushConserves(w', floor, at + 1, allow - 1);
        Associate(w.delivered, batch, Unflushed(w'));
      }
    }
  }

  /** How many segments from `at` on hold something ahead of the checkpoint. */
  function Batches(w: Wal, floor: Option<Checkpoint>, at: nat): nat
    decreases w.active + 1 - at
  {
    if at > w.active then 0 else Batches(w, floor, at + 1) + if Part(w.segs, floor, at) == [] then 0 else 1
  }

  lemma {:induction false} SameBatches(w: Wal, w': Wal, floor: Option<Checkpoint>, at: nat)
    requires w.segs == w'.segs && w.active == w'.active
    ensures Batches(w, floor, at) == Batches(w', floor, at)
    decreases w.active + 1 - at
  {
    if at <= w.active { SameBatches(w, w', floor, at + 1); }
  }

  /** A pass succeeds exactly if the sink accepts a batch for each segment that holds something to deliver. */
  lemma {:induction false} FlushSucceeds(w: Wal, floor: Option<Checkpoint>, at: nat, allow: nat)
    ensures FlushFrom(w, floor, at, allow).ok <==> Batches(w, floor, at) <= allow
    decreases w.active + 1 - at
  {
    hide Part, MaxOffset;
    if at <= w.active {
      var batch := Part(w.segs, floor, at);
      if batch == [] {
        FlushSucceeds(w, floor, at + 1, allow);
      } else if allow > 0 {
        FlushSucceeds(Recorded(w, at, batch), floor, at + 1, allow - 1);
        SameBatches(w, Recorded(w, at, batch), floor, at + 1);
      }
    }
  }

  /** The pass stands between two segments, about to look at `at`. */
  ghost predicate Between(m: Wal, floor: Option<Checkpoint>, at: nat) {
    var p := m.pass;
    && m.up && !m.rotating && !p.Idle?
    && p.floor == floor && p.listed == m.segs.Keys
    && (p.Listed? || p.Done? || (p.Holding? && p.batch == []))
    && (p.Listed? ==> forall id :: id in m.segs && id < at ==> id < Start(floor))
    && (!p.Listed? ==>
        && p.seen == m.active && Start(floor) <= p.at < at && (p.at == m.active ==> m.active < at)
        && forall id :: id in m.segs && p.at < id ==> at <= id)
    && (forall id :: id in m.segs ==> id <= m.active + 1)
  }

  function Position(m: Wal, at: nat): Action {
    if m.pass.Listed? then See(at) else Next(at)
  }

  predicate Flusher(a: Action) {
    a.Load? || a.See? || a.Read? || a.Deliver? || a.Save? || a.Next? || a.Stop?
  }

  /** The flusher alone leads from one state to the other. */
  ghost predicate Flushes(w: Wal, w': Wal) {
    exists acts :: Possible(w, acts) && Final(w, acts) == w' && forall a :: a in acts ==> Flusher(a)
  }

  lemma {:induction false} FlushesSelf(w: Wal)
    ensures Flushes(w, w)
  {
    assert Possible(w, []) && Final(w, []) == w;
  }

  lemma {:induction false} FlushesStep(w: Wal, w': Wal, a: Action)
    requires Flushes(w, w') && Enabled(w', a) && Flusher(a)
    ensures Flushes(w, Apply(w', a))
  {
    var acts :| Possible(w, acts) && Final(w, acts) == w' && forall x :: x in acts ==> Flusher(x);
    Then(w, acts, a);
    assert forall x :: x in acts + [a] ==> Flusher(x);
  }

  /** Positioning and reading: the machine now holds exactly the batch of `FlushFrom`. */
  lemma {:induction false} PassReads(w: Wal, m: Wal, floor: Option<Checkpoint>, at: nat) returns (held: Wal)
    requires Flushes(w, m) && Between(m, floor, at) && at <= m.active && at in m.segs && Start(floor) <= at
    ensures Flushes(w, held)
    ensures held == m.(pass := Holding(floor, m.segs.Keys, m.active, at, Part(m.segs, floor, at)))
  {
    var a := Position(m, at);
    assert Enabled(m, a);
    FlushesStep(w, m, a);
    var m' := Apply(m, a);
    FlushesStep(w, m', Read);
    held := Apply(m', Read);
  }

  /** Delivering and saving the batch that is held. */
  lemma {:induction false} PassSaves(w: Wal, held: Wal, batch: seq<Entry>) returns (saved: Wal)
    requires Flushes(w, held) && held.up && held.pass.Holding? && held.pass.batch == batch != []
    ensures Flushes(w, saved)
    ensures var p := held.pass;
            saved == Recorded(held, p.at, batch).(pass := Done(p.floor, p.listed, p.seen, p.at))
  {
    FlushesStep(w, held, Deliver);
    var sent := Apply(held, Deliver);
    FlushesStep(w, sent, Save);
    saved := Apply(sent, Save);
  }

  lemma {:induction false} FlushRuns(w: Wal, m: Wal, floor: Option<Checkpoint>, at: nat, allow: nat)
    requires Flushes(w, m) && Between(m, floor, at) && at <= m.active + 1
    ensures Flushes(w, FlushFrom(m.(pass := Idle), floor, at, allow).wal)
    decreases m.active + 1 - at, 1
  {
    var v := m.(pass := Idle);
    if at > m.active {
      FlushesStep(w, m, Stop);
    } else if at !in m.segs || at < Start(floor) {
      if at in m.segs { FreshNone(floor, at, m.segs[at]); }
      assert Part(m.segs, floor, at) == [];
      FlushRuns(w, m, floor, at + 1, allow);
    } else {
      var held := PassReads(w, m, floor, at);
      FlushHeld(w, v, held, floor, at, allow);
    }
  }

  lemma {:induction false} FlushHeld(w: Wal, v: Wal, held: Wal, floor: Option<Checkpoint>, at: nat, allow: nat)
    requires Flushes(w, held) && held.up && !held.rotating && Start(floor) <= at <= v.active && v.pass.Idle?
    requires held == v.(pass := Holding(floor, v.segs.Keys, v.active, at, Part(v.segs, floor, at)))
    requires forall id :: id in v.segs ==> id <= v.active + 1
    ensures Flushes(w, FlushFrom(v, floor, at, allow).wal)
    decreases v.active + 1 - at, 0
  {
    var batch := Part(v.segs, floor, at);
    if batch == [] {
      assert held.(pass := Idle) == v;
      FlushRuns(w, held, floor, at + 1, allow);
    } else if allow == 0 {
      assert Apply(held, Stop) == v;
      FlushesStep(w, held, Stop);
    } else {
      var saved := PassSaves(w, held, batch);
      assert saved.(pass := Idle) == Recorded(v, at, batch);
      FlushRuns(w, saved, floor, at + 1, allow - 1);
    }
  }

  /** One call of the flusher is a run of flusher actions only, whatever the sink answers and appenders have begun. */
  lemma {:induction false} FlushedByFlusher(w: Wal, allow: nat)
    requires Struct(w) && w.up && !w.rotating && w.pass.Idle?
    ensures Flushes(w, FlushPass(w, allow).wal)
  {
    FlushesSelf(w);
    FlushesStep(w, w, Load);
    var m := Apply(w, Load);
    FlushRuns(w, m, w.cp, 0, allow);
    assert m.(pass := Idle) == w;
  }

  lemma {:induction false} FlushReached(w: Wal, allow: nat)
    requires Struct(w) && Quiescent(w)
    ensures Reaches(w, FlushPass(w, allow).wal)
  {
    FlushedByFlusher(w, allow);
    var acts :| Possible(w, acts) && Final(w, acts) == FlushPass(w, allow).wal && forall a :: a in acts ==> Flusher(a);
    assert Atomic(acts);
  }

  // ---------------------------------------------------------------- replay

  /** One call of the sink: the records of one batch, all of one segment. */
  datatype Call = Call(segment: nat, records: seq<Entry>)

  function Flatten(calls: seq<Call>): seq<Entry> {
    if calls == [] then [] else Flatten(calls[..|calls| - 1]) + calls[|calls| - 1].records
  }

  /** The size estimate of the replayer: payload plus 64 per record. */
  function Weight(es: seq<Entry>): nat {
    if es == [] then 0 else Weight(es[..|es| - 1]) + es[|es| - 1].size + 64
  }

  function PayloadBytes(es: seq<Entry>): nat {
    if es == [] then 0 else PayloadBytes(es[..|es| - 1]) + es[|es| - 1].size
  }

  /** The bound of a batch counts its payload and 64 bytes for each record. */
  lemma {:induction false} WeightExact(es: seq<Entry>)
    ensures Weight(es) == PayloadBytes(es) + 64 * |es|
  {
    if es != [] { WeightExact(es[..|es| - 1]); }
  }

  /** A batch is cut as soon as it meets the bound, and otherwise only at the end of its segment. */
  ghost predicate WellCut(calls: seq<Call>, limit: nat) {
    && (forall i :: 0 <= i < |calls| ==> Cut(calls[i].records, limit))
    && (forall i :: 0 <= i < |calls| - 1 && calls[i].segment == calls[i + 1].segment ==>
      Weight(calls[i].records) >= limit)
  }

  function LastCheckpoint(calls: seq<Call>): Option<Checkpoint> {
    if calls == [] then None else
      var last := calls[|calls| - 1];
      Some(Checkpoint(last.segment, MaxOffset(last.records)))
  }

  /** The calls deliver `queue`, all of them before segment `at`, and the last one ends what is pending there. */
  ghost predicate CoversTo(w: Wal, calls: seq<Call>, at: nat) {
    && Flatten(calls) == Pending(w.segs, w.cp, at)
    && (calls != [] ==>
        var last := calls[|calls| - 1]; var kept := Part(w.segs, w.cp, last.segment);
        && last.records != [] && |last.records| <= |kept| && last.segment < at
        && last.records == kept[|kept| - |last.records|..]
        && forall id :: last.segment < id < at ==> Part(w.segs, w.cp, id) == [])
  }

  /** Without its last record the batch is below the bound. */
  ghost predicate Cut(batch: seq<Entry>, limit: nat) {
    batch != [] && (|batch| > 1 ==> Weight(batch[..|batch| - 1]) < limit)
  }

  /** A replay the sink accepted: the last call decides the checkpoint. */
  function Replayed(w: Wal, calls: seq<Call>): Wal {
    if calls == [] then w else w.(delivered := w.delivered + Flatten(calls), cp := LastCheckpoint(calls))
  }

  /** The calls deliver the whole queue. */
  ghost predicate Covers(w: Wal, calls: seq<Call>) {
    Bounded(w) && CoversTo(w, calls, w.active + 2)
  }

  lemma {:induction false} ReplayReached(w: Wal, calls: seq<Call>)
    requires Quiescent(w) && Covers(w, calls)
    ensures Reaches(w, Replayed(w, calls))
  {
    ReachesSelf(w);
    if calls != [] {
      var last := calls[|calls| - 1];
      ReachesStep(w, w, Replay(last.segment, |last.records|));
    }
  }

  lemma {:induction false} ReplayFailReached(w: Wal, n: nat)
    requires Quiescent(w) && n <= |Unflushed(w)|
    ensures Reaches(w, Down(w.(delivered := w.delivered + Unflushed(w)[..n])))
  {
    ReachesSelf(w);
    ReachesStep(w, w, ReplayFail(n));
  }

  /** The last call lies in the last segment with something pending, which is where a flush pass ends. */
  lemma {:induction false} FlushEnd(w: Wal, floor: Option<Checkpoint>, at: nat, allow: nat, s: nat)
    requires s in w.segs && s <= w.active && Part(w.segs, floor, s) != []
    requires forall id :: id in w.segs && s < id ==> Part(w.segs, floor, id) == []
    requires at <= s && w.active < allow + at
    ensures var r := FlushFrom(w, floor, at, allow);
            r.ok && r.wal.cp == Some(Checkpoint(s, MaxOffset(Part(w.segs, floor, s))))
    decreases w.active + 1 - at
  {
    var batch := Part(w.segs, floor, at);
    if at < s {
      if batch == [] {
        FlushEnd(w, floor, at + 1, allow, s);
      } else {
        FlushEnd(Recorded(w, at, batch), floor, at + 1, allow - 1, s);
      }
    } else {
      SkipEmpty(Recorded(w, at, batch), floor, at + 1, w.active + 1, allow - 1);
    }
  }

  lemma {:induction false} ReplayedCheckpointAgrees(w: Wal, calls: seq<Call>, allow: nat)
    requires AllAscending(w) && Covers(w, calls) && w.active < allow && calls != []
    ensures FlushPass(w, allow).ok && FlushPass(w, allow).wal.cp == LastCheckpoint(calls)
  {
    hide Fresh, MaxOffset, Flatten, FlushFrom;
    var last := calls[|calls| - 1];
    var s, kept := last.segment, Part(w.segs, w.cp, last.segment);
    FreshNone(w.cp, w.active + 1, []);
    FlushEnd(w, w.cp, 0, allow, s);
    var k := ResumeSkipsPrefix(w.cp, s, w.segs[s]);
    AscendingMax(kept);
    AscendingMax(last.records);
    assert last.records[|last.records| - 1] == kept[|kept| - 1];
  }

  /** On ascending offsets a replay and a flush pass deliver the same records and leave the same checkpoint. */
  lemma {:induction false} ReplayRefinesFlush(w: Wal, calls: seq<Call>, allow: nat)
    requires Struct(w) && AllAscending(w) && Covers(w, calls) && w.active < allow
    ensures FlushPass(w, allow) == FlushResult(Replayed(w, calls), true)
  {
    PassStart(w);
    FlushConserves(w, w.cp, 0, allow);
    if calls == [] {
      PendingNothing(w.segs, w.cp, w.active + 2);
      SkipEmpty(w, w.cp, 0, w.active + 1, allow);
    } else {
      ReplayedCheckpointAgrees(w, calls, allow);
      var r := FlushPass(w, allow);
      assert r.wal.delivered == r.wal.delivered + [];
    }
  }

  lemma {:induction false} PendingNothing(segs: map<nat, seq<Entry>>, cp: Option<Checkpoint>, n: nat)
    requires Pending(segs, cp, n) == []
    ensures forall id :: 0 <= id < n ==> Part(segs, cp, id) == []
  {
    if n > 0 {
      PendingLast(segs, cp, n - 1);
      assert |Part(segs, cp, n - 1)| == 0;
      PendingNothing(segs, cp, n - 1);
    }
  }
}
