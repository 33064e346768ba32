/**
  Whole lives of a log: any sequence of opens, appends, flush passes, cleanups, replays and stops of the
  object of WalLog, from an empty directory on.
*/
module WalSession {
  import opened Prelude
  import opened WalModel
  import opened WalPending
  import opened WalSafety
  import opened WalExact
  import opened WalOnce
  import opened WalSpec
  import WalLog
  import WalLoops

  // ---------------------------------------------------------------- each call, as a run

  lemma {:induction false} AtomicConcat(acts: seq<Action>, more: seq<Action>)
    requires Atomic(acts) && Atomic(more)
    ensures Atomic(acts + more)
  {}

  lemma {:induction false} ReachesTrans(w: Wal, m: Wal, w': Wal)
    requires Reaches(w, m) && Reaches(m, w')
    ensures Reaches(w, w')
  {
    var acts :| Possible(w, acts) && Atomic(acts) && Final(w, acts) == m;
    var more :| Possible(m, more) && Atomic(more) && Final(m, more) == w';
    Chain(w, acts, more);
    AtomicConcat(acts, more);
    assert Possible(w, acts + more) && Atomic(acts + more) && Final(w, acts + more) == w';
  }

  lemma {:induction false} ReachesAscending(w: Wal, w': Wal)
    requires Struct(w) && AllAscending(w) && Reaches(w, w')
    ensures AllAscending(w')
  {
    var acts :| Possible(w, acts) && Atomic(acts) && Final(w, acts) == w';
    OffsetsAscend(w, acts);
  }

  lemma {:induction false} StopReached(w: Wal)
    requires w.up
    ensures Reaches(w, Down(w))
  {
    ReachesSelf(w);
    ReachesStep(w, w, Crash);
  }

  // ---------------------------------------------------------------- exactly once, call by call

  /** Between two calls: offsets ascend, and what was delivered, followed by the queue, is what was written. */
  ghost predicate Exact(w: Wal) {
    Inv(w) && AllAscending(w) && w.delivered + Unflushed(w) == w.owed
  }

  /** Between two calls nothing is under way. */
  predicate Resting(w: Wal) {
    !w.rotating && w.pass.Idle? && w.janitor.None? && w.reserved == {}
  }

  lemma {:induction false} ExactReached(w: Wal, w': Wal)
    requires Exact(w) && Reaches(w, w') && w'.delivered + Unflushed(w') == w'.owed
    ensures Exact(w')
  {
    ReachesKeepsInv(w, w');
    ReachesAscending(w, w');
  }

  lemma {:induction false} OnceAppended(w: Wal, size: nat, segmentMaxBytes: nat)
    requires Once(w) && Quiescent(w) && w.active in w.segs
    ensures Once(Appended(w, size, segmentMaxBytes))
  {
    hide Inv, Balanced, SegmentSize, MaxOffset, Unflushed, Pending, Part, Fresh;
    if Full(w, size, segmentMaxBytes) {
      var created := Apply(w, RotateCreate);
      OnceExact(w, RotateCreate);
      OnceExact(created, RotateSwap);
      OnceExact(Apply(created, RotateSwap), Action.Append(size));
    } else {
      OnceExact(w, Action.Append(size));
    }
  }

  lemma {:induction false} QuietWhenUp(w: Wal)
    requires Struct(w) && w.up && Resting(w)
    ensures Quiescent(w) && w.active in w.segs
  {}

  lemma {:induction false} ExactOpened(w: Wal, a: Action)
    requires Exact(w) && Resting(w) && Enabled(w, a) && (a.Create? || a.Open? || a.Crash?)
    ensures Exact(Apply(w, a)) && Resting(Apply(w, a))
  {
    hide Inv, MaxOffset, Unflushed, Pending, Part, Fresh, Reaches;
    OnceExact(w, a);
    ReachesSelf(w);
    ReachesStep(w, w, a);
    ExactReached(w, Apply(w, a));
  }

  lemma {:induction false} UnflushedCleaned(w: Wal, ids: seq<nat>, stuck: set<nat>)
    requires Inv(w) && Struct(Cleaned(w, Removals(w, ids, stuck)))
    ensures Unflushed(Cleaned(w, Removals(w, ids, stuck))) == Unflushed(w)
  {
    hide Pending, MaxOffset;
    var gone := Removals(w, ids, stuck);
    forall id ensures Part(w.segs, w.cp, id) == Part((w.segs - gone), w.cp, id) {
      if id in gone && id in w.segs { FreshNone(w.cp, id, w.segs[id]); }
    }
    UnflushedAgree(w, Cleaned(w, gone));
  }

  lemma {:induction false} BoundedStruct(w: Wal)
    requires Struct(w)
    ensures Bounded(w)
  {}

  // ---------------------------------------------------------------- sessions

  datatype Operation =
    | Open
    | Append(size: nat)
    | Flush(allow: nat)          // the sink accepts `allow` batches and refuses the next
    | Cleanup(stuck: set<nat>)
    | Replay(budget: nat)
    | Stop(cut: nat)             // the process dies and leaves `cut` bytes of a record

  /** What a call does is a run of the machine, and keeps delivery exact unless a replay was refused. */
  ghost predicate Leads(w: Wal, w': Wal, refused: bool) {
    Reaches(w, w') && (Exact(w) && !refused ==> Exact(w'))
  }

  lemma {:induction false} LeadsOpen(w: Wal, w': Wal, segmentMaxBytes: nat)
    requires Struct(w) && Resting(w) && !w.up
    requires if w.segs == map[] then w' == Created(w) else
             exists last :: LastSegment(w, last) && w' == Reopened(w, last, segmentMaxBytes)
    ensures Leads(w, w', false)
  {
    hide Exact, Reaches, SegmentSize, MaxOffset;
    if w.segs == map[] {
      OpenReached(w, 0, segmentMaxBytes);
      if Exact(w) { ExactOpened(w, Create); }
    } else {
      var last :| LastSegment(w, last) && w' == Reopened(w, last, segmentMaxBytes);
      OpenReached(w, last, segmentMaxBytes);
      if Exact(w) { ExactOpened(w, Action.Open(last, SegmentSize(w.segs[last]) >= segmentMaxBytes)); }
    }
  }

  lemma {:induction false} LeadsAppend(w: Wal, size: nat, segmentMaxBytes: nat)
    requires Struct(w) && Resting(w) && w.up && w.active in w.segs
    ensures Leads(w, Appended(w, size, segmentMaxBytes), false)
  {
    QuietWhenUp(w);
    AppendedReached(w, size, segmentMaxBytes);
    hide Inv, SegmentSize, MaxOffset, Unflushed, Pending, Part, Fresh, Reaches;
    if Exact(w) {
      OnceAppended(w, size, segmentMaxBytes);
      ExactReached(w, Appended(w, size, segmentMaxBytes));
    }
  }

  lemma {:induction false} LeadsFlush(w: Wal, allow: nat)
    requires Struct(w) && Resting(w) && w.up
    ensures Leads(w, FlushPass(w, allow).wal, false)
  {
    QuietWhenUp(w);
    FlushReached(w, allow);
    PassStart(w);
    FlushConserves(w, w.cp, 0, allow);
    hide Inv, MaxOffset, Unflushed, Pending, Part, Fresh, Reaches, FlushPass, FlushFrom;
    if Exact(w) { ExactReached(w, FlushPass(w, allow).wal); }
  }

  lemma {:induction false} LeadsCleanup(w: Wal, ids: seq<nat>, stuck: set<nat>)
    requires Struct(w) && Resting(w) && w.up && forall id :: id in ids ==> id in w.segs
    ensures Leads(w, Cleaned(w, Removals(w, ids, stuck)), false)
  {
    QuietWhenUp(w);
    CleanedReached(w, Removals(w, ids, stuck));
    hide Inv, MaxOffset, Unflushed, Pending, Part, Fresh, Reaches;
    if Exact(w) {
      UnflushedCleaned(w, ids, stuck);
      ExactReached(w, Cleaned(w, Removals(w, ids, stuck)));
    }
  }

  /** On ascending offsets a replay leaves what a flush pass leaves. */
  lemma {:induction false} LeadsReplay(w: Wal, calls: seq<Call>)
    requires Struct(w) && Resting(w) && w.up && CoversTo(w, calls, w.active + 2)
    ensures Leads(w, Replayed(w, calls), false)
  {
    QuietWhenUp(w);
    BoundedStruct(w);
    ReplayReached(w, calls);
    LeadsFlush(w, w.active + 1);
    hide Inv, Reaches, Replayed, CoversTo, FlushPass;
    if Exact(w) { ReplayRefinesFlush(w, calls, w.active + 1); }
  }

  lemma {:induction false} LeadsRefused(w: Wal, sent: seq<Entry>)
    requires Struct(w) && Resting(w) && w.up && sent <= Unflushed(w)
    ensures Leads(w, Down(w.(delivered := w.delivered + sent)), true)
  {
    hide Exact, Reaches, Unflushed;
    QuietWhenUp(w);
    assert Unflushed(w)[..|sent|] == sent;
    ReplayFailReached(w, |sent|);
  }

  lemma {:induction false} LeadsStop(w: Wal)
    requires Struct(w) && Resting(w) && w.up
    ensures Leads(w, Down(w), false)
  {
    hide Exact, Reaches;
    StopReached(w);
    if Exact(w) { ExactOpened(w, Crash); }
  }

  /** What a call does; a stopped log takes nothing but an open, a running one anything else. */
  ghost predicate Took(w: Wal, op: Operation, w': Wal, segmentMaxBytes: nat) {
    if op.Open? == w.up then w' == w else
      match op
      case Open => TookOpen(w, w', segmentMaxBytes)
      case Append(size) => w.active in w.segs && w' == Appended(w, size, segmentMaxBytes)
      case Flush(allow) => w' == FlushPass(w, allow).wal
      case Cleanup(stuck) =>
        exists ids :: (forall id :: id in ids <==> id in w.segs) && w' == Cleaned(w, Removals(w, ids, stuck))
      case Replay(budget) => exists calls :: TookReplay(w, calls, budget, w')
      case Stop(_) => w' == Down(w)
  }

  ghost predicate TookOpen(w: Wal, w': Wal, segmentMaxBytes: nat) {
    if w.segs == map[] then w' == Created(w) else
      exists last :: LastSegment(w, last) && w' == Reopened(w, last, segmentMaxBytes)
  }

  /** The calls deliver the whole queue, or the sink refuses the batch after the first `budget`. */
  ghost predicate TookReplay(w: Wal, calls: seq<Call>, budget: nat, w': Wal) {
    || (|calls| <= budget && CoversTo(w, calls, w.active + 2) && w' == Replayed(w, calls))
    || (|calls| == budget && Flatten(calls) <= Unflushed(w) && |Flatten(calls)| < |Unflushed(w)|
        && w' == Down(w.(delivered := w.delivered + Flatten(calls))))
  }

  predicate Refused(w: Wal, op: Operation, w': Wal) {
    op.Replay? && w.up && !w'.up
  }

  lemma {:induction false} TookLeads(w: Wal, op: Operation, w': Wal, segmentMaxBytes: nat)
    requires Struct(w) && Resting(w) && Took(w, op, w', segmentMaxBytes)
    ensures Leads(w, w', Refused(w, op, w'))
  {
    hide Leads, Struct, Resting, Reopened, Created, Appended, FlushPass, Cleaned, Removals, Replayed, CoversTo,
           Unflushed, Flatten;
    if op.Open? == w.up {
      LeadsSelf(w);
    } else {
      match op {
        case Open => LeadsOpen(w, w', segmentMaxBytes);
        case Append(size) => LeadsAppend(w, size, segmentMaxBytes);
        case Flush(allow) => LeadsFlush(w, allow);
        case Cleanup(stuck) =>
          var ids :| (forall id :: id in ids <==> id in w.segs) && w' == Cleaned(w, Removals(w, ids, stuck));
          LeadsCleanup(w, ids, stuck);
        case Replay(budget) =>
          var calls :| TookReplay(w, calls, budget, w');
          LeadsTaken(w, calls, budget, w');
        case Stop(_) => LeadsStop(w);
      }
    }
  }

  lemma {:induction false} LeadsSelf(w: Wal)
    ensures Leads(w, w, false) && Leads(w, w, true)
  {
    ReachesSelf(w);
  }

  lemma {:induction false} LeadsTaken(w: Wal, calls: seq<Call>, budget: nat, w': Wal)
    requires Struct(w) && Resting(w) && w.up && TookReplay(w, calls, budget, w')
    ensures Leads(w, w', !w'.up)
  {
    hide Leads, Struct, CoversTo, Unflushed, Flatten, LastCheckpoint;
    if |calls| <= budget && CoversTo(w, calls, w.active + 2) && w' == Replayed(w, calls) {
      LeadsReplay(w, calls);
    } else {
      LeadsRefused(w, Flatten(calls));
    }
  }

  /** Calls from an empty directory on, with the states between them. */
  ghost predicate History(trace: seq<Wal>, ops: seq<Operation>, segmentMaxBytes: nat) {
    && |trace| == |ops| + 1 && trace[0] == EMPTY
    && forall i :: 0 <= i < |ops| ==> Took(trace[i], ops[i], trace[i + 1], segmentMaxBytes)
  }

  /**
    Whatever is called, in whatever order, no record is lost in any state between the calls; and as long as
    no replay has been refused, every record was delivered exactly once, in order, or is still in the queue.
  */
  lemma {:induction false} SessionSafe(trace: seq<Wal>, ops: seq<Operation>, segmentMaxBytes: nat, n: nat)
    requires History(trace, ops, segmentMaxBytes) && n <= |ops|
    ensures Reaches(EMPTY, trace[n]) && Inv(trace[n]) && NoLoss(trace[n]) && Resting(trace[n])
    ensures (forall i :: 0 <= i < n ==> !Refused(trace[i], ops[i], trace[i + 1])) ==> Exact(trace[n])
  {
    ExactEmpty();
    hide Inv, Reaches, NoLoss, Struct, Exact, Took, Refused;
    if n == 0 {
      ReachesSelf(EMPTY);
    } else {
      SessionSafe(trace, ops, segmentMaxBytes, n - 1);
      var w, w' := trace[n - 1], trace[n];
      assert Took(w, ops[n - 1], w', segmentMaxBytes);
      InvStruct(w);
      TookLeads(w, ops[n - 1], w', segmentMaxBytes);
      TookRests(w, ops[n - 1], w', segmentMaxBytes);
      ReachesTrans(EMPTY, w, w');
      ReachesKeepsInv(EMPTY, w');
    }
  }

  /** No segment of more than one record exceeds the limit. */
  predicate Fit(w: Wal, segmentMaxBytes: nat) {
    forall id :: id in w.segs && |w.segs[id]| > 1 ==> SegmentSize(w.segs[id]) <= segmentMaxBytes
  }

  lemma {:induction false} SameFit(w: Wal, w': Wal, segmentMaxBytes: nat)
    requires Fit(w, segmentMaxBytes) && forall id :: id in w'.segs && w'.segs[id] != [] ==>
               id in w.segs && w'.segs[id] == w.segs[id]
    ensures Fit(w', segmentMaxBytes)
  {}

  lemma {:induction false} AppendedFit(w: Wal, size: nat, segmentMaxBytes: nat)
    requires Fit(w, segmentMaxBytes) && w.active in w.segs
    ensures Fit(Appended(w, size, segmentMaxBytes), segmentMaxBytes)
  {
    hide SegmentSize, Appended;
    AppendFits(w, size, segmentMaxBytes);
  }

  lemma {:induction false} TookFits(w: Wal, op: Operation, w': Wal, segmentMaxBytes: nat)
    requires Struct(w) && Fit(w, segmentMaxBytes) && Took(w, op, w', segmentMaxBytes)
    ensures Fit(w', segmentMaxBytes)
  {
    hide Struct, Fit, MaxOffset, SegmentSize, FlushPass, Unflushed, Flatten, CoversTo, LastCheckpoint, Appended;
    if op.Append? && w.up {
      AppendedFit(w, op.size, segmentMaxBytes);
    } else {
      if op.Flush? && w.up { FlushRests(w, op.allow); }
      if op.Open? && !w.up && w.segs != map[] {
        var last :| LastSegment(w, last) && w' == Reopened(w, last, segmentMaxBytes);
      }
      SameFit(w, w', segmentMaxBytes);
    }
  }

  /** Over whole sessions, reopenings included, only a record that is alone may exceed the limit of a segment. */
  lemma {:induction false} SessionFits(trace: seq<Wal>, ops: seq<Operation>, segmentMaxBytes: nat, n: nat)
    requires History(trace, ops, segmentMaxBytes) && n <= |ops|
    ensures Fit(trace[n], segmentMaxBytes)
  {
    if n > 0 {
      SessionFits(trace, ops, segmentMaxBytes, n - 1);
      SessionSafe(trace, ops, segmentMaxBytes, n - 1);
      InvStruct(trace[n - 1]);
      hide Fit, Took, Struct, Inv, Reaches, NoLoss, Exact, Refused;
      assert Took(trace[n - 1], ops[n - 1], trace[n], segmentMaxBytes);
      TookFits(trace[n - 1], ops[n - 1], trace[n], segmentMaxBytes);
    }
  }

  lemma {:induction false} TookRests(w: Wal, op: Operation, w': Wal, segmentMaxBytes: nat)
    requires Resting(w) && Struct(w) && Took(w, op, w', segmentMaxBytes)
    ensures Resting(w')
  {
    hide Struct, MaxOffset, SegmentSize, FlushFrom, Unflushed, Flatten, CoversTo, Removals, LastCheckpoint;
    if op.Flush? && w.up { FlushRests(w, op.allow); }
  }

  lemma {:induction false} FlushRests(w: Wal, allow: nat)
    requires Struct(w)
    ensures var r := FlushPass(w, allow).wal; r == w.(delivered := r.delivered, cp := r.cp)
  {
    PassStart(w);
    FlushConserves(w, w.cp, 0, allow);
  }

  lemma {:induction false} InvStruct(w: Wal)
    requires Inv(w)
    ensures Struct(w)
  {}

  lemma {:induction false} ExactEmpty()
    ensures Exact(EMPTY) && Inv(EMPTY) && Struct(EMPTY) && NoLoss(EMPTY) && Resting(EMPTY)
  {}

  /** One call on the object. */
  method Perform(log: WalLog.Wal, op: Operation)
    requires log.Valid()
    modifies log
    ensures log.Valid() && Took(old(log.View()), op, log.View(), log.segmentMaxBytes)
  {
    hide WalLoops.Agrees, Reopened, Created, Appended, FlushPass, Cleaned, Removals, Replayed, CoversTo, Unflushed,
           Flatten;
    ghost var w := log.View();
    match op {
      case Open => if !log.up { log.Open(); }
      case Append(size) => if log.up { ActiveFiled(w, log.tails, log.size); log.Append(size); }
      case Flush(allow) => if log.up { var ok := log.FlushOnce(allow); }
      case Cleanup(stuck) => if log.up { var removed, listed := log.CleanupOnce(stuck); }
      case Replay(budget) =>
        if log.up {
          var ok, replayed, calls := log.Replay(budget);
          assert TookReplay(w, calls, budget, log.View());
        }
      case Stop(cut) => if log.up { log.Stop(cut); }
    }
  }

  lemma {:induction false} ActiveFiled(w: Wal, tails: map<nat, nat>, size: nat)
    requires WalLoops.Agrees(w, tails, size) && w.up
    ensures w.active in w.segs
  {}

  /** The calls one after the other on a new object: the object follows a history. */
  method Session(segmentMaxBytes: nat, replayBatchMaxBytes: nat, ops: seq<Operation>)
    returns (log: WalLog.Wal, ghost trace: seq<Wal>)
    ensures log.Valid() && log.segmentMaxBytes == segmentMaxBytes
    ensures History(trace, ops, segmentMaxBytes) && log.View() == trace[|ops|]
  {
    hide Took;
    log := new WalLog.Wal(segmentMaxBytes, replayBatchMaxBytes);
    trace := [EMPTY];
    for i := 0 to |ops|
      invariant fresh(log) && log.Valid() && log.segmentMaxBytes == segmentMaxBytes
      invariant |trace| == i + 1 && trace[0] == EMPTY && log.View() == trace[i]
      invariant forall j :: 0 <= j < i ==> Took(trace[j], ops[j], trace[j + 1], segmentMaxBytes)
    {
      Perform(log, ops[i]);
      trace := trace + [log.View()];
    }
  }
}
