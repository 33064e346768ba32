/**
  Order and multiplicity of delivery.  Offsets ascend in every file; the records the sink accepted,
  followed by the records still ahead of the checkpoint, are the records written, each once and in
  order, exactly as long as nothing stops the flusher between the sink's answer and the checkpoint.
*/
module WalOnce {
  import opened Prelude
  import opened WalModel
  import opened WalPending
  import opened WalSafety
  import opened WalExact

  // ---------------------------------------------------------------- ascending offsets

  predicate Ascending(es: seq<Entry>) {
    forall i, j :: 0 <= i < j < |es| ==> es[i].offset < es[j].offset
  }

  ghost predicate AllAscending(w: Wal) {
    forall id :: id in w.segs ==> Ascending(w.segs[id])
  }

  lemma {:induction false} AscendingAppend(w: Wal, size: nat)
    requires Struct(w) && AllAscending(w) && Enabled(w, Append(size))
    ensures AllAscending(Apply(w, Append(size)))
  {
    hide MaxOffset, Fresh, Pending, Part, Unflushed, Spared, Marks, Names, PassShape, Files;
    var es := w.segs[w.active];
    assert forall i :: 0 <= i < |es| ==> es[i] in es;
  }

  lemma {:induction false} AscendingStep(w: Wal, a: Action)
    requires Struct(w) && AllAscending(w) && Enabled(w, a) && !a.Reserve? && !a.Write?
    ensures AllAscending(Apply(w, a))
  {
    hide MaxOffset, Fresh, Pending, Part, Unflushed, Spared, Struct;
    if a.Append? { AscendingAppend(w, a.size); }
  }

  /** Crashes, power losses, reopens, rotations and removals included. */
  lemma {:induction false} OffsetsAscend(w: Wal, acts: seq<Action>)
    requires Struct(w) && AllAscending(w) && Possible(w, acts)
    requires forall a :: a in acts ==> !a.Reserve? && !a.Write?
    ensures AllAscending(Final(w, acts))
    decreases |acts|
  {
    if acts != [] {
      assert acts[0] in acts;
      assert forall a :: a in acts[1..] ==> a in acts;
      StructKept(w, acts[0]);
      AscendingStep(w, acts[0]);
      OffsetsAscend(Apply(w, acts[0]), acts[1..]);
    }
  }

  lemma {:induction false} AscendingMax(es: seq<Entry>)
    requires Ascending(es) && es != []
    ensures MaxOffset(es) == es[|es| - 1].offset
  {
    if |es| > 1 { AscendingMax(es[..|es| - 1]); }
  }

  /** On ascending offsets the resume test of a pass skips a prefix of the checkpoint's segment, nothing else. */
  lemma {:induction false} ResumeSkipsPrefix(cp: Option<Checkpoint>, id: nat, es: seq<Entry>) returns (k: nat)
    requires Ascending(es)
    ensures k <= |es| && Fresh(cp, id, es) == es[k..]
    ensures forall i :: 0 <= i < |es| ==> (i < k <==> Behind(cp, id, es[i]))
  {
    hide Fresh;
    if es == [] {
      FreshNone(cp, id, es);
      k := 0;
    } else if Behind(cp, id, es[|es| - 1]) {
      AllBehind(cp, id, es);
      FreshNone(cp, id, es);
      k := |es|;
    } else {
      var init, last := es[..|es| - 1], es[|es| - 1];
      k := ResumeSkipsPrefix(cp, id, init);
      assert init + [last] == es && init[k..] + [last] == es[k..];
      FreshAppend(cp, id, init, last);
    }
  }

  /** If the last record of a segment is behind the checkpoint, all are. */
  lemma {:induction false} AllBehind(cp: Option<Checkpoint>, id: nat, es: seq<Entry>)
    requires Ascending(es) && es != [] && Behind(cp, id, es[|es| - 1])
    ensures forall i :: 0 <= i < |es| ==> Behind(cp, id, es[i])
  {
    forall i | 0 <= i < |es| - 1 ensures es[i].offset < es[|es| - 1].offset {}
  }

  // ---------------------------------------------------------------- exactly once

  function Tail(w: Wal, a: Action): seq<Entry>
    requires a.Replay? && Enabled(w, a)
  {
    var kept := Part(w.segs, w.cp, a.segment);
    kept[|kept| - a.tail..]
  }

  /** Nothing comes between the sink's answer and the checkpoint, and a refusing sink accepts nothing. */
  predicate Clean(w: Wal, a: Action)
    requires Enabled(w, a)
  {
    match a
    case Write(o, _) => SafeWrite(w, o)
    case Crash => !w.pass.Sent?
    case Stop => !w.pass.Sent?
    case Refuse(n) => n == 0
    case ReplayFail(n) => n == 0
    case Replay(s, _) => MaxOffset(Tail(w, a)) == MaxOffset(Part(w.segs, w.cp, s))
    case PowerLoss => false
    case _ => true
  }

  predicate CleanRun(w: Wal, acts: seq<Action>)
    requires Possible(w, acts)
    decreases |acts|
  {
    acts == [] || (Clean(w, acts[0]) && CleanRun(Apply(w, acts[0]), acts[1..]))
  }

  /** What was delivered and recorded, followed by what is pending, is what was written. */
  ghost predicate Balanced(w: Wal) {
    if w.pass.Sent? then
      var n := |w.delivered| - |w.pass.batch|;
      && 0 <= n
      && w.delivered[n..] == w.pass.batch
      && w.delivered[..n] + Unflushed(w) == w.owed
    else
      w.delivered + Unflushed(w) == w.owed
  }

  ghost predicate Once(w: Wal) {
    Inv(w) && Balanced(w)
  }

  lemma {:induction false} NothingAbove(w: Wal, id: nat)
    requires Files(w) && id >= w.active + 2
    ensures Part(w.segs, w.cp, id) == []
  {}

  lemma {:induction false} UnflushedAgree(w: Wal, w': Wal)
    requires Files(w) && Files(w') && w.cp == w'.cp
    requires forall id :: Part(w.segs, w.cp, id) == Part(w'.segs, w.cp, id)
    ensures Unflushed(w') == Unflushed(w)
  {
    hide Part, Pending, Files;
    var top := Max(w.active, w'.active) + 2;
    forall id: nat | w.active + 2 <= id < top ensures Part(w.segs, w.cp, id) == [] { NothingAbove(w, id); }
    forall id: nat | w'.active + 2 <= id < top ensures Part(w'.segs, w'.cp, id) == [] { NothingAbove(w', id); }
    PendingSame(w.segs, w'.segs, w.cp, w.cp, top);
    PendingExtend(w.segs, w.cp, w.active + 2, top);
    PendingExtend(w'.segs, w.cp, w'.active + 2, top);
  }

  lemma {:induction false} UnflushedSame(w: Wal, a: Action)
    requires Inv(w) && Enabled(w, a)
    requires a.Create? || a.Open? || a.RotateCreate? || a.RotateSwap? || a.JanitorRemove?
    ensures Unflushed(Apply(w, a)) == Unflushed(w)
  {
    var w' := Apply(w, a);
    StructKept(w, a);
    if a.JanitorRemove? { FreshNone(w.cp, a.id, w.segs[a.id]); }
    forall id ensures Part(w.segs, w.cp, id) == Part(w'.segs, w.cp, id) {}
    UnflushedAgree(w, w');
  }

  lemma {:induction false} UnflushedPut(w: Wal, a: Action)
    requires Inv(w) && Enabled(w, a) && Guard(w, a) && (a.Append? || a.Write?)
    ensures Unflushed(Apply(w, a)) == Unflushed(w) + [NewEntry(w, a)]
    ensures Apply(w, a).owed == w.owed + [NewEntry(w, a)]
  {
    PutAhead(w, a);
    PendingAppend(w.segs, w.cp, w.active, NewEntry(w, a), w.active + 2);
  }

  lemma {:induction false} UnflushedSave(w: Wal)
    requires Inv(w) && Enabled(w, Save)
    ensures Unflushed(w) == w.pass.batch + Unflushed(Apply(w, Save))
  {
    hide Pending, Fresh, MaxOffset, Names, Settled, Kept, Above;
    PendingAdvance(w.segs, w.cp, Apply(w, Save).cp, w.pass.at, w.pass.batch, w.active + 2);
  }

  lemma {:induction false} ReplayCovers(w: Wal, a: Action, id: nat, e: Entry)
    requires Inv(w) && Enabled(w, a) && a.Replay? && Clean(w, a)
    requires id in w.segs && e in w.segs[id]
    ensures Behind(Apply(w, a).cp, id, e)
  {
    hide MaxOffset, Fresh, Pending, Unflushed, Names, PassShape, PassQueue, Settled, Kept, Spared, Survivors;
    var s, kept := a.segment, Part(w.segs, w.cp, a.segment);
    FreshMember(w.cp, s, w.segs[s]);
    FreshMember(w.cp, id, w.segs[id]);
    MaxOffsetBound(kept);
    assert kept[0] in kept;
    if !Behind(w.cp, id, e) { assert e in Part(w.segs, w.cp, id); }
  }

  lemma {:induction false} ReplayLeavesNothing(w: Wal, a: Action)
    requires Inv(w) && Enabled(w, a) && a.Replay? && Clean(w, a)
    ensures Unflushed(Apply(w, a)) == []
  {
    var cp := Apply(w, a).cp;
    forall id, e | id in w.segs && e in w.segs[id] ensures Behind(cp, id, e) { ReplayCovers(w, a, id, e); }
    PendingNone(w.segs, cp, w.active + 2);
  }

  lemma {:induction false} ReplayLeavesLarger(w: Wal, a: Action)
    requires Inv(w) && Enabled(w, a) && a.Replay? && !Clean(w, a)
    ensures Unflushed(Apply(w, a)) != []
  {
    hide MaxOffset, Fresh, Pending, Names, PassShape, PassQueue, Settled, Kept, Spared, Survivors;
    var w' := Apply(w, a);
    var s, kept, tail := a.segment, Part(w.segs, w.cp, a.segment), Tail(w, a);
    FreshMember(w.cp, s, w.segs[s]);
    MaxOffsetBound(kept);
    MaxOffsetBound(tail);
    var top :| top in kept && top.offset == MaxOffset(kept);
    assert exists e :: e in tail && e.offset == MaxOffset(tail);
    assert forall e :: e in tail ==> e in kept;
    assert MaxOffset(tail) < top.offset;
    assert !Behind(w'.cp, s, top);
    PendingMember(w'.segs, w'.cp, w'.active + 2, top);
  }

  lemma {:induction false} OnceQuiet(w: Wal, a: Action)
    requires Once(w) && Enabled(w, a)
    requires a.Reserve? || a.Fsync? || a.Load? || a.See? || a.Next? || a.JanitorLoad? || a.JanitorDone? || a.RotateFail?
    ensures Balanced(Apply(w, a))
  {
    hide Inv, Pending, Part, Fresh, MaxOffset, Spared, Survivors, Unsynced;
  }

  lemma {:induction false} OnceSame(w: Wal, a: Action)
    requires Once(w) && Enabled(w, a)
    requires a.Create? || a.Open? || a.RotateCreate? || a.RotateSwap? || a.JanitorRemove?
    ensures Balanced(Apply(w, a))
  {
    hide Inv, Pending, Part, Fresh, MaxOffset, Unflushed, Spared, Survivors, Unsynced;
    UnflushedSame(w, a);
  }

  lemma {:induction false} OnceRead(w: Wal)
    requires Once(w) && Enabled(w, Read)
    ensures Balanced(Apply(w, Read))
  {
    hide Inv, Pending, Part, Fresh, MaxOffset, Spared, Survivors, Unsynced;
  }

  lemma {:induction false} OnceDeliver(w: Wal)
    requires Once(w) && Enabled(w, Deliver)
    ensures Balanced(Apply(w, Deliver))
  {
    hide Inv, Pending, Part, Fresh, MaxOffset, Spared, Survivors, Unsynced;
    assert Apply(w, Deliver).delivered[..|w.delivered|] == w.delivered;
  }

  lemma {:induction false} OnceRefuse(w: Wal, n: nat)
    requires Once(w) && Enabled(w, Refuse(n))
    ensures Balanced(Apply(w, Refuse(n))) <==> n == 0
  {
    hide Inv, Pending, Part, Fresh, MaxOffset, Spared, Survivors, Unsynced;
    var w' := Apply(w, Refuse(n));
    assert |w'.delivered + Unflushed(w')| == |w.owed| + n;
    assert w.pass.batch[..0] == [] && w.delivered + [] == w.delivered;
  }

  lemma {:induction false} OnceHalt(w: Wal, a: Action)
    requires Once(w) && Enabled(w, a) && (a.Crash? || a.Stop?)
    ensures Balanced(Apply(w, a)) <==> Clean(w, a)
  {
    hide Pending, Part, Fresh, MaxOffset, Spared, Survivors, Unsynced, Files, Offsets, Marks, Names, PassQueue,
           Settled, Kept;
    var w' := Apply(w, a);
    if w.pass.Sent? {
      assert |w'.delivered + Unflushed(w')| == |w.owed| + |w.pass.batch|;
    }
  }

  lemma {:induction false} OnceReplayFail(w: Wal, n: nat)
    requires Once(w) && Enabled(w, ReplayFail(n))
    ensures Balanced(Apply(w, ReplayFail(n))) <==> n == 0
  {
    hide Inv, Pending, Part, Fresh, MaxOffset, Spared, Survivors, Unsynced;
    var w' := Apply(w, ReplayFail(n));
    assert |w'.delivered + Unflushed(w')| == |w.owed| + n;
    assert w.delivered + Unflushed(w)[..0] == w.delivered;
  }

  lemma {:induction false} OnceReplay(w: Wal, a: Action)
    requires Once(w) && Enabled(w, a) && a.Replay?
    ensures Balanced(Apply(w, a)) <==> Clean(w, a)
  {
    var w' := Apply(w, a);
    assert w'.delivered == w.owed;
    if Clean(w, a) {
      ReplayLeavesNothing(w, a);
      assert w'.delivered + [] == w.owed;
    } else {
      ReplayLeavesLarger(w, a);
      assert |w'.delivered + Unflushed(w')| > |w.owed|;
    }
  }

  lemma {:induction false} OnceWrite(w: Wal, a: Action)
    requires Once(w) && Enabled(w, a) && a.Write?
    ensures Once(Apply(w, a)) <==> Clean(w, a)
  {
    if SafeWrite(w, a.offset) {
      InvKept(w, a);
      OncePut(w, a);
    } else {
      LateWriteExact(w, a.offset, a.size);
      if Inv(Apply(w, a)) { InvSafeFrom(Apply(w, a)); }
    }
  }

  /** Delivery stays exactly once, in order, precisely at the clean actions. */
  lemma {:induction false} OnceExact(w: Wal, a: Action)
    requires Once(w) && Enabled(w, a) && !a.PowerLoss?
    ensures Once(Apply(w, a)) <==> Clean(w, a)
  {
    hide Inv, Balanced, Apply, Enabled;
    if a.Write? {
      OnceWrite(w, a);
    } else {
      InvKept(w, a);
      match a {
        case Reserve => OnceQuiet(w, a);
        case Fsync(_, _) => OnceQuiet(w, a);
        case Load => OnceQuiet(w, a);
        case See(_) => OnceQuiet(w, a);
        case Next(_) => OnceQuiet(w, a);
        case JanitorLoad => OnceQuiet(w, a);
        case JanitorDone => OnceQuiet(w, a);
        case RotateFail => OnceQuiet(w, a);
        case Create => OnceSame(w, a);
        case Open(_, _) => OnceSame(w, a);
        case RotateCreate => OnceSame(w, a);
        case RotateSwap => OnceSame(w, a);
        case JanitorRemove(_) => OnceSame(w, a);
        case Append(_) => OncePut(w, a);
        case Save => UnflushedSave(w); OnceSave(w);
        case Replay(_, _) => OnceReplay(w, a);
        case ReplayFail(n) => OnceReplayFail(w, n);
        case Crash => OnceHalt(w, a);
        case Stop => OnceHalt(w, a);
        case Read => OnceRead(w);
        case Deliver => OnceDeliver(w);
        case Refuse(n) => OnceRefuse(w, n);
      }
    }
  }

  lemma {:induction false} OncePut(w: Wal, a: Action)
    requires Once(w) && Enabled(w, a) && Guard(w, a) && (a.Append? || a.Write?)
    ensures Balanced(Apply(w, a))
  {
    UnflushedPut(w, a);
    hide Inv, Unflushed, Guard, Balanced;
    assert Apply(w, a).pass == w.pass && Apply(w, a).delivered == w.delivered;
    OneBalanced(w, Apply(w, a), NewEntry(w, a));
  }

  lemma {:induction false} OneBalanced(w: Wal, w': Wal, e: Entry)
    requires Balanced(w) && w'.pass == w.pass && w'.delivered == w.delivered
    requires Unflushed(w') == Unflushed(w) + [e] && w'.owed == w.owed + [e]
    ensures Balanced(w')
  {
    hide Unflushed;
    if w.pass.Sent? {
      Associate(w.delivered[..|w.delivered| - |w.pass.batch|], Unflushed(w), [e]);
    } else {
      Associate(w.delivered, Unflushed(w), [e]);
    }
  }

  lemma {:induction false} OnceSave(w: Wal)
    requires Once(w) && Enabled(w, Save)
    requires Unflushed(w) == w.pass.batch + Unflushed(Apply(w, Save))
    ensures Balanced(Apply(w, Save))
  {
    var n := |w.delivered| - |w.pass.batch|;
    assert w.delivered == w.delivered[..n] + w.pass.batch;
    Associate(w.delivered[..n], w.pass.batch, Unflushed(Apply(w, Save)));
  }

  lemma {:induction false} OnceOnRuns(w: Wal, acts: seq<Action>)
    requires Once(w) && Possible(w, acts) && CleanRun(w, acts)
    ensures Once(Final(w, acts))
    decreases |acts|
  {
    if acts != [] {
      OnceExact(w, acts[0]);
      OnceOnRuns(Apply(w, acts[0]), acts[1..]);
    }
  }

  /** Any number of passes, interleaved with appends, rotations, removals and crashes outside a delivery. */
  lemma {:induction false} ExactlyOnce(acts: seq<Action>)
    requires Possible(EMPTY, acts) && CleanRun(EMPTY, acts)
    requires !Final(EMPTY, acts).pass.Sent?
    ensures var w := Final(EMPTY, acts);
            w.delivered <= w.owed && w.owed[|w.delivered|..] == Unflushed(w)
  {
    OnceOnRuns(EMPTY, acts);
  }

  /** With ascending offsets the last batch of a replay always holds the largest offset. */
  lemma {:induction false} AscendingReplayClean(w: Wal, a: Action)
    requires AllAscending(w) && Enabled(w, a) && a.Replay?
    ensures Clean(w, a)
  {
    var es := w.segs[a.segment];
    var k := ResumeSkipsPrefix(w.cp, a.segment, es);
    var kept := Part(w.segs, w.cp, a.segment);
    AscendingMax(kept);
    AscendingMax(Tail(w, a));
  }

  // ---------------------------------------------------------------- delivered twice

  const ONLY := Entry(0, 0, 0)

  const HALTED := ([Create] + [Append(0)]) + ([Load] + ([See(0)] + ([Read] + ([Deliver] + [Crash]))))

  const WRITTEN: Wal :=
    Wal(true, map[0 := [ONLY]], map[0 := 0], 0, false, 1, {}, None, [], [ONLY], 1, Idle, None)

  /** The process died between the sink's answer and the checkpoint. */
  const UNRECORDED: Wal :=
    Wal(false, map[0 := [ONLY]], map[0 := 0], 0, false, 1, {}, None, [ONLY], [ONLY], 1, Idle, None)

  lemma {:induction false} WrittenReachable()
    ensures Possible(EMPTY, [Create] + [Append(0)]) && Final(EMPTY, [Create] + [Append(0)]) == WRITTEN
  {
    var w1 := EMPTY.(up := true, segs := map[0 := []], synced := map[0 := 0]);
    assert [] + [ONLY] == [ONLY] && map[0 := []][0 := [ONLY]] == map[0 := [ONLY]];
    hide Possible, Final;
    One(w1, Append(0));
    Step(EMPTY, Create, w1, [Append(0)]);
  }

  lemma {:induction false} StopsBeforeSave(w: Wal)
    requires w == WRITTEN.(delivered := [] + [ONLY], pass := Sent(None, {0}, 0, 0, [ONLY]))
    ensures Enabled(w, Crash) && Apply(w, Crash) == UNRECORDED
  {}

  lemma {:induction false} UnrecordedReachable()
    ensures Possible(EMPTY, HALTED) && Final(EMPTY, HALTED) == UNRECORDED
  {
    hide Possible, Final, Enabled, Apply;
    WrittenReachable();
    var w2 := WRITTEN;
    var w3 := w2.(pass := Listed(None, {0}));
    var w4 := w2.(pass := Scanning(None, {0}, 0, 0));
    var w5 := w2.(pass := Holding(None, {0}, 0, 0, [ONLY]));
    var w6 := w2.(delivered := [] + [ONLY], pass := Sent(None, {0}, 0, 0, [ONLY]));
    PassStarts(w2, [ONLY], w3, w4);
    PassEnds(w2, [ONLY], w4, w5, w6);
    StopsBeforeSave(w6);
    One(w6, Crash);
    Step(w5, Deliver, w6, [Crash]);
    Step(w4, Read, w5, [Deliver] + [Crash]);
    Step(w3, See(0), w4, [Read] + ([Deliver] + [Crash]));
    Step(w2, Load, w3, [See(0)] + ([Read] + ([Deliver] + [Crash])));
    Chain(EMPTY, [Create] + [Append(0)], [Load] + ([See(0)] + ([Read] + ([Deliver] + [Crash]))));
  }

  /** The next start hands the same record to the sink again. */
  lemma {:induction false} RedeliveryReachable()
    ensures var acts := HALTED + ([Open(0, false)] + [Replay(0, 1)]);
            Possible(EMPTY, acts) && Atomic(acts) && Final(EMPTY, acts).delivered == [ONLY, ONLY]
            && Final(EMPTY, acts).owed == [ONLY]
  {
    UnrecordedReachable();
    var w := UNRECORDED.(up := true, next := 1);
    var es := w.segs[0];
    FreshAll(None, 0, es);
    MaxOffsetBound(es);
    PendingLast(w.segs, None, 0);
    PendingLast(w.segs, None, 1);
    assert Unflushed(w) == [ONLY];
    assert Part(w.segs, w.cp, 0) == [ONLY];
    hide Possible, Final, Unflushed, Part, Fresh, Pending, Atomic;
    One(w, Replay(0, 1));
    assert ONLY in es;
    Step(UNRECORDED, Open(0, false), w, [Replay(0, 1)]);
    Chain(EMPTY, HALTED, [Open(0, false)] + [Replay(0, 1)]);
    HaltedAtomic();
  }

  lemma {:induction false} HaltedAtomic()
    ensures Atomic(HALTED + ([Open(0, false)] + [Replay(0, 1)]))
  {}
}
