/**
  The guards are exact.  A late write and a power loss are the two actions that can break the log;
  each keeps every continuation safe if and only if its guard holds, and a record that falls behind
  the checkpoint undelivered stays lost in every continuation.
*/
module WalExact {
  import opened Prelude
  import opened WalModel
  import opened WalPending
  import opened WalSafety

  ghost predicate SafeFrom(w: Wal) {
    forall acts :: Possible(w, acts) && Guarded(w, acts) ==> NoLoss(Final(w, acts))
  }

  lemma {:induction false} InvSafeFrom(w: Wal)
    requires Inv(w)
    ensures SafeFrom(w)
  {
    forall acts | Possible(w, acts) && Guarded(w, acts) ensures NoLoss(Final(w, acts)) {
      InvOnRuns(w, acts);
      InvMeansNoLoss(Final(w, acts));
    }
  }

  /** The record can no longer be read by any pass, and nobody holds it. */
  ghost predicate LostFor(w: Wal, e: Entry) {
    && e !in w.delivered
    && e.id < w.count
    && forall id :: id in w.segs && e in w.segs[id] ==> Behind(w.cp, id, e)
  }

  lemma {:induction false} LostBreaks(w: Wal, e: Entry)
    requires Struct(w) && LostFor(w, e) && e in w.owed
    ensures !NoLoss(w)
  {
    UnflushedMember(w, e);
  }

  // ---------------------------------------------------------------- late writes

  /** How a flusher that already holds a later offset completes. */
  function Completion(p: Pass): seq<Action> {
    if p.Holding? then [Deliver, Save] else if p.Sent? then [Save] else []
  }

  lemma {:induction false} SaveHides(w: Wal, e: Entry)
    requires Struct(w) && Enabled(w, Save) && e.id < w.count && e !in w.delivered && e in w.owed
    requires forall id :: id in w.segs && e in w.segs[id] ==> Behind(AfterSave(w.pass), id, e)
    ensures Possible(w, [Save]) && Guarded(w, [Save]) && !NoLoss(Final(w, [Save]))
  {
    StructKept(w, Save);
    One(w, Save);
    LostBreaks(Apply(w, Save), e);
  }

  lemma {:induction false} CompletionHides(w: Wal, e: Entry)
    requires Struct(w) && w.up && e.id < w.count && e !in w.delivered && e in w.owed
    requires w.pass.Holding? || w.pass.Sent?
    requires w.pass.batch != [] && e !in w.pass.batch
    requires forall id :: id in w.segs && e in w.segs[id] ==> Behind(AfterSave(w.pass), id, e)
    ensures Possible(w, Completion(w.pass)) && Guarded(w, Completion(w.pass))
    ensures !NoLoss(Final(w, Completion(w.pass)))
  {
    if w.pass.Holding? {
      var sent := Apply(w, Deliver);
      StructKept(w, Deliver);
      assert Enabled(sent, Save);
      hide Struct, NoLoss;
      SaveHides(sent, e);
      assert [Deliver, Save] == [Deliver] + [Save];
      Step(w, Deliver, sent, [Save]);
    } else {
      SaveHides(w, e);
    }
  }

  /**
    A record written at an offset handed out earlier stays safe in every continuation exactly when its
    offset is above everything of its segment the flusher has recorded or is about to record.
  */
  lemma {:induction false} LateWriteExact(w: Wal, o: nat, size: nat)
    requires Inv(w) && Enabled(w, Write(o, size))
    ensures SafeFrom(Apply(w, Write(o, size))) <==> SafeWrite(w, o)
  {
    var w' := Apply(w, Write(o, size));
    if SafeWrite(w, o) {
      InvKept(w, Write(o, size));
      InvSafeFrom(w');
    } else {
      StructKept(w, Write(o, size));
      var e := Entry(w.count, o, size);
      assert e in w'.owed && e !in w.delivered;
      assert forall id :: id in w.segs ==> e !in w.segs[id];
      if w.cp.Some? && w.cp.value.segment == w.active && o <= w.cp.value.offset {
        LostBreaks(w', e);
        assert Possible(w', []) && Guarded(w', []) && Final(w', []) == w';
      } else {
        CompletionHides(w', e);
        assert !SafeFrom(w');
      }
    }
  }

  // ---------------------------------------------------------------- power loss

  /** Offsets restart at or below the checkpoint: the first append is behind it at once. */
  lemma {:induction false} ReopenHides(w: Wal, last: nat)
    requires Struct(w) && !w.up && LastSegment(w, last)
    requires w.cp.Some? && w.cp.value.segment == last && MaxOffset(w.segs[last]) < w.cp.value.offset
    ensures var acts := [Open(last, false), Append(0)];
            Possible(w, acts) && Guarded(w, acts) && !NoLoss(Final(w, acts))
  {
    var reopened := Apply(w, Open(last, false));
    StructKept(w, Open(last, false));
    var written := Apply(reopened, Append(0));
    StructKept(reopened, Append(0));
    LostBreaks(written, Entry(w.count, MaxOffset(w.segs[last]) + 1, 0));
    var acts := [Open(last, false), Append(0)];
    assert acts[1..] == [Append(0)] && [Append(0)][1..] == [];
    assert Final(w, acts) == Final(reopened, [Append(0)]) == written;
  }

  /**
    After a power loss the log stays safe in every continuation exactly when the checkpoint does not
    point past what an fsync covered of the last segment: otherwise the reopened log hands out offsets
    at or below the checkpoint again.
  */
  lemma {:induction false} PowerLossExact(w: Wal)
    requires Inv(w)
    ensures SafeFrom(Apply(w, PowerLoss)) <==> CheckpointSynced(w)
  {
    var w' := Apply(w, PowerLoss);
    if CheckpointSynced(w) {
      InvKept(w, PowerLoss);
      InvSafeFrom(w');
    } else {
      StructKept(w, PowerLoss);
      assert w'.segs.Keys == w.segs.Keys;
      ReopenHides(w', w.cp.value.segment);
    }
  }

  // ---------------------------------------------------------------- a loss is permanent

  lemma {:induction false} LostStep(w: Wal, a: Action, e: Entry)
    requires Struct(w) && LostFor(w, e) && Enabled(w, a)
    ensures LostFor(Apply(w, a), e)
  {
    hide MaxOffset, Fresh, Pending, Part, Spared, Unflushed, Names, PassShape;
    var w' := Apply(w, a);
    match a {
      case Save => LostSave(w, e);
      case Deliver => LostDeliver(w, a, e);
      case Refuse(_) => LostDeliver(w, a, e);
      case Replay(s, tail) => LostReplay(w, a, e);
      case ReplayFail(_) => UnflushedMember(w, e);
      case PowerLoss => assert forall id :: id in w'.segs && e in w'.segs[id] ==> e in w.segs[id];
      case _ =>
    }
  }

  lemma {:induction false} LostSave(w: Wal, e: Entry)
    requires Struct(w) && LostFor(w, e) && Enabled(w, Save)
    ensures LostFor(Apply(w, Save), e)
  {
    MaxOffsetBound(w.pass.batch);
  }

  lemma {:induction false} LostDeliver(w: Wal, a: Action, e: Entry)
    requires Struct(w) && LostFor(w, e) && (a.Deliver? || a.Refuse?) && Enabled(w, a)
    ensures LostFor(Apply(w, a), e)
  {}

  lemma {:induction false} LostReplay(w: Wal, a: Action, e: Entry)
    requires Struct(w) && LostFor(w, e) && a.Replay? && Enabled(w, a)
    ensures LostFor(Apply(w, a), e)
  {
    hide MaxOffset, Fresh, Pending, Names, PassShape, Unflushed, Spared, Unsynced, Survivors;
    UnflushedMember(w, e);
    var kept := Part(w.segs, w.cp, a.segment);
    var tail := kept[|kept| - a.tail..];
    FreshMember(w.cp, a.segment, w.segs[a.segment]);
    MaxOffsetBound(tail);
    assert tail[0] in tail && tail[0] in kept;
    assert !Behind(w.cp, a.segment, tail[0]);
  }

  /** No run of any length, crashes and replays included, delivers a lost record. */
  lemma {:induction false} LossIsForever(w: Wal, acts: seq<Action>, e: Entry)
    requires Struct(w) && LostFor(w, e) && Possible(w, acts)
    ensures e !in Final(w, acts).delivered && LostFor(Final(w, acts), e)
    decreases |acts|
  {
    if acts != [] {
      StructKept(w, acts[0]);
      LostStep(w, acts[0], e);
      LossIsForever(Apply(w, acts[0]), acts[1..], e);
    }
  }

  // ---------------------------------------------------------------- runs that reach the two losses

  lemma {:induction false} Chain(w: Wal, acts: seq<Action>, more: seq<Action>)
    requires Possible(w, acts) && Possible(Final(w, acts), more)
    ensures Possible(w, acts + more) && Final(w, acts + more) == Final(Final(w, acts), more)
    decreases |acts|
  {
    if acts == [] {
      assert [] + more == more;
    } else {
      assert (acts + more)[1..] == acts[1..] + more;
      Chain(Apply(w, acts[0]), acts[1..], more);
    }
  }

  lemma {:induction false} One(w: Wal, a: Action)
    requires Enabled(w, a)
    ensures Possible(w, [a]) && Final(w, [a]) == Apply(w, a)
    ensures Guard(w, a) ==> Guarded(w, [a])
  {
    assert [a][1..] == [];
  }

  lemma {:induction false} Step(w: Wal, a: Action, w': Wal, more: seq<Action>)
    requires Enabled(w, a) && Apply(w, a) == w' && Possible(w', more)
    ensures Possible(w, [a] + more) && Final(w, [a] + more) == Final(w', more)
    ensures Guard(w, a) && Guarded(w', more) ==> Guarded(w, [a] + more)
  {
    assert ([a] + more)[1..] == more;
  }

  /** A pass over a log whose only segment is 0, complete up to the saved checkpoint. */
  const PASS := [Load] + ([See(0)] + ([Read] + ([Deliver] + [Save])))

  lemma {:induction false} PassStarts(w: Wal, es: seq<Entry>, w1: Wal, w2: Wal)
    requires w.up && !w.rotating && w.pass.Idle? && w.cp.None? && w.segs == map[0 := es] && w.active == 0
    requires w1 == w.(pass := Listed(None, {0})) && w2 == w.(pass := Scanning(None, {0}, 0, 0))
    ensures Enabled(w, Load) && Apply(w, Load) == w1
    ensures Enabled(w1, See(0)) && Apply(w1, See(0)) == w2
  {
    assert w.segs.Keys == {0};
  }

  lemma {:induction false} PassEnds(w: Wal, es: seq<Entry>, w2: Wal, w3: Wal, w4: Wal)
    requires w.up && w.cp.None? && w.segs == map[0 := es] && es != []
    requires w2 == w.(pass := Scanning(None, {0}, 0, 0)) && w3 == w.(pass := Holding(None, {0}, 0, 0, es))
    requires w4 == w.(delivered := w.delivered + es, pass := Sent(None, {0}, 0, 0, es))
    ensures Enabled(w2, Read) && Apply(w2, Read) == w3
    ensures Enabled(w3, Deliver) && Apply(w3, Deliver) == w4
    ensures Enabled(w4, Save)
    ensures Apply(w4, Save) == w4.(cp := Some(Checkpoint(0, MaxOffset(es))), pass := Done(None, {0}, 0, 0))
  {
    FreshAll(None, 0, es);
  }

  lemma {:induction false} FlushesOnlySegment(w: Wal, es: seq<Entry>)
    requires w.up && !w.rotating && w.pass.Idle? && w.cp.None? && w.segs == map[0 := es] && w.active == 0 && es != []
    ensures Possible(w, PASS)
    ensures Final(w, PASS) == w.(delivered := w.delivered + es, cp := Some(Checkpoint(0, MaxOffset(es))),
                                 pass := Done(None, {0}, 0, 0))
  {
    hide Enabled, Apply, Possible, Final, MaxOffset;
    var w1 := w.(pass := Listed(None, {0}));
    var w2 := w.(pass := Scanning(None, {0}, 0, 0));
    var w3 := w.(pass := Holding(None, {0}, 0, 0, es));
    var w4 := w.(delivered := w.delivered + es, pass := Sent(None, {0}, 0, 0, es));
    PassStarts(w, es, w1, w2);
    PassEnds(w, es, w2, w3, w4);
    One(w4, Save);
    Step(w3, Deliver, w4, [Save]);
    Step(w2, Read, w3, [Deliver] + [Save]);
    Step(w1, See(0), w2, [Read] + ([Deliver] + [Save]));
    Step(w, Load, w1, [See(0)] + ([Read] + ([Deliver] + [Save])));
  }

  const FIRST := Entry(0, 1, 0)
  const LATE := Entry(1, 0, 0)

  /** Two appenders have reserved offsets 0 and 1, and the one with offset 1 wrote first. */
  const OVERTAKEN: Wal :=
    Wal(true, map[0 := [FIRST]], map[0 := 0], 0, false, 2, {0}, None, [], [FIRST], 1, Idle, None)

  const OVERTAKE := [Create] + ([Reserve] + ([Reserve] + [Write(1, 0)]))

  lemma {:induction false} OvertakenReachable()
    ensures Possible(EMPTY, OVERTAKE) && Final(EMPTY, OVERTAKE) == OVERTAKEN
  {
    var w1 := EMPTY.(up := true, segs := map[0 := []], synced := map[0 := 0]);
    var w2 := w1.(reserved := {0}, next := 1);
    var w3 := w1.(reserved := {0, 1}, next := 2);
    assert [] + [FIRST] == [FIRST];
    assert {0, 1} - {1} == {0};
    assert map[0 := []][0 := [FIRST]] == map[0 := [FIRST]];
    hide Possible, Final;
    One(w3, Write(1, 0));
    Step(w2, Reserve, w3, [Write(1, 0)]);
    Step(w1, Reserve, w2, [Reserve] + [Write(1, 0)]);
    Step(EMPTY, Create, w1, [Reserve] + ([Reserve] + [Write(1, 0)]));
  }

  /** The flusher runs before the overtaken append writes: a reachable loss, with no crash in the run. */
  lemma {:induction false} LateWriteReachable()
    ensures var acts := OVERTAKE + (PASS + [Write(0, 0)]);
            Possible(EMPTY, acts) && !NoLoss(Final(EMPTY, acts))
  {
    OvertakenReachable();
    FlushesOnlySegment(OVERTAKEN, [FIRST]);
    MaxOffsetBound([FIRST]);
    assert FIRST in [FIRST];
    var w := Final(OVERTAKEN, PASS);
    One(w, Write(0, 0));
    Chain(OVERTAKEN, PASS, [Write(0, 0)]);
    Chain(EMPTY, OVERTAKE, PASS + [Write(0, 0)]);
    var w' := Apply(w, Write(0, 0));
    assert w'.owed == [FIRST] + [LATE] && LATE in w'.owed;
    PendingMember(w'.segs, w'.cp, w'.active + 2, LATE);
  }

  const UNSYNCED: Wal :=
    Wal(true, map[0 := [Entry(0, 0, 0), Entry(1, 1, 0)]], map[0 := 0], 0, false, 2, {}, None, [],
        [Entry(0, 0, 0), Entry(1, 1, 0)], 2, Idle, None)

  const TWO_APPENDS := [Create] + ([Append(0)] + [Append(0)])

  lemma {:induction false} UnsyncedReachable()
    ensures Possible(EMPTY, TWO_APPENDS) && Final(EMPTY, TWO_APPENDS) == UNSYNCED
  {
    var x, y := Entry(0, 0, 0), Entry(1, 1, 0);
    var w1 := EMPTY.(up := true, segs := map[0 := []], synced := map[0 := 0]);
    var w2 := w1.(segs := map[0 := [x]], owed := [x], next := 1, count := 1);
    assert [] + [x] == [x] && [x] + [y] == [x, y];
    assert map[0 := []][0 := [x]] == map[0 := [x]];
    assert map[0 := [x]][0 := [x, y]] == map[0 := [x, y]];
    hide Possible, Final;
    One(w2, Append(0));
    Step(w1, Append(0), w2, [Append(0)]);
    Step(EMPTY, Create, w1, [Append(0)] + [Append(0)]);
  }

  /** The state of the log once both records are flushed and none of them is synced. */
  function FlushedEarly(): Wal {
    UNSYNCED.(delivered := UNSYNCED.segs[0], cp := Some(Checkpoint(0, 1)), pass := Done(None, {0}, 0, 0))
  }

  lemma {:induction false} AtomicParts()
    ensures Atomic(TWO_APPENDS) && Atomic(PASS)
  {}

  lemma {:induction false} EmptyInv()
    ensures Inv(EMPTY)
  {}

  lemma {:induction false} FlushedEarlyReachable()
    ensures Possible(EMPTY, TWO_APPENDS + PASS) && Final(EMPTY, TWO_APPENDS + PASS) == FlushedEarly()
    ensures Inv(FlushedEarly())
  {
    UnsyncedReachable();
    var es := UNSYNCED.segs[0];
    assert [] + es == es;
    MaxOffsetBound(es);
    assert es[1] in es;
    FlushesOnlySegment(UNSYNCED, es);
    Chain(EMPTY, TWO_APPENDS, PASS);
    hide Possible, Final, Inv, Guarded, Atomic;
    EmptyInv();
    AtomicParts();
    AtomicGuarded(EMPTY, TWO_APPENDS);
    InvOnRuns(EMPTY, TWO_APPENDS);
    AtomicGuarded(UNSYNCED, PASS);
    InvOnRuns(UNSYNCED, PASS);
  }

  /** Two records are flushed before any fsync covered them, then the power goes: the next append is lost. */
  lemma {:induction false} EarlyFlushReachable()
    ensures var acts := TWO_APPENDS + PASS + [PowerLoss];
            Possible(EMPTY, acts) && !SafeFrom(Final(EMPTY, acts))
  {
    FlushedEarlyReachable();
    var w := FlushedEarly();
    NotSynced();
    hide Possible, Final, SafeFrom, Inv, CheckpointSynced, FlushedEarly;
    One(w, PowerLoss);
    Chain(EMPTY, TWO_APPENDS + PASS, [PowerLoss]);
    PowerLossExact(w);
  }

  lemma {:induction false} NotSynced()
    ensures Enabled(FlushedEarly(), PowerLoss) && !CheckpointSynced(FlushedEarly())
  {
    var w := FlushedEarly();
    assert LastSegment(w, 0) && Survivors(w)[0] == [];
  }
}
