/**
  What stays ahead of the checkpoint.  A record is ahead if some later pass or replay will read it, the save
  that is about to happen included.  Every action keeps the records ahead, except those it hands to the sink;
  the end of the process takes the checkpoint back to what is stored.  What was delivered before plays no
  part in any of this, so a record the checkpoint has passed is handed over no more.  WalSink uses these
  facts for rows in memory and in files.
*/
module WalAhead {
  import opened Prelude
  import opened WalModel
  import opened WalPending
  import opened WalSafety
  import opened WalExact

  /** What an effect of the log hands to the sink. */
  function Handed(w: Wal, a: Action): seq<Entry>
    requires Enabled(w, a)
  {
    match a
    case Deliver => w.pass.batch
    case Refuse(n) => w.pass.batch[..n]
    case Replay(_, _) => Unflushed(w)
    case ReplayFail(n) => Unflushed(w)[..n]
    case _ => []
  }

  /** The process ends, and its memory with it. */
  predicate Ends(a: Action) {
    a.Crash? || a.PowerLoss? || a.ReplayFail?
  }

  /** The checkpoint as it stands, or as the pass is about to save it. */
  function NextCheckpoint(w: Wal): Option<Checkpoint> {
    if w.pass.Sent? then AfterSave(w.pass) else w.cp
  }

  predicate Ahead(w: Wal, e: Entry) {
    exists id :: id in w.segs && e in w.segs[id] && !Behind(NextCheckpoint(w), id, e)
  }

  lemma {:induction false} SavingOnlyAdvances(w: Wal, id: nat, e: Entry)
    requires Struct(w) && w.pass.Sent? && Behind(w.cp, id, e)
    ensures Behind(AfterSave(w.pass), id, e)
  {
    hide MaxOffset, Files, Offsets, Names, Marks;
    MaxOffsetBound(w.pass.batch);
    assert w.pass.batch[0] in w.pass.batch;
  }

  lemma {:induction false} AheadUnflushed(w: Wal, e: Entry)
    requires Struct(w)
    ensures Ahead(w, e) ==> e in Unflushed(w)
    ensures !w.pass.Sent? && e in Unflushed(w) ==> Ahead(w, e)
  {
    UnflushedMember(w, e);
    hide MaxOffset, Unflushed;
    if Ahead(w, e) && w.pass.Sent? {
      var id :| id in w.segs && e in w.segs[id] && !Behind(NextCheckpoint(w), id, e);
      if Behind(w.cp, id, e) { SavingOnlyAdvances(w, id, e); }
    }
  }

  /** A record written now will be read by a later pass. */
  lemma {:induction false} AheadNew(w: Wal, a: Action)
    requires Inv(w) && Enabled(w, a) && Guard(w, a) && (a.Append? || a.Write?)
    ensures Ahead(Apply(w, a), NewEntry(w, a)) && Apply(w, a).owed == w.owed + [NewEntry(w, a)]
  {
    PutAhead(w, a);
    hide MaxOffset, Settled, Kept, PassQueue, Names;
    var w', e := Apply(w, a), NewEntry(w, a);
    assert e in w'.segs[w.active] && !Behind(NextCheckpoint(w'), w.active, e);
  }

  lemma {:induction false} NewlyOwed(w: Wal, a: Action, e: Entry)
    requires Inv(w) && Enabled(w, a) && Guard(w, a) && e in Apply(w, a).owed && e !in w.owed
    ensures Ahead(Apply(w, a), e)
  {
    hide MaxOffset, Inv, Unflushed, Pending, Part, Ahead, Guard;
    if a.Append? || a.Write? {
      AheadNew(w, a);
    } else if a.PowerLoss? {
      SparedMember(w, w.owed);
    }
  }

  lemma {:induction false} AheadPut(w: Wal, a: Action, e: Entry)
    requires Enabled(w, a) && (a.Append? || a.Write?) && Ahead(w, e)
    ensures Ahead(Apply(w, a), e)
  {
    hide MaxOffset;
    var id :| id in w.segs && e in w.segs[id] && !Behind(NextCheckpoint(w), id, e);
    assert e in Apply(w, a).segs[id];
  }

  lemma {:induction false} AheadFiles(w: Wal, w': Wal, e: Entry)
    requires Ahead(w, e) && NextCheckpoint(w') == NextCheckpoint(w)
    requires forall id :: id in w.segs && w.segs[id] != [] ==> id in w'.segs && w'.segs[id] == w.segs[id]
    ensures Ahead(w', e)
  {
    hide Behind, NextCheckpoint;
    var id :| id in w.segs && e in w.segs[id] && !Behind(NextCheckpoint(w), id, e);
    assert w'.segs[id] == w.segs[id];
  }

  lemma {:induction false} AheadStarts(w: Wal, a: Action, e: Entry)
    requires Struct(w) && Enabled(w, a) && Ahead(w, e)
    requires a.Create? || a.Open? || a.RotateCreate? || a.RotateSwap? || a.RotateFail?
    ensures Ahead(Apply(w, a), e)
  {
    hide MaxOffset, Offsets, Marks, Names, PassShape;
    AheadFiles(w, Apply(w, a), e);
  }

  lemma {:induction false} AheadQuiet(w: Wal, a: Action, e: Entry)
    requires Enabled(w, a) && Ahead(w, e)
    requires a.Reserve? || a.Fsync? || a.Load? || a.See? || a.Read? || a.Next? || a.JanitorLoad? || a.JanitorDone?
             || a.Save? || a.Refuse?
    ensures Ahead(Apply(w, a), e)
  {
    hide MaxOffset, Fresh, Pending, Unflushed;
    AheadFiles(w, Apply(w, a), e);
  }

  lemma {:induction false} AheadRemove(w: Wal, id: nat, e: Entry)
    requires Struct(w) && Enabled(w, JanitorRemove(id)) && Ahead(w, e)
    ensures Ahead(Apply(w, JanitorRemove(id)), e)
  {
    hide MaxOffset, Files, Offsets, Names;
    var w' := Apply(w, JanitorRemove(id));
    var x :| x in w.segs && e in w.segs[x] && !Behind(NextCheckpoint(w), x, e);
    assert x != id;
    assert x in w'.segs && w'.segs[x] == w.segs[x];
  }

  /** What the sink has answered for is no longer ahead; everything else still is. */
  lemma {:induction false} AheadDeliver(w: Wal, e: Entry)
    requires Inv(w) && Enabled(w, Deliver) && Ahead(w, e) && e !in w.pass.batch
    ensures Ahead(Apply(w, Deliver), e)
  {
    hide MaxOffset, Fresh, Pending, Settled, Kept, Above, Names;
    var p, w' := w.pass, Apply(w, Deliver);
    var id :| id in w.segs && e in w.segs[id] && !Behind(w.cp, id, e);
    if Behind(AfterSave(p), id, e) {
      if id < p.at {
        PendingMember(w.segs, w.cp, p.at, e);
      } else {
        FreshMember(w.cp, p.at, w.segs[p.at]);
        FreshMember(AfterSave(p), p.at, w.segs[p.at]);
      }
      assert false;
    }
    assert id in w'.segs && e in w'.segs[id];
  }

  /** A pass that ends before its save, the process going on or not, leaves the checkpoint where it was. */
  lemma {:induction false} AheadHalt(w: Wal, a: Action, e: Entry)
    requires Struct(w) && Enabled(w, a) && (a.Stop? || a.Crash? || a.ReplayFail?) && e in Unflushed(w)
    ensures Ahead(Apply(w, a), e)
  {
    UnflushedMember(w, e);
    hide MaxOffset, Unflushed, Pending, Struct;
  }

  lemma {:induction false} AheadPowerLoss(w: Wal, e: Entry)
    requires Struct(w) && e in Apply(w, PowerLoss).owed && e in Unflushed(w)
    ensures Ahead(Apply(w, PowerLoss), e)
  {
    UnflushedMember(w, e);
    SparedMember(w, w.owed);
    hide MaxOffset, Unflushed, Pending, Offsets, Marks, Names, PassShape, Spared;
    var w' := Apply(w, PowerLoss);
    var id :| id in w.segs && e in w.segs[id] && !Behind(w.cp, id, e);
    var es, k := w.segs[id], Min(w.synced[id], |w.segs[id]|);
    assert es == es[..k] + es[k..];
    assert e in w'.segs[id];
  }

  lemma {:induction false} AheadEnds(w: Wal, a: Action, e: Entry)
    requires Struct(w) && Enabled(w, a) && Ends(a) && e in Apply(w, a).owed && e in Unflushed(w)
    ensures Ahead(Apply(w, a), e)
  {
    hide Ahead, Struct, Apply, Unflushed;
    if a.PowerLoss? { AheadPowerLoss(w, e); } else { AheadHalt(w, a, e); }
  }

  /** The records ahead stay ahead, except those handed to the sink. */
  lemma {:induction false} AheadKept(w: Wal, a: Action, e: Entry)
    requires Inv(w) && Enabled(w, a) && Ahead(w, e) && !Ends(a)
    ensures Ahead(Apply(w, a), e) || e in Handed(w, a)
  {
    hide Inv, Ahead, Apply, Enabled, Unflushed;
    InvShape(w);
    match a {
      case Create => AheadStarts(w, a, e);
      case Open(_, _) => AheadStarts(w, a, e);
      case RotateCreate => AheadStarts(w, a, e);
      case RotateSwap => AheadStarts(w, a, e);
      case RotateFail => AheadStarts(w, a, e);
      case Append(_) => AheadPut(w, a, e);
      case Write(_, _) => AheadPut(w, a, e);
      case Reserve => AheadQuiet(w, a, e);
      case Fsync(_, _) => AheadQuiet(w, a, e);
      case Load => AheadQuiet(w, a, e);
      case See(_) => AheadQuiet(w, a, e);
      case Read => AheadQuiet(w, a, e);
      case Next(_) => AheadQuiet(w, a, e);
      case JanitorLoad => AheadQuiet(w, a, e);
      case JanitorDone => AheadQuiet(w, a, e);
      case Save => AheadQuiet(w, a, e);
      case Refuse(_) => AheadQuiet(w, a, e);
      case JanitorRemove(id) => AheadRemove(w, id, e);
      case Deliver => if e !in Handed(w, a) { AheadDeliver(w, e); }
      case Stop => AheadUnflushed(w, e); AheadHalt(w, a, e);
      case Replay(_, _) => AheadUnflushed(w, e);
      case _ =>
    }
  }

  lemma {:induction false} InvShape(w: Wal)
    requires Inv(w)
    ensures Struct(w)
  {}

  lemma {:induction false} SavedNotAhead(w: Wal, e: Entry)
    requires Struct(w) && w.pass.Sent? && e in Unflushed(Apply(w, Save))
    ensures Ahead(w, e)
  {
    StructKept(w, Save);
    UnflushedMember(Apply(w, Save), e);
    hide MaxOffset, Unflushed, Struct;
  }

  // ---------------------------------------------------------------- the end of the process

  lemma {:induction false} EndsDown(w: Wal, a: Action)
    requires Enabled(w, a) && Ends(a)
    ensures !Apply(w, a).up
  {
    hide Unflushed, Spared, Survivors;
  }

  lemma {:induction false} OwedShrinks(w: Wal, a: Action)
    requires Struct(w) && Enabled(w, a) && Ends(a)
    ensures forall e :: e in Apply(w, a).owed ==> e in w.owed
  {
    SparedMember(w, w.owed);
    hide Unflushed, Spared, Struct;
  }

  lemma {:induction false} HaltKeepsQueue(w: Wal, a: Action)
    requires Enabled(w, a) && (a.Crash? || a.ReplayFail?)
    ensures Unflushed(Apply(w, a)) == Unflushed(w)
  {
    hide Pending;
  }

  lemma {:induction false} PowerLossKeepsQueue(w: Wal, e: Entry)
    requires Struct(w) && e in Unflushed(Apply(w, PowerLoss))
    ensures e in Unflushed(w)
  {
    StructKept(w, PowerLoss);
    UnflushedMember(w, e);
    UnflushedMember(Apply(w, PowerLoss), e);
    hide MaxOffset, Unflushed, Pending, Struct, Spared, Fresh, Part, Unsynced, Behind;
    var w' := Apply(w, PowerLoss);
    var id :| id in w'.segs && e in w'.segs[id] && !Behind(w'.cp, id, e);
    assert w'.segs[id] <= w.segs[id];
  }

  lemma {:induction false} EndsKeepQueue(w: Wal, a: Action, e: Entry)
    requires Struct(w) && Enabled(w, a) && Ends(a) && e in Unflushed(Apply(w, a))
    ensures e in Unflushed(w)
  {
    hide Struct, Unflushed, Apply, Enabled;
    if a.PowerLoss? { PowerLossKeepsQueue(w, e); } else { HaltKeepsQueue(w, a); }
  }

  // ---------------------------------------------------------------- forgetting what was delivered

  lemma {:induction false} HandedIsDelivered(w: Wal, a: Action)
    requires Enabled(w, a)
    ensures Apply(w, a).delivered == w.delivered + Handed(w, a)
  {
    hide Unflushed, Spared, Survivors, MaxOffset, Fresh;
  }

  lemma {:induction false} ForgettingHands(w: Wal, a: Action)
    requires Enabled(w, a)
    ensures Enabled(w.(delivered := []), a) && Handed(w.(delivered := []), a) == Handed(w, a)
  {
    hide MaxOffset, Fresh, Pending, Spared, Unsynced;
  }

  lemma {:induction false} ForgettingShape(w: Wal)
    requires Struct(w)
    ensures Struct(w.(delivered := []))
  {
    hide MaxOffset, Fresh, Pending, Part;
  }

  /** What was delivered before plays no part in what an effect does to files and checkpoint. */
  predicate SameLog(w: Wal, w': Wal) {
    w.segs == w'.segs && w.cp == w'.cp && w.count == w'.count
  }

  lemma {:induction false} ForgettingPass(w: Wal, a: Action)
    requires Enabled(w, a) && Enabled(w.(delivered := []), a)
    requires a.Load? || a.See? || a.Read? || a.Deliver? || a.Save? || a.Next? || a.Stop? || a.Refuse? || a.Reserve?
             || a.Fsync? || a.JanitorLoad? || a.JanitorDone? || a.RotateSwap? || a.RotateFail? || a.Crash?
    ensures SameLog(Apply(w.(delivered := []), a), Apply(w, a))
  {
    hide MaxOffset, Fresh, Pending, Part, Unflushed, Spared, Unsynced, Survivors, Enabled;
  }

  lemma {:induction false} ForgettingRest(w: Wal, a: Action)
    requires Enabled(w, a) && Enabled(w.(delivered := []), a)
    requires a.Create? || a.Open? || a.Append? || a.Write? || a.RotateCreate? || a.JanitorRemove? || a.Replay?
             || a.ReplayFail?
    ensures SameLog(Apply(w.(delivered := []), a), Apply(w, a))
  {
    hide MaxOffset, Fresh, Pending, Part, Unflushed, Spared, Unsynced, Survivors;
  }

  lemma {:induction false} ForgettingPower(w: Wal)
    requires w.synced.Keys == w.segs.Keys
    ensures SameLog(Apply(w.(delivered := []), PowerLoss), Apply(w, PowerLoss))
  {
    assert Survivors(w.(delivered := [])) == Survivors(w);
  }

  lemma {:induction false} ForgettingKeeps(w: Wal, a: Action)
    requires Enabled(w, a) && Enabled(w.(delivered := []), a)
    ensures SameLog(Apply(w.(delivered := []), a), Apply(w, a))
  {
    hide Apply, SameLog;
    if a.PowerLoss? {
      ForgettingPower(w);
    } else if a.Create? || a.Open? || a.Append? || a.Write? || a.RotateCreate? || a.JanitorRemove? || a.Replay?
      || a.ReplayFail? {
      ForgettingRest(w, a);
    } else {
      ForgettingPass(w, a);
    }
  }

  lemma {:induction false} PassedIsLost(w: Wal, e: Entry)
    requires Struct(w) && e in w.owed && e !in Unflushed(w)
    ensures LostFor(w.(delivered := []), e)
  {
    UnflushedMember(w, e);
  }
}
