/**
  No loss over whole runs.  `Inv` is kept by every action that meets its guard; the guards name the
  two places where the source can lose an acknowledged record, and WalExact shows they are exact.
*/
module WalSafety {
  import opened Prelude
  import opened WalModel
  import opened WalPending

  // ---------------------------------------------------------------- shape of a reachable state

  ghost predicate Files(w: Wal) {
    && w.synced.Keys == w.segs.Keys
    && (forall id :: id in w.segs ==> id <= w.active + 1 && w.synced[id] <= |w.segs[id]|)
    && (w.active + 1 in w.segs ==> w.segs[w.active + 1] == [])
    && (w.segs != map[] ==> w.active in w.segs)
    && (w.up ==> w.segs != map[])
    && (w.rotating ==> w.up && w.active + 1 in w.segs)
    && (!w.up ==> w.reserved == {} && w.pass.Idle? && w.janitor.None?)
  }

  ghost predicate Offsets(w: Wal) {
    w.up ==>
      && w.active in w.segs
      && (forall e :: e in w.segs[w.active] ==> e.offset < w.next)
      && forall o :: o in w.reserved ==> o < w.next
  }

  ghost predicate Marks(w: Wal) {
    && (w.cp.Some? ==> w.cp.value.segment in w.segs && w.cp.value.segment <= w.active)
    && (w.janitor.Some? ==>
        && w.cp.Some?
        && w.janitor.value.segment <= w.cp.value.segment && w.janitor.value.active <= w.active)
  }

  ghost predicate Known(es: seq<Entry>, count: nat) {
    forall e :: e in es ==> e.id < count
  }

  ghost predicate Names(w: Wal) {
    && (forall id :: id in w.segs ==> Known(w.segs[id], w.count))
    && Known(w.delivered, w.count) && Known(w.owed, w.count)
  }

  /** A listing stays complete below each of its members, except for files the janitor removed. */
  ghost predicate Listing(w: Wal, listed: set<nat>) {
    && (forall x :: x in listed ==> x in w.segs || (w.cp.Some? && x < w.cp.value.segment))
    && (forall id, x :: id in w.segs && x in listed && id < x ==> id in listed)
  }

  ghost predicate PassShape(w: Wal) {
    var p := w.pass;
    && (p.Listed? ==>
        p.floor == w.cp && Listing(w, p.listed)
        && (w.active in p.listed || forall x :: x in p.listed ==> x <= w.active))
    && (Positioned(p) ==>
        && Listing(w, p.listed)
        && p.at in p.listed && p.at in w.segs && p.at <= p.seen <= w.active
        && (p.seen in p.listed || forall x :: x in p.listed ==> x <= p.seen)
        && Start(p.floor) <= p.at && Start(w.cp) <= p.at)
    && (p.Scanning? || p.Holding? || p.Sent? ==>
        w.cp == p.floor || (w.cp.Some? && w.cp.value.segment < p.at
          && (p.floor.Some? ==> p.floor.value.segment < p.at)))
    && (p.Holding? || p.Sent? ==>
        forall e :: e in p.batch ==> e in w.segs[p.at] && !Behind(w.cp, p.at, e))
    && (p.Sent? ==> p.batch != [])
    && (p.Done? ==> w.cp.Some?)
  }

  ghost predicate Struct(w: Wal) {
    Files(w) && Offsets(w) && Marks(w) && Names(w) && PassShape(w)
  }

  // ---------------------------------------------------------------- the queue

  /** Whatever a pass would skip has been delivered. */
  ghost predicate Settled(w: Wal) {
    forall id, e :: id in w.segs && e in w.segs[id] && Behind(w.cp, id, e) ==> e in w.delivered
  }

  /** Whatever is owed has been delivered or is still in a live file. */
  ghost predicate Kept(w: Wal) {
    forall e :: e in w.owed ==> e in w.delivered || InFile(w, e)
  }

  predicate InFile(w: Wal, e: Entry) {
    exists id :: id in w.segs && e in w.segs[id]
  }

  function AfterSave(p: Pass): Option<Checkpoint>
    requires p.Holding? || p.Sent?
  {
    Some(Checkpoint(p.at, MaxOffset(p.batch)))
  }

  /** What the pass has read agrees with the queue, from its position on. */
  ghost predicate PassQueue(w: Wal) {
    var p := w.pass;
    && (Positioned(p) ==> Pending(w.segs, w.cp, p.at) == [])
    && (p.Holding? || p.Sent? ==>
        && (p.batch != [] ==> Part(w.segs, w.cp, p.at) == p.batch + Part(w.segs, AfterSave(p), p.at))
        && (p.at != p.seen ==> Part(w.segs, w.cp, p.at) == p.batch))
    && (p.Sent? ==> forall e :: e in p.batch ==> e in w.delivered)
    && (p.Done? && p.at != p.seen ==> Part(w.segs, w.cp, p.at) == [])
  }

  /** New offsets of the checkpoint's own segment will be above the checkpoint. */
  ghost predicate Above(w: Wal) {
    w.cp.Some? && w.cp.value.segment == w.active && w.active in w.segs ==>
      && (w.up ==> w.cp.value.offset < w.next)
      && (w.active + 1 !in w.segs ==> w.cp.value.offset <= MaxOffset(w.segs[w.active]))
  }

  ghost predicate Inv(w: Wal) {
    Struct(w) && Settled(w) && Kept(w) && PassQueue(w) && Above(w)
  }

  // ---------------------------------------------------------------- guards

  /** The offset is above everything of the active segment that the flusher has recorded or holds. */
  predicate SafeWrite(w: Wal, o: nat) {
    && (w.cp.Some? && w.cp.value.segment == w.active ==> w.cp.value.offset < o)
    && ((w.pass.Holding? || w.pass.Sent?) && w.pass.at == w.active && w.pass.batch != [] ==>
        MaxOffset(w.pass.batch) < o)
  }

  /** The checkpoint does not run ahead of what an fsync covered in the last segment. */
  predicate CheckpointSynced(w: Wal)
    requires w.synced.Keys == w.segs.Keys
  {
    w.cp.Some? && LastSegment(w, w.cp.value.segment) ==>
      w.cp.value.offset <= MaxOffset(Survivors(w)[w.cp.value.segment])
  }

  predicate Guard(w: Wal, a: Action)
    requires Enabled(w, a)
  {
    match a
    case Write(o, _) => SafeWrite(w, o)
    case PowerLoss => CheckpointSynced(w)
    case _ => true
  }

  predicate Guarded(w: Wal, acts: seq<Action>)
    requires Possible(w, acts)
    decreases |acts|
  {
    acts == [] || (Guard(w, acts[0]) && Guarded(Apply(w, acts[0]), acts[1..]))
  }

  // ---------------------------------------------------------------- shape is kept by every action

  lemma {:induction false} StructAppend(w: Wal, size: nat)
    requires Struct(w) && Enabled(w, Append(size))
    ensures Struct(Apply(w, Append(size)))
  {
    hide MaxOffset, Fresh, Pending, Part, Unflushed, Spared, Unsynced, Survivors;
  }

  lemma {:induction false} StructWrite(w: Wal, o: nat, size: nat)
    requires Struct(w) && Enabled(w, Write(o, size))
    ensures Struct(Apply(w, Write(o, size)))
  {
    hide MaxOffset, Fresh, Pending, Part, Unflushed, Spared, Unsynced, Survivors;
  }

  lemma {:induction false} StructCreate(w: Wal)
    requires Struct(w) && Enabled(w, Create)
    ensures Struct(Apply(w, Create))
  {}

  lemma {:induction false} StructOpen(w: Wal, last: nat, roll: bool)
    requires Struct(w) && Enabled(w, Open(last, roll))
    ensures Struct(Apply(w, Open(last, roll)))
  {
    MaxOffsetBound(w.segs[last]);
  }

  lemma {:induction false} StructRotate(w: Wal, a: Action)
    requires Struct(w) && Enabled(w, a) && (a.RotateCreate? || a.RotateSwap? || a.RotateFail?)
    ensures Struct(Apply(w, a))
  {
    hide MaxOffset, Fresh, Pending, Part, Unflushed, Spared, Unsynced, Survivors;
  }

  lemma {:induction false} StructQuiet(w: Wal, a: Action)
    requires Struct(w) && Enabled(w, a) && (a.Reserve? || a.Fsync?)
    ensures Struct(Apply(w, a))
  {}

  lemma {:induction false} StructPosition(w: Wal, a: Action)
    requires Struct(w) && Enabled(w, a) && (a.Load? || a.See? || a.Next? || a.Stop?)
    ensures Struct(Apply(w, a))
  {
    hide MaxOffset, Fresh, Pending, Part, Unflushed, Spared, Unsynced, Survivors;
  }

  lemma {:induction false} StructRead(w: Wal)
    requires Struct(w) && Enabled(w, Read)
    ensures Struct(Apply(w, Read))
  {
    hide MaxOffset, Fresh, Pending, Part, Unflushed, Spared, Unsynced, Survivors;
    FreshMember(w.pass.floor, w.pass.at, w.segs[w.pass.at]);
  }

  lemma {:induction false} StructSend(w: Wal, a: Action)
    requires Struct(w) && Enabled(w, a) && (a.Deliver? || a.Refuse?)
    ensures Struct(Apply(w, a))
  {
    hide MaxOffset, Fresh, Pending, Part, Unflushed, Spared, Unsynced, Survivors;
  }

  lemma {:induction false} StructSave(w: Wal)
    requires Struct(w) && Enabled(w, Save)
    ensures Struct(Apply(w, Save))
  {
    hide MaxOffset, Fresh, Pending, Part, Unflushed, Spared, Unsynced, Survivors;
  }

  lemma {:induction false} StructStops(w: Wal, a: Action)
    requires Struct(w) && Enabled(w, a)
    requires a.JanitorLoad? || a.JanitorDone? || a.Crash?
    ensures Struct(Apply(w, a))
  {
    hide MaxOffset, Fresh, Pending, Part, Unflushed, Spared, Unsynced, Survivors;
  }

  lemma {:induction false} StructRemove(w: Wal, a: Action)
    requires Struct(w) && Enabled(w, a) && a.JanitorRemove?
    ensures Struct(Apply(w, a))
  {
    var w' := Apply(w, a);
    assert forall id :: id in w'.segs ==> id in w.segs && w'.segs[id] == w.segs[id] && w'.synced[id] == w.synced[id];
    assert forall id :: id in w.segs && id != a.id ==> id in w'.segs;
  }

  lemma {:induction false} UnflushedMember(w: Wal, e: Entry)
    requires Files(w)
    ensures e in Unflushed(w) <==> exists id :: id in w.segs && e in w.segs[id] && !Behind(w.cp, id, e)
  {
    PendingMember(w.segs, w.cp, w.active + 2, e);
  }

  lemma {:induction false} StructReplay(w: Wal, a: Action)
    requires Struct(w) && Enabled(w, a) && (a.Replay? || a.ReplayFail?)
    ensures Struct(Apply(w, a))
  {
    forall e | e in Unflushed(w) ensures e.id < w.count { UnflushedMember(w, e); }
    if a.Replay? {
      var s := a.segment;
      if w.cp.Some? && s < w.cp.value.segment {
        FreshNone(w.cp, s, w.segs[s]);
      }
    }
  }

  lemma {:induction false} StructPowerLoss(w: Wal)
    requires Struct(w)
    ensures Struct(Apply(w, PowerLoss))
  {
    SparedMember(w, w.owed);
    var w' := Apply(w, PowerLoss);
    assert w'.segs.Keys == w.segs.Keys;
    forall id | id in w'.segs ensures Known(w'.segs[id], w'.count) {
      assert forall e :: e in w'.segs[id] ==> e in w.segs[id];
    }
  }

  lemma {:induction false} StructKept(w: Wal, a: Action)
    requires Struct(w) && Enabled(w, a)
    ensures Struct(Apply(w, a))
  {
    hide Struct, Apply;
    match a {
      case Create => StructCreate(w);
      case Open(last, roll) => StructOpen(w, last, roll);
      case Append(size) => StructAppend(w, size);
      case Write(o, size) => StructWrite(w, o, size);
      case Reserve => StructQuiet(w, a);
      case Fsync(_, _) => StructQuiet(w, a);
      case RotateCreate => StructRotate(w, a);
      case RotateSwap => StructRotate(w, a);
      case RotateFail => StructRotate(w, a);
      case Load => StructPosition(w, a);
      case See(_) => StructPosition(w, a);
      case Next(_) => StructPosition(w, a);
      case Stop => StructPosition(w, a);
      case Read => StructRead(w);
      case Deliver => StructSend(w, a);
      case Save => StructSave(w);
      case Refuse(_) => StructSend(w, a);
      case JanitorLoad => StructStops(w, a);
      case JanitorDone => StructStops(w, a);
      case JanitorRemove(_) => StructRemove(w, a);
      case Crash => StructStops(w, a);
      case Replay(_, _) => StructReplay(w, a);
      case ReplayFail(_) => StructReplay(w, a);
      case PowerLoss => StructPowerLoss(w);
    }
  }

  // ---------------------------------------------------------------- the queue is kept under the guard

  ghost predicate Queued(w: Wal) {
    Settled(w) && Kept(w) && PassQueue(w) && Above(w)
  }

  lemma {:induction false} FilesGrow(w: Wal, w': Wal)
    requires forall id :: id in w.segs ==> id in w'.segs && w.segs[id] <= w'.segs[id]
    ensures forall e :: InFile(w, e) ==> InFile(w', e)
  {}

  lemma {:induction false} QueueOpen(w: Wal, a: Action)
    requires Inv(w) && Enabled(w, a) && (a.Create? || a.Open?)
    ensures Queued(Apply(w, a))
  {
    FilesGrow(w, Apply(w, a));
  }

  lemma {:induction false} QueueQuiet(w: Wal, a: Action)
    requires Inv(w) && Enabled(w, a)
    requires a.Reserve? || a.Fsync? || a.Load? || a.Stop? || a.JanitorLoad? || a.JanitorDone? || a.Crash?
             || a.RotateFail?
    ensures Queued(Apply(w, a))
  {
    hide MaxOffset, Names, PassShape, Fresh, Pending, Part, Unflushed, Spared, Unsynced, Survivors;
  }

  lemma {:induction false} QueueRotate(w: Wal, a: Action)
    requires Inv(w) && Enabled(w, a) && (a.RotateCreate? || a.RotateSwap?)
    ensures Queued(Apply(w, a))
  {
    hide MaxOffset, Fresh, Pending, Names, Spared, Survivors, Unsynced, Unflushed;
    var w' := Apply(w, a);
    FilesGrow(w, w');
    if Positioned(w.pass) {
      PendingSame(w.segs, w'.segs, w.cp, w.cp, w.pass.at);
    }
  }

  function NewEntry(w: Wal, a: Action): Entry
    requires a.Append? || a.Write?
  {
    Entry(w.count, if a.Append? then w.next else a.offset, a.size)
  }

  /** An offset the flusher has not passed is ahead of the checkpoint, now and after the pending save. */
  lemma {:induction false} PutAhead(w: Wal, a: Action)
    requires Inv(w) && Enabled(w, a) && Guard(w, a) && (a.Append? || a.Write?)
    ensures !Behind(w.cp, w.active, NewEntry(w, a))
    ensures (w.pass.Holding? || w.pass.Sent?) && w.pass.at == w.active && w.pass.batch != [] ==>
      !Behind(AfterSave(w.pass), w.active, NewEntry(w, a))
  {
    if w.pass.Holding? || w.pass.Sent? { MaxOffsetBound(w.pass.batch); }
  }

  lemma {:induction false} PutPass(w: Wal, a: Action)
    requires Inv(w) && Enabled(w, a) && Guard(w, a) && (a.Append? || a.Write?)
    ensures PassQueue(Apply(w, a))
  {
    var w' := Apply(w, a);
    var p, e := w.pass, NewEntry(w, a);
    PutAhead(w, a);
    if Positioned(p) {
      PendingSame(w.segs, w'.segs, w.cp, w.cp, p.at);
      if p.at == w.active {
        FreshAppend(w.cp, p.at, w.segs[p.at], e);
        if p.Holding? || p.Sent? {
          FreshAppend(AfterSave(p), p.at, w.segs[p.at], e);
          Associate(p.batch, Part(w.segs, AfterSave(p), p.at), [e]);
        }
      }
    }
  }

  /** A write at an offset the flusher has not passed joins the queue at its end. */
  lemma {:induction false} QueuePut(w: Wal, a: Action)
    requires Inv(w) && Enabled(w, a) && Guard(w, a) && (a.Append? || a.Write?)
    ensures Queued(Apply(w, a))
  {
    var w' := Apply(w, a);
    PutAhead(w, a);
    PutPass(w, a);
    MaxOffsetBound(w.segs[w.active]);
    MaxOffsetBound(w'.segs[w.active]);
    FilesGrow(w, w');
    assert NewEntry(w, a) in w'.segs[w.active];
  }

  lemma {:induction false} ReadSplit(cp: Option<Checkpoint>, floor: Option<Checkpoint>, at: nat, es: seq<Entry>)
    requires cp == floor || ((cp.Some? ==> cp.value.segment < at) && (floor.Some? ==> floor.value.segment < at))
    requires Start(cp) <= at
    ensures var batch := Fresh(floor, at, es);
            && Fresh(cp, at, es) == batch
            && (batch != [] ==> Fresh(Some(Checkpoint(at, MaxOffset(batch))), at, es) == [])
  {
    var batch := Fresh(floor, at, es);
    FreshSame(cp, floor, at, es);
    FreshMember(floor, at, es);
    if batch != [] {
      MaxOffsetBound(batch);
      assert batch[0] in batch;
      FreshNone(Some(Checkpoint(at, MaxOffset(batch))), at, es);
    }
  }

  lemma {:induction false} QueueRead(w: Wal)
    requires Inv(w) && Enabled(w, Read)
    ensures Queued(Apply(w, Read))
  {
    hide MaxOffset, Fresh, Pending, Names, Spared, Survivors, Unsynced, Unflushed;
    ReadSplit(w.cp, w.pass.floor, w.pass.at, w.segs[w.pass.at]);
  }

  lemma {:induction false} QueueDeliver(w: Wal, a: Action)
    requires Inv(w) && Enabled(w, a) && (a.Deliver? || a.Refuse?)
    ensures Queued(Apply(w, a))
  {}

  lemma {:induction false} QueueSave(w: Wal)
    requires Inv(w) && Enabled(w, Save)
    ensures Queued(Apply(w, Save))
  {
    var w', p := Apply(w, Save), w.pass;
    MaxOffsetBound(p.batch);
    MaxOffsetBound(w.segs[p.at]);
    forall id, e | id in w.segs && e in w.segs[id] && Behind(w'.cp, id, e) && !Behind(w.cp, id, e)
      ensures e in w.delivered
    {
      if id < p.at {
        PendingMember(w.segs, w.cp, p.at, e);
      } else {
        FreshMember(w.cp, p.at, w.segs[p.at]);
        FreshMember(w'.cp, p.at, w.segs[p.at]);
      }
    }
    PendingBelow(w.segs, w'.cp, p.at);
    if p.at != p.seen {
      assert p.batch + Part(w.segs, w'.cp, p.at) == p.batch;
      assert |Part(w.segs, w'.cp, p.at)| == 0;
    }
  }

  /** Below the first listed segment there is nothing pending. */
  lemma {:induction false} QueueSee(w: Wal, first: nat)
    requires Inv(w) && Enabled(w, See(first))
    ensures Queued(Apply(w, See(first)))
  {
    hide MaxOffset, Fresh, Names, Spared, Survivors, Unsynced, Unflushed;
    if w.cp.Some? { PendingBelow(w.segs, w.cp, w.cp.value.segment); }
    PendingExtend(w.segs, w.cp, Start(w.cp), first);
  }

  /** Between two listed segments there is no live file, so nothing is stepped over. */
  lemma {:induction false} QueueNext(w: Wal, to: nat)
    requires Inv(w) && Enabled(w, Next(to))
    ensures Queued(Apply(w, Next(to)))
  {
    hide MaxOffset, Fresh, Names, Spared, Survivors, Unsynced, Unflushed;
    PendingExtend(w.segs, w.cp, w.pass.at, to);
  }

  lemma {:induction false} RemoveKept(w: Wal, id: nat)
    requires Inv(w) && Enabled(w, JanitorRemove(id))
    ensures Kept(Apply(w, JanitorRemove(id)))
  {
    var w' := Apply(w, JanitorRemove(id));
    forall e | e in w.owed && e !in w.delivered ensures InFile(w', e) {
      var x :| x in w.segs && e in w.segs[x];
      assert Behind(w.cp, id, e);
      assert x in w'.segs && e in w'.segs[x];
    }
  }

  lemma {:induction false} PartRemoved(segs: map<nat, seq<Entry>>, cp: Option<Checkpoint>, id: nat, x: nat)
    requires x != id
    ensures Part(segs - {id}, cp, x) == Part(segs, cp, x)
  {}

  /** The removed file lies below the pass, and held nothing pending. */
  lemma {:induction false} PassRemove(w: Wal, id: nat)
    requires Inv(w) && Enabled(w, JanitorRemove(id))
    ensures PassQueue(Apply(w, JanitorRemove(id)))
  {
    hide MaxOffset, Fresh, Pending, Names, Settled, Kept, Above, Unflushed, Spared, Survivors, Unsynced;
    if Positioned(w.pass) {
      FreshNone(w.cp, id, w.segs[id]);
      var segs' := Apply(w, JanitorRemove(id)).segs;
      forall x: nat | x < w.pass.at ensures Part(w.segs, w.cp, x) == Part(segs', w.cp, x) {
        if x != id { PartRemoved(w.segs, w.cp, id, x); }
      }
      PendingSame(w.segs, segs', w.cp, w.cp, w.pass.at);
    }
  }

  lemma {:induction false} QueueRemove(w: Wal, id: nat)
    requires Inv(w) && Enabled(w, JanitorRemove(id))
    ensures Queued(Apply(w, JanitorRemove(id)))
  {
    hide MaxOffset, Fresh, Pending, Part, Names, PassShape, PassQueue, Kept, Unflushed, Spared, Survivors, Unsynced;
    RemoveKept(w, id);
    PassRemove(w, id);
  }

  lemma {:induction false} QueueReplay(w: Wal, s: nat, tail: nat)
    requires Inv(w) && Enabled(w, Replay(s, tail))
    ensures Queued(Apply(w, Replay(s, tail)))
  {
    hide Pending, Unflushed, Names, PassShape, Spared, Survivors, Unsynced;
    var w' := Apply(w, Replay(s, tail));
    var kept := Part(w.segs, w.cp, s);
    FreshMember(w.cp, s, w.segs[s]);
    MaxOffsetBound(kept[|kept| - tail..]);
    MaxOffsetBound(w.segs[s]);
    forall id, e | id in w.segs && e in w.segs[id] ensures e in w'.delivered {
      UnflushedMember(w, e);
    }
  }

  lemma {:induction false} QueueReplayFail(w: Wal, n: nat)
    requires Inv(w) && Enabled(w, ReplayFail(n))
    ensures Queued(Apply(w, ReplayFail(n)))
  {
    hide MaxOffset, Fresh, Pending, Part, Unflushed, Names, PassShape, Spared, Survivors, Unsynced;
  }

  lemma {:induction false} QueuePowerLoss(w: Wal)
    requires Inv(w) && Guard(w, PowerLoss)
    ensures Queued(Apply(w, PowerLoss))
  {
    var w' := Apply(w, PowerLoss);
    SparedMember(w, w.owed);
    forall id, e | id in w'.segs && e in w'.segs[id] ensures e in w.segs[id] {}
    forall e | e in w'.owed ensures e in w'.delivered || InFile(w', e) {
      if e !in w.delivered {
        var id :| id in w.segs && e in w.segs[id];
        var es, k := w.segs[id], Min(w.synced[id], |w.segs[id]|);
        assert es == es[..k] + es[k..];
        assert e in w'.segs[id];
      }
    }
  }

  lemma {:induction false} InvKept(w: Wal, a: Action)
    requires Inv(w) && Enabled(w, a) && Guard(w, a)
    ensures Inv(Apply(w, a))
  {
    hide Struct, Settled, Kept, PassQueue, Above, Apply, Enabled, Guard;
    StructKept(w, a);
    match a {
      case Create => QueueOpen(w, a);
      case Open(_, _) => QueueOpen(w, a);
      case Append(_) => QueuePut(w, a);
      case Write(_, _) => QueuePut(w, a);
      case Reserve => QueueQuiet(w, a);
      case Fsync(_, _) => QueueQuiet(w, a);
      case Load => QueueQuiet(w, a);
      case Stop => QueueQuiet(w, a);
      case JanitorLoad => QueueQuiet(w, a);
      case JanitorDone => QueueQuiet(w, a);
      case Crash => QueueQuiet(w, a);
      case RotateFail => QueueQuiet(w, a);
      case RotateCreate => QueueRotate(w, a);
      case RotateSwap => QueueRotate(w, a);
      case See(first) => QueueSee(w, first);
      case Next(to) => QueueNext(w, to);
      case Read => QueueRead(w);
      case Deliver => QueueDeliver(w, a);
      case Refuse(_) => QueueDeliver(w, a);
      case Save => QueueSave(w);
      case JanitorRemove(id) => QueueRemove(w, id);
      case Replay(s, tail) => QueueReplay(w, s, tail);
      case ReplayFail(n) => QueueReplayFail(w, n);
      case PowerLoss => QueuePowerLoss(w);
    }
  }

  lemma {:induction false} InvOnRuns(w: Wal, acts: seq<Action>)
    requires Inv(w) && Possible(w, acts) && Guarded(w, acts)
    ensures Inv(Final(w, acts))
    decreases |acts|
  {
    if acts != [] {
      InvKept(w, acts[0]);
      InvOnRuns(Apply(w, acts[0]), acts[1..]);
    }
  }

  // ---------------------------------------------------------------- main results

  /** Every record owed has reached the sink or waits, ahead of the checkpoint, in a live segment. */
  ghost predicate NoLoss(w: Wal) {
    forall e :: e in w.owed ==> e in w.delivered || e in Unflushed(w)
  }

  lemma {:induction false} InvMeansNoLoss(w: Wal)
    requires Inv(w)
    ensures NoLoss(w)
  {
    forall e | e in w.owed && e !in w.delivered ensures e in Unflushed(w) {
      var id :| id in w.segs && e in w.segs[id];
      UnflushedMember(w, e);
    }
  }

  /** In every state of every guarded run of a fresh log no record is lost. */
  lemma {:induction false} NoLossOnRuns(acts: seq<Action>)
    requires Possible(EMPTY, acts) && Guarded(EMPTY, acts)
    ensures NoLoss(Final(EMPTY, acts))
  {
    InvOnRuns(EMPTY, acts);
    InvMeansNoLoss(Final(EMPTY, acts));
  }

  /** The janitor removes no active segment and no record the sink has not accepted. */
  lemma {:induction false} JanitorSafe(acts: seq<Action>, id: nat)
    requires Possible(EMPTY, acts) && Guarded(EMPTY, acts)
    requires Enabled(Final(EMPTY, acts), JanitorRemove(id))
    ensures var w := Final(EMPTY, acts);
            id != w.active && forall e :: e in w.segs[id] ==> e in w.delivered
  {
    InvOnRuns(EMPTY, acts);
  }

  // ---------------------------------------------------------------- appends that are not interleaved

  predicate Atomic(acts: seq<Action>) {
    forall a :: a in acts ==> !a.Reserve? && !a.Write? && !a.PowerLoss?
  }

  lemma {:induction false} AtomicGuarded(w: Wal, acts: seq<Action>)
    requires Possible(w, acts) && Atomic(acts)
    ensures Guarded(w, acts)
    decreases |acts|
  {
    if acts != [] {
      assert acts[0] in acts;
      assert forall a :: a in acts[1..] ==> a in acts;
      AtomicGuarded(Apply(w, acts[0]), acts[1..]);
    }
  }

  /** Process crashes at any point lose nothing, as long as each append reserves and writes in one step. */
  lemma {:induction false} NoLossProcessCrash(acts: seq<Action>)
    requires Possible(EMPTY, acts) && Atomic(acts)
    ensures NoLoss(Final(EMPTY, acts))
  {
    AtomicGuarded(EMPTY, acts);
    NoLossOnRuns(acts);
  }
}
