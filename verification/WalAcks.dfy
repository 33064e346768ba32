/**
  Group commit and log together.  Every step of GroupCommit is matched by an action of WalModel on the
  same files, so both machines run side by side with flusher, janitor and replay, process crashes and
  power losses.  A record whose append handle was resolved stays owed for ever.
*/
module WalAcks {
  import opened Prelude
  import opened WalModel
  import opened WalPending
  import opened WalSafety
  import G = GroupCommit

  function Ids(es: seq<Entry>): seq<nat> {
    seq(|es|, i requires 0 <= i < |es| => es[i].id)
  }

  ghost predicate SameFile(g: G.Log, w: Wal, f: nat)
    requires f in w.segs
  {
    f in g.files && f in g.synced && f in w.synced && g.files[f] == Ids(w.segs[f]) && g.synced[f] == w.synced[f]
  }

  /** The same files in both machines; those the janitor removed are only in the first. */
  ghost predicate Mirrors(g: G.Log, w: Wal) {
    && g.up == w.up && g.count == w.count
    && (forall f :: f in w.segs ==> SameFile(g, w, f))
    && (forall f :: f in g.files && f !in w.segs ==> f < w.active)
    && (w.segs == map[] ==> g.files == map[])
    && (w.up ==> g.writer == w.active && (w.rotating <==> !g.rotation.Free? && !g.rotation.Sealed?))
  }

  /** What a step of group commit does to the log, if anything; `size` is the payload of a write. */
  function Match(g: G.Log, w: Wal, a: G.Action, size: nat): Option<Action> {
    match a
    case OpenEmpty => Some(Create)
    case Open(last, roll) => Some(Action.Open(last, roll))
    case Write => Some(Append(size))
    case Seal => if g.writer in g.files then Some(Fsync(g.writer, |g.files[g.writer]|)) else None
    case CreateNext => Some(RotateCreate)
    case Swap => Some(RotateSwap)
    case RotateFail => if g.rotation.Sealed? then None else Some(Action.RotateFail)
    case FsyncDone(upto) =>
      if g.commit.Fsyncing? && g.commit.file in w.segs then
        Some(Fsync(g.commit.file, G.Covered(g, g.commit.file, upto)))
      else None
    case Crash => Some(Action.Crash)
    case PowerLoss => Some(Action.PowerLoss)
    case _ => None
  }

  function Applied(w: Wal, a: Option<Action>): Wal
    requires a.Some? ==> Enabled(w, a.value)
  {
    if a.Some? then Apply(w, a.value) else w
  }

  // ---------------------------------------------------------------- the two machines run in step

  lemma {:induction false} MatchedCreateFirst(g: G.Log, w: Wal)
    requires G.Inv(g) && Struct(w) && Mirrors(g, w) && G.Enabled(g, G.OpenEmpty)
    ensures Enabled(w, Create) && Mirrors(G.Apply(g, G.OpenEmpty), Apply(w, Create))
  {
    hide MaxOffset, Fresh, Pending, Part, Unflushed, Spared, Unsynced, Names, PassShape, G.Synced;
    assert forall f :: f in w.segs ==> f in g.files;
  }

  lemma {:induction false} MatchedOpen(g: G.Log, w: Wal, last: nat, roll: bool)
    requires G.Inv(g) && Struct(w) && Mirrors(g, w) && G.Enabled(g, G.Open(last, roll))
    ensures Enabled(w, Action.Open(last, roll))
    ensures Mirrors(G.Apply(g, G.Open(last, roll)), Apply(w, Action.Open(last, roll)))
  {
    hide MaxOffset, Fresh, Pending, Part, Unflushed, Spared, Unsynced, Names, PassShape, G.Synced;
  }

  lemma {:induction false} MatchedWrite(g: G.Log, w: Wal, size: nat)
    requires G.Inv(g) && Struct(w) && Mirrors(g, w) && G.Enabled(g, G.Write)
    ensures Enabled(w, Append(size)) && Mirrors(G.Apply(g, G.Write), Apply(w, Append(size)))
  {
    hide MaxOffset, Fresh, Pending, Part, Unflushed, Spared, Unsynced, Names, PassShape, G.Synced, G.Handles;
    IdsAppend(w.segs[w.active], Entry(w.count, w.next, size));
  }

  lemma {:induction false} IdsAppend(es: seq<Entry>, e: Entry)
    ensures Ids(es + [e]) == Ids(es) + [e.id]
  {}

  lemma {:induction false} MatchedSeal(g: G.Log, w: Wal)
    requires G.Inv(g) && Struct(w) && Mirrors(g, w) && G.Enabled(g, G.Seal)
    ensures var b := Match(g, w, G.Seal, 0);
            b.Some? && Enabled(w, b.value) && Mirrors(G.Apply(g, G.Seal), Apply(w, b.value))
  {
    hide MaxOffset, Fresh, Pending, Part, Unflushed, Spared, Unsynced, Names, PassShape, G.Synced, G.Handles;
  }

  /** The fsync of a commit returns, whichever file it was for; the janitor may have removed that file. */
  lemma {:induction false} MatchedDone(g: G.Log, w: Wal, upto: nat)
    requires G.Inv(g) && Struct(w) && Mirrors(g, w) && G.Enabled(g, G.FsyncDone(upto))
    ensures var b := Match(g, w, G.FsyncDone(upto), 0);
            (b.Some? ==> Enabled(w, b.value)) && Mirrors(G.Apply(g, G.FsyncDone(upto)), Applied(w, b))
  {
    hide Fresh, Pending, Part, Unflushed, Spared, Unsynced, Names, PassShape, G.Synced, G.Durable, G.Writer,
         Offsets, Marks, MaxOffset;
  }

  lemma {:induction false} MatchedCreate(g: G.Log, w: Wal)
    requires G.Inv(g) && Struct(w) && Mirrors(g, w) && G.Enabled(g, G.CreateNext)
    ensures Enabled(w, RotateCreate) && Mirrors(G.Apply(g, G.CreateNext), Apply(w, RotateCreate))
  {
    hide MaxOffset, Fresh, Pending, Part, Unflushed, Spared, Unsynced, Names, PassShape, G.Synced, G.Handles;
  }

  lemma {:induction false} MatchedLink(g: G.Log, w: Wal, a: G.Action)
    requires Mirrors(g, w) && G.Enabled(g, a) && (a.Unlink? || a.Link?)
    ensures Match(g, w, a, 0) == None && Mirrors(G.Apply(g, a), w)
  {}

  lemma {:induction false} MatchedSwap(g: G.Log, w: Wal)
    requires G.Inv(g) && Struct(w) && Mirrors(g, w) && G.Enabled(g, G.Swap)
    ensures Enabled(w, RotateSwap) && Mirrors(G.Apply(g, G.Swap), Apply(w, RotateSwap))
  {
    hide MaxOffset, Fresh, Pending, Part, Unflushed, Spared, Unsynced, Names, PassShape, G.Synced, G.Handles, Offsets,
           Marks;
  }

  lemma {:induction false} MatchedFail(g: G.Log, w: Wal)
    requires Mirrors(g, w) && G.Enabled(g, G.RotateFail)
    ensures var b := Match(g, w, G.RotateFail, 0);
            (b.Some? ==> Enabled(w, b.value)) && Mirrors(G.Apply(g, G.RotateFail), Applied(w, b))
  {}

  lemma {:induction false} MatchedCommit(g: G.Log, w: Wal, a: G.Action)
    requires G.Inv(g) && Struct(w) && Mirrors(g, w) && G.Enabled(g, a)
    requires a.Register? || a.FsyncStart? || a.FsyncFail? || a.Drain?
    ensures var b := Match(g, w, a, 0); (b.Some? ==> Enabled(w, b.value)) && Mirrors(G.Apply(g, a), Applied(w, b))
  {
    hide MaxOffset, Fresh, Pending, Part, Unflushed, Spared, Unsynced, Names, PassShape, G.Synced, G.Handles;
  }

  lemma {:induction false} MatchedCrash(g: G.Log, w: Wal)
    requires Mirrors(g, w) && G.Enabled(g, G.Crash)
    ensures Enabled(w, Action.Crash) && Mirrors(G.Apply(g, G.Crash), Apply(w, Action.Crash))
  {
    hide MaxOffset, Fresh, Pending, Part, Unflushed, Spared, Unsynced;
  }

  lemma {:induction false} IdsTake(es: seq<Entry>, n: nat)
    requires n <= |es|
    ensures Ids(es[..n]) == Ids(es)[..n]
  {}

  lemma {:induction false} SurvivorSame(g: G.Log, w: Wal, f: nat)
    requires g.synced.Keys == g.files.Keys && w.synced.Keys == w.segs.Keys && f in w.segs && SameFile(g, w, f)
    ensures f in G.Survivors(g) && f in Survivors(w)
    ensures G.Survivors(g)[f] == Ids(Survivors(w)[f]) && |G.Survivors(g)[f]| == |Survivors(w)[f]|
  {
    IdsTake(w.segs[f], Min(w.synced[f], |w.segs[f]|));
  }

  lemma {:induction false} SurvivorKeys(g: G.Log, w: Wal)
    requires g.synced.Keys == g.files.Keys && w.synced.Keys == w.segs.Keys
    ensures G.Survivors(g).Keys == g.files.Keys && Survivors(w).Keys == w.segs.Keys
  {}

  lemma {:induction false} MatchedPowerLoss(g: G.Log, w: Wal)
    requires g.synced.Keys == g.files.Keys && w.synced.Keys == w.segs.Keys && Mirrors(g, w) && G.Enabled(g, G.PowerLoss)
    ensures Enabled(w, PowerLoss) && Mirrors(G.Apply(g, G.PowerLoss), Apply(w, PowerLoss))
  {
    hide Ids, Unsynced, Spared, Survivors, G.Survivors;
    SurvivorKeys(g, w);
    var g', w' := G.Apply(g, G.PowerLoss), Apply(w, PowerLoss);
    forall f | f in w'.segs ensures SameFile(g', w', f) { SurvivorSame(g, w, f); }
  }

  lemma {:induction false} FilesOf(g: G.Log, w: Wal)
    requires G.Inv(g) && Struct(w)
    ensures G.Files(g) && Files(w) && g.synced.Keys == g.files.Keys && w.synced.Keys == w.segs.Keys
  {}

  /** Each step of group commit is matched by the log. */
  lemma {:induction false} Matched(g: G.Log, w: Wal, a: G.Action, size: nat)
    requires G.Inv(g) && Struct(w) && Mirrors(g, w) && G.Enabled(g, a)
    ensures var b := Match(g, w, a, size); (b.Some? ==> Enabled(w, b.value)) && Mirrors(G.Apply(g, a), Applied(w, b))
  {
    hide Struct, Mirrors, Enabled, Apply, G.Apply, G.Enabled, G.Inv;
    match a {
      case OpenEmpty => MatchedCreateFirst(g, w);
      case Open(last, roll) => MatchedOpen(g, w, last, roll);
      case Write => MatchedWrite(g, w, size);
      case Seal => MatchedSeal(g, w);
      case CreateNext => MatchedCreate(g, w);
      case Unlink => MatchedLink(g, w, a);
      case Link => MatchedLink(g, w, a);
      case Swap => MatchedSwap(g, w);
      case RotateFail => MatchedFail(g, w);
      case Register(_) => MatchedCommit(g, w, a);
      case FsyncStart => MatchedCommit(g, w, a);
      case FsyncDone(upto) => MatchedDone(g, w, upto);
      case FsyncFail => MatchedCommit(g, w, a);
      case Drain => MatchedCommit(g, w, a);
      case Crash => MatchedCrash(g, w);
      case PowerLoss => FilesOf(g, w); MatchedPowerLoss(g, w);
    }
  }

  /** What the log does without group commit: reserving offsets, flusher, janitor and replay. */
  predicate Unobserved(a: Action) {
    || a.Reserve? || a.Load? || a.See? || a.Read? || a.Deliver? || a.Save? || a.Next? || a.Stop? || a.Refuse?
    || a.JanitorLoad? || a.JanitorRemove? || a.JanitorDone? || a.Replay?
  }

  lemma {:induction false} MirrorsRemove(g: G.Log, w: Wal, id: nat)
    requires Struct(w) && Mirrors(g, w) && Enabled(w, JanitorRemove(id))
    ensures Mirrors(g, Apply(w, JanitorRemove(id))) && Apply(w, JanitorRemove(id)).owed == w.owed
  {
    hide MaxOffset, Fresh, Pending, Part, Unflushed, Spared, Unsynced, Names, PassShape, Survivors;
    assert w.active in Apply(w, JanitorRemove(id)).segs;
  }

  /** Nothing group commit sees has changed. */
  predicate Alike(w: Wal, w': Wal) {
    && w'.up == w.up && w'.count == w.count && w'.segs == w.segs && w'.synced == w.synced
    && w'.active == w.active && w'.rotating == w.rotating && w'.owed == w.owed
  }

  lemma {:induction false} AlikePass(w: Wal, a: Action)
    requires Enabled(w, a) && (a.Load? || a.See? || a.Read? || a.Next? || a.Stop? || a.Deliver? || a.Save? || a.Refuse?)
    ensures Alike(w, Apply(w, a))
  {
    hide MaxOffset, Fresh, Pending, Part, Unflushed, Spared, Unsynced, Survivors;
  }

  lemma {:induction false} AlikeOther(w: Wal, a: Action)
    requires Enabled(w, a) && (a.Reserve? || a.JanitorLoad? || a.JanitorDone? || a.Replay?)
    ensures Alike(w, Apply(w, a))
  {
    hide MaxOffset, Fresh, Pending, Part, Unflushed, Spared, Unsynced, Survivors;
  }

  lemma {:induction false} MirrorsUnobserved(g: G.Log, w: Wal, a: Action)
    requires Struct(w) && Mirrors(g, w) && Enabled(w, a) && Unobserved(a)
    ensures Mirrors(g, Apply(w, a)) && Apply(w, a).owed == w.owed
  {
    hide Enabled, Apply, Struct;
    if a.JanitorRemove? {
      MirrorsRemove(g, w, a.id);
    } else if a.Reserve? || a.JanitorLoad? || a.JanitorDone? || a.Replay? {
      AlikeOther(w, a);
    } else {
      AlikePass(w, a);
    }
  }

  lemma {:induction false} MirrorsLate(g: G.Log, w: Wal, o: nat, size: nat)
    requires G.Inv(g) && Struct(w) && Mirrors(g, w) && G.Enabled(g, G.Write) && Enabled(w, Write(o, size))
    ensures Mirrors(G.Apply(g, G.Write), Apply(w, Write(o, size)))
  {
    hide MaxOffset, Fresh, Pending, Part, Unflushed, Spared, Unsynced, Names, PassShape, G.Synced, G.Handles;
    IdsAppend(w.segs[w.active], Entry(w.count, o, size));
  }

  lemma {:induction false} MirrorsStartFails(g: G.Log, w: Wal, n: nat)
    requires Mirrors(g, w) && G.Enabled(g, G.Crash) && Enabled(w, ReplayFail(n))
    ensures Mirrors(G.Apply(g, G.Crash), Apply(w, ReplayFail(n))) && Apply(w, ReplayFail(n)).owed == w.owed
  {
    hide Pending, Unflushed;
  }

  // ---------------------------------------------------------------- joint runs

  datatype Joint = Joint(log: G.Log, wal: Wal)

  const START: Joint := Joint(G.EMPTY, EMPTY)

  datatype Event =
    | Commit(a: G.Action, size: nat)       // a step of writer or group commit, on both machines
    | Late(offset: nat, size: nat)         // a write with an offset reserved earlier
    | Alone(b: Action)                     // flusher, janitor, replay
    | StartFails(accepted: nat)            // the sink refuses a replay, the start fails

  /** Both machines allow the event, under the guards of both. */
  predicate Allowed(j: Joint, e: Event) {
    match e
    case Commit(a, size) =>
      && G.Enabled(j.log, a) && G.Guard(j.log, a) && (a.PowerLoss? ==> PowerSafe(j.wal))
      && var b := Match(j.log, j.wal, a, size); b.Some? ==> Enabled(j.wal, b.value)
    case Late(o, size) => G.Enabled(j.log, G.Write) && Enabled(j.wal, Write(o, size)) && SafeWrite(j.wal, o)
    case Alone(b) => Unobserved(b) && Enabled(j.wal, b)
    case StartFails(n) => G.Enabled(j.log, G.Crash) && Enabled(j.wal, ReplayFail(n))
  }

  predicate PowerSafe(w: Wal) {
    Enabled(w, PowerLoss) && CheckpointSynced(w)
  }

  ghost predicate JointInv(j: Joint) {
    G.Inv(j.log) && Inv(j.wal) && Mirrors(j.log, j.wal) && EachOnce(j.log) && Recorded(j.log, j.wal)
  }

  /** No append call left more than one record. */
  ghost predicate EachOnce(g: G.Log) {
    forall f, i, f', k ::
      (f in g.files && f' in g.files && 0 <= i < |g.files[f]| && 0 <= k < |g.files[f']|
        && g.files[f][i] == g.files[f'][k])
      ==> f == f' && i == k
  }

  predicate Owes(w: Wal, id: nat) {
    exists e :: e in w.owed && e.id == id
  }

  /** Every record of a file is owed, files the janitor removed included. */
  ghost predicate Recorded(g: G.Log, w: Wal) {
    forall f, i :: f in g.files && 0 <= i < |g.files[f]| ==> Owes(w, g.files[f][i])
  }

  function After(j: Joint, e: Event): Joint
    requires Allowed(j, e)
  {
    match e
    case Commit(a, size) => Joint(G.Apply(j.log, a), Applied(j.wal, Match(j.log, j.wal, a, size)))
    case Late(o, size) => Joint(G.Apply(j.log, G.Write), Apply(j.wal, Write(o, size)))
    case Alone(b) => Joint(j.log, Apply(j.wal, b))
    case StartFails(n) => Joint(G.Apply(j.log, G.Crash), Apply(j.wal, ReplayFail(n)))
  }

  predicate Possible(j: Joint, es: seq<Event>)
    decreases |es|
  {
    es == [] || (Allowed(j, es[0]) && Possible(After(j, es[0]), es[1..]))
  }

  function Final(j: Joint, es: seq<Event>): Joint
    requires Possible(j, es)
    decreases |es|
  {
    if es == [] then j else Final(After(j, es[0]), es[1..])
  }

  /** The log never holds group commit up: whatever the latter may do under its guard is allowed. */
  lemma {:induction false} LogFollows(j: Joint, a: G.Action, size: nat)
    requires JointInv(j) && G.Enabled(j.log, a) && G.Guard(j.log, a) && (a.PowerLoss? ==> PowerSafe(j.wal))
    ensures Allowed(j, Commit(a, size))
  {
    InvParts(j);
    hide G.Inv, Inv, Mirrors, Recorded, EachOnce, Struct, G.Enabled, Enabled;
    Matched(j.log, j.wal, a, size);
  }

  // ---------------------------------------------------------------- records stay owed

  lemma {:induction false} EachOnceKept(g: G.Log, a: G.Action)
    requires G.Inv(g) && EachOnce(g) && G.Enabled(g, a)
    ensures EachOnce(G.Apply(g, a))
  {
    hide G.Synced, G.Handles, G.Durable, G.Writer;
    if a.Write? {
      forall f, i | f in g.files && 0 <= i < |g.files[f]| ensures g.files[f][i] < g.count {
        assert g.files[f][i] in g.files[f];
      }
    }
  }

  lemma {:induction false} RecordedWrite(g: G.Log, w: Wal, e: Entry, w': Wal)
    requires G.Enabled(g, G.Write) && Recorded(g, w) && w'.owed == w.owed + [e] && e.id == g.count
    ensures Recorded(G.Apply(g, G.Write), w')
  {
    var g' := G.Apply(g, G.Write);
    assert e in w'.owed;
    forall f, i | f in g'.files && 0 <= i < |g'.files[f]| ensures Owes(w', g'.files[f][i]) {
      if f in g.files && i < |g.files[f]| {
        var x :| x in w.owed && x.id == g.files[f][i];
        assert x in w'.owed;
      }
    }
  }

  /** A record in the synced part of its file is spared by a power loss. */
  lemma {:induction false} SyncedIsSpared(g: G.Log, w: Wal, f: nat, i: nat, e: Entry)
    requires G.Files(g) && Files(w) && Mirrors(g, w) && EachOnce(g)
    requires f in g.files && 0 <= i < g.synced[f] && g.files[f][i] == e.id
    ensures !Unsynced(w, e)
  {
    forall x | x in w.segs ensures e !in w.segs[x][Min(w.synced[x], |w.segs[x]|)..] {
      var es, n := w.segs[x], Min(w.synced[x], |w.segs[x]|);
      forall k | 0 <= k < |es[n..]| ensures es[n..][k] != e {
        assert es[n..][k] == es[n + k] && g.files[x][n + k] == es[n + k].id;
      }
    }
  }

  lemma {:induction false} RecordedAt(g: G.Log, w: Wal, f: nat, i: nat) returns (e: Entry)
    requires Recorded(g, w) && f in g.files && i < |g.files[f]|
    ensures e in w.owed && e.id == g.files[f][i]
  {
    assert Owes(w, g.files[f][i]);
    e :| e in w.owed && e.id == g.files[f][i];
  }

  lemma {:induction false} RecordedPowerLoss(g: G.Log, w: Wal)
    requires G.Inv(g) && Struct(w) && Mirrors(g, w) && EachOnce(g) && Recorded(g, w) && Enabled(w, PowerLoss)
    ensures Recorded(G.Apply(g, G.PowerLoss), Apply(w, PowerLoss))
  {
    hide G.Synced, G.Handles, G.Durable, G.Writer, Unsynced, Spared, Survivors, Names, PassShape, Offsets, Marks;
    var g', w' := G.Apply(g, G.PowerLoss), Apply(w, PowerLoss);
    forall f, i | f in g'.files && 0 <= i < |g'.files[f]| ensures Owes(w', g'.files[f][i]) {
      var e := RecordedAt(g, w, f, i);
      SyncedIsSpared(g, w, f, i, e);
      SparedOwed(w, e);
    }
  }

  lemma {:induction false} SparedOwed(w: Wal, e: Entry)
    requires w.synced.Keys == w.segs.Keys && e in w.owed && !Unsynced(w, e)
    ensures e in Apply(w, PowerLoss).owed
  {
    SparedMember(w, w.owed);
  }

  /** Anything else leaves the owed records and the files alone. */
  lemma {:induction false} RecordedSame(g: G.Log, g': G.Log, w: Wal, w': Wal)
    requires Recorded(g, w) && w'.owed == w.owed
    requires forall f :: f in g'.files ==> g'.files[f] == [] || (f in g.files && g'.files[f] == g.files[f])
    ensures Recorded(g', w')
  {}

  lemma {:induction false} OwedSame(g: G.Log, w: Wal, a: G.Action, size: nat)
    requires var b := Match(g, w, a, size); b.Some? ==> Enabled(w, b.value)
    requires !a.Write? && !a.PowerLoss?
    ensures Applied(w, Match(g, w, a, size)).owed == w.owed
  {
    hide MaxOffset, Fresh, Pending, Part, Unflushed, Spared, Unsynced, Survivors, Enabled;
  }

  lemma {:induction false} FilesSame(g: G.Log, a: G.Action)
    requires G.Enabled(g, a) && !a.Write? && !a.PowerLoss?
    ensures var g' := G.Apply(g, a);
            forall f :: f in g'.files ==> g'.files[f] == [] || (f in g.files && g'.files[f] == g.files[f])
  {
    hide G.Synced;
  }

  lemma {:induction false} RecordedCommit(j: Joint, a: G.Action, size: nat)
    requires JointInv(j) && Allowed(j, Commit(a, size))
    ensures var k := After(j, Commit(a, size)); Recorded(k.log, k.wal)
  {
    InvParts(j);
    hide G.Inv, Inv, Mirrors, Recorded, EachOnce, G.Apply, G.Enabled, Enabled, Struct, G.Guard;
    var k := After(j, Commit(a, size));
    if a.Write? {
      RecordedWrite(j.log, j.wal, Entry(j.wal.count, j.wal.next, size), k.wal);
    } else if a.PowerLoss? {
      RecordedPowerLoss(j.log, j.wal);
    } else {
      OwedSame(j.log, j.wal, a, size);
      FilesSame(j.log, a);
      RecordedSame(j.log, k.log, j.wal, k.wal);
    }
  }

  lemma {:induction false} InvParts(j: Joint)
    requires JointInv(j)
    ensures Struct(j.wal) && G.Inv(j.log) && Mirrors(j.log, j.wal) && EachOnce(j.log) && Recorded(j.log, j.wal)
    ensures j.log.count == j.wal.count
  {}

  lemma {:induction false} LogKept(j: Joint, e: Event)
    requires JointInv(j) && Allowed(j, e)
    ensures var k := After(j, e); G.Inv(k.log) && EachOnce(k.log)
  {
    hide G.Inv, Inv, Mirrors, Recorded, EachOnce, G.Apply;
    match e {
      case Commit(a, _) => G.InvKept(j.log, a); EachOnceKept(j.log, a);
      case Late(_, _) => G.InvKept(j.log, G.Write); EachOnceKept(j.log, G.Write);
      case Alone(_) =>
      case StartFails(_) => G.InvKept(j.log, G.Crash); EachOnceKept(j.log, G.Crash);
    }
  }

  lemma {:induction false} WalKept(j: Joint, e: Event)
    requires JointInv(j) && Allowed(j, e)
    ensures Inv(After(j, e).wal)
  {
    hide G.Inv, Inv, Mirrors, Recorded, EachOnce, Apply, G.Apply, G.Guard, CheckpointSynced, SafeWrite;
    match e {
      case Commit(a, size) =>
        var b := Match(j.log, j.wal, a, size);
        if b.Some? { InvKept(j.wal, b.value); }
      case Late(o, size) => InvKept(j.wal, Write(o, size));
      case Alone(b) => InvKept(j.wal, b);
      case StartFails(n) => InvKept(j.wal, ReplayFail(n));
    }
  }

  lemma {:induction false} MirrorsKept(j: Joint, e: Event)
    requires JointInv(j) && Allowed(j, e)
    ensures var k := After(j, e); Mirrors(k.log, k.wal) && Recorded(k.log, k.wal)
  {
    InvParts(j);
    hide G.Inv, Inv, Mirrors, Recorded, EachOnce, Struct;
    match e {
      case Commit(a, size) =>
        Matched(j.log, j.wal, a, size);
        RecordedCommit(j, a, size);
      case Late(o, size) =>
        MirrorsLate(j.log, j.wal, o, size);
        RecordedWrite(j.log, j.wal, Entry(j.wal.count, o, size), Apply(j.wal, Write(o, size)));
      case Alone(b) =>
        MirrorsUnobserved(j.log, j.wal, b);
        RecordedSame(j.log, j.log, j.wal, Apply(j.wal, b));
      case StartFails(n) =>
        MirrorsStartFails(j.log, j.wal, n);
        RecordedSame(j.log, G.Apply(j.log, G.Crash), j.wal, Apply(j.wal, ReplayFail(n)));
    }
  }

  lemma {:induction false} JointInvKept(j: Joint, e: Event)
    requires JointInv(j) && Allowed(j, e)
    ensures JointInv(After(j, e))
  {
    hide G.Inv, Inv, Mirrors, Recorded, EachOnce, After;
    LogKept(j, e);
    WalKept(j, e);
    MirrorsKept(j, e);
  }

  lemma {:induction false} StartInv()
    ensures JointInv(START)
  {}

  lemma {:induction false} RunInv(j: Joint, es: seq<Event>)
    requires JointInv(j) && Possible(j, es)
    ensures JointInv(Final(j, es))
    decreases |es|
  {
    hide JointInv, After, Allowed;
    if es != [] {
      JointInvKept(j, es[0]);
      RunInv(After(j, es[0]), es[1..]);
    }
  }

  /** A resolved handle, in a state that keeps the invariant. */
  lemma {:induction false} ResolvedOwed(g: G.Log, w: Wal, id: nat)
    requires G.Durable(g) && Recorded(g, w) && id in g.acked
    ensures Owes(w, id)
  {
    assert G.Synced(g, id);
    var f :| f in g.files && f in g.synced && g.synced[f] <= |g.files[f]| && id in g.files[f][..g.synced[f]];
    var i :| 0 <= i < g.synced[f] && g.files[f][..g.synced[f]][i] == id;
    assert g.files[f][i] == id;
  }

  /**
    End to end: in every state of every joint run, power losses included, a resolved handle belongs to a
    record that is still owed and has been delivered or waits, ahead of the checkpoint, in a live segment.
  */
  lemma {:induction false} ResolvedIsKept(es: seq<Event>, id: nat)
    requires Possible(START, es) && id in Final(START, es).log.acked
    ensures var w := Final(START, es).wal;
            exists e :: e in w.owed && e.id == id && (e in w.delivered || e in Unflushed(w))
  {
    StartInv();
    RunInv(START, es);
    var g, w := Final(START, es).log, Final(START, es).wal;
    hide Final, Possible, Inv;
    assert G.Durable(g) && Recorded(g, w) && Inv(w);
    ResolvedOwed(g, w, id);
    InvMeansNoLoss(w);
    var e :| e in w.owed && e.id == id;
  }
}
