/**
  Group commit.  Appenders write under the writer lock and register a handle afterwards; a loop fsyncs the
  file `current.seg` points to, which takes time, and then resolves every handle pending by then.  A resolved
  handle should mean that an fsync has covered the record.
*/
module GroupCommit {
  import opened Prelude

  /** How far the appender that holds the writer lock has come with a rotation. */
  datatype Rotation = Free | Sealed | Created | Unlinked | Linked

  /** The commit loop: an fsync under way is sure to cover what its file held when it started. */
  datatype Commit = Asleep | Fsyncing(file: nat, mark: nat) | Returned

  datatype Log = Log(
    up: bool,
    files: map<nat, seq<nat>>,   // the records of each segment file, by the number of their append call
    synced: map<nat, nat>,       // how many of them the last fsync of the file covered
    link: Option<nat>,           // what `current.seg` points to
    writer: nat,
    rotation: Rotation,
    waiting: set<nat>,           // written, handle not yet registered
    pending: seq<nat>,           // registered handles
    commit: Commit,
    acked: seq<nat>,             // resolved handles
    count: nat)

  const EMPTY: Log := Log(false, map[], map[], None, 0, Free, {}, [], Asleep, [], 0)

  datatype Action =
    | OpenEmpty
    | Open(last: nat, roll: bool)
    | Write
    | Register(id: nat)
    | Seal | CreateNext | Unlink | Link | Swap | RotateFail
    | FsyncStart | FsyncDone(upto: nat) | FsyncFail | Drain
    | Crash       // the process dies, the page cache survives
    | PowerLoss   // every record no fsync covered is gone

  predicate Newest(w: Log, id: nat) {
    id in w.files && forall x :: x in w.files ==> x <= id
  }

  predicate Enabled(w: Log, a: Action) {
    match a
    case OpenEmpty => !w.up && w.files == map[]
    case Open(last, _) => !w.up && Newest(w, last)
    case Write => w.up && w.rotation.Free? && w.writer in w.files
    case Register(id) => w.up && id in w.waiting
    case Seal => w.up && w.rotation.Free? && w.writer in w.files
    case CreateNext => w.up && w.rotation.Sealed?
    case Unlink => w.up && w.rotation.Created?
    case Link => w.up && w.rotation.Unlinked?
    case Swap => w.up && w.rotation.Linked?
    case RotateFail => w.up && (w.rotation.Sealed? || w.rotation.Created? || w.rotation.Unlinked?)
    case FsyncStart => w.up && w.commit.Asleep? && w.pending != [] && w.link.Some? && w.link.value in w.files
    case FsyncDone(upto) =>
      w.up && w.commit.Fsyncing? && w.commit.file in w.files && w.commit.mark <= upto <= |w.files[w.commit.file]|
    case FsyncFail => w.up && !w.commit.Returned? && w.pending != []
    case Drain => w.up && w.commit.Returned?
    case Crash => w.up
    case PowerLoss => w.synced.Keys == w.files.Keys
  }

  function Down(w: Log): Log {
    w.(up := false, rotation := Free, waiting := {}, pending := [], commit := Asleep)
  }

  /** How much of a file is covered once an fsync that reached `upto` has returned. */
  function Covered(w: Log, file: nat, upto: nat): nat {
    if file in w.synced then Max(w.synced[file], upto) else upto
  }

  /** The files as an fsync left them. */
  function Survivors(w: Log): map<nat, seq<nat>>
    requires w.synced.Keys == w.files.Keys
  {
    map f | f in w.files :: w.files[f][..Min(w.synced[f], |w.files[f]|)]
  }

  function Apply(w: Log, a: Action): Log
    requires Enabled(w, a)
  {
    match a
    case OpenEmpty => w.(up := true, files := map[0 := []], synced := map[0 := 0], link := Some(0), writer := 0)
    case Open(last, roll) =>
      if roll then
        w.(up := true, files := w.files[last + 1 := []], synced := w.synced[last + 1 := 0],
           link := Some(last + 1), writer := last + 1)
      else w.(up := true, writer := last)
    case Write =>
      w.(files := w.files[w.writer := w.files[w.writer] + [w.count]], waiting := w.waiting + {w.count},
         count := w.count + 1)
    case Register(id) => w.(waiting := w.waiting - {id}, pending := w.pending + [id])
    case Seal => w.(synced := w.synced[w.writer := |w.files[w.writer]|], rotation := Sealed)
    case CreateNext =>
      w.(files := w.files[w.writer + 1 := []], synced := w.synced[w.writer + 1 := 0], rotation := Created)
    case Unlink => w.(link := None, rotation := Unlinked)
    case Link => w.(link := Some(w.writer + 1), rotation := Linked)
    case Swap => w.(writer := w.writer + 1, rotation := Free)
    case RotateFail => w.(rotation := Free)
    case FsyncStart => w.(commit := Fsyncing(w.link.value, |w.files[w.link.value]|))
    case FsyncDone(upto) =>
      w.(synced := w.synced[w.commit.file := Covered(w, w.commit.file, upto)], commit := Returned)
    case FsyncFail => w.(commit := Asleep)
    case Drain => w.(acked := w.acked + w.pending, pending := [], commit := Asleep)
    case Crash => Down(w)
    case PowerLoss =>
      var left := Survivors(w);
      Down(w.(files := left, synced := map f | f in w.files :: |left[f]|))
  }

  predicate Possible(w: Log, acts: seq<Action>)
    decreases |acts|
  {
    acts == [] || (Enabled(w, acts[0]) && Possible(Apply(w, acts[0]), acts[1..]))
  }

  function Final(w: Log, acts: seq<Action>): Log
    requires Possible(w, acts)
    decreases |acts|
  {
    if acts == [] then w else Final(Apply(w, acts[0]), acts[1..])
  }

  // ---------------------------------------------------------------- durability

  /** The record lies in the part of its file that an fsync has covered. */
  predicate Synced(w: Log, id: nat) {
    exists f :: f in w.files && f in w.synced && w.synced[f] <= |w.files[f]| && id in w.files[f][..w.synced[f]]
  }

  /** The record was in the file when the fsync under way started. */
  predicate Started(w: Log, id: nat) {
    && w.commit.Fsyncing? && w.commit.file in w.files && w.commit.mark <= |w.files[w.commit.file]|
    && id in w.files[w.commit.file][..w.commit.mark]
  }

  /** No handle was resolved too early. */
  ghost predicate Durable(w: Log) {
    forall id :: id in w.acked ==> Synced(w, id)
  }

  // ---------------------------------------------------------------- invariant

  ghost predicate Files(w: Log) {
    && w.synced.Keys == w.files.Keys
    && (forall f :: f in w.files ==> w.synced[f] <= |w.files[f]|)
    && (forall f, id :: f in w.files && id in w.files[f] ==> id < w.count)
    && (w.link.Some? ==> w.link.value in w.files)
  }

  ghost predicate Writer(w: Log) {
    w.up ==>
      && w.writer in w.files
      && (forall f :: f in w.files ==> f <= w.writer + 1)
      && (w.writer + 1 in w.files ==> w.files[w.writer + 1] == [])
      && (!w.rotation.Free? ==> w.writer in w.synced && w.synced[w.writer] == |w.files[w.writer]|)
      && (w.rotation.Unlinked? ==> w.link == None)
      && (!w.rotation.Free? && !w.rotation.Sealed? ==> w.writer + 1 in w.files)
      && (w.link.Some? ==> w.link.value == if w.rotation.Linked? then w.writer + 1 else w.writer)
      && (w.rotation.Linked? ==> w.link.Some?)
  }

  /** A handle that is not resolved yet belongs to a synced record or to one in the writer's file. */
  ghost predicate Handles(w: Log) {
    && (!w.up ==> w.waiting == {} && w.pending == [] && w.commit.Asleep? && w.rotation.Free?)
    && (forall id :: id in w.waiting || id in w.pending ==>
      Synced(w, id) || (w.writer in w.files && id in w.files[w.writer]))
    && (w.commit.Fsyncing? ==>
        && w.commit.file in w.files && w.commit.mark <= |w.files[w.commit.file]|
        && forall id :: id in w.pending ==> Synced(w, id) || Started(w, id))
    && (w.commit.Returned? ==> forall id :: id in w.pending ==> Synced(w, id))
  }

  ghost predicate Inv(w: Log) {
    Files(w) && Writer(w) && Handles(w) && Durable(w)
  }

  /**
    From the start of an fsync to the drain, a handle that is registered must belong to a record that is
    synced, or that the fsync under way is sure to cover; and the log must not be reopened on a segment that
    `current.seg` does not point to.
  */
  predicate Guard(w: Log, a: Action) {
    match a
    case Register(id) => w.commit.Asleep? || Synced(w, id) || Started(w, id)
    case Open(last, roll) => roll || w.link == None || w.link == Some(last)
    case _ => true
  }

  predicate Guarded(w: Log, acts: seq<Action>)
    requires Possible(w, acts)
    decreases |acts|
  {
    acts == [] || (Guard(w, acts[0]) && Guarded(Apply(w, acts[0]), acts[1..]))
  }

  /** Synced records stay synced while files and their synced parts only grow. */
  lemma {:induction false} SyncedGrows(w: Log, w': Log)
    requires Files(w) && Files(w')
    requires forall f :: f in w.files && w.files[f] != [] ==>
               f in w'.files && w.files[f] <= w'.files[f] && w.synced[f] <= w'.synced[f]
    ensures forall id :: Synced(w, id) ==> Synced(w', id)
  {}

  /** A file that is synced to its end has all its records synced. */
  lemma {:induction false} WholeFileSynced(w: Log, f: nat)
    requires Files(w) && f in w.files && w.synced[f] == |w.files[f]|
    ensures forall id :: id in w.files[f] ==> Synced(w, id)
  {
    assert w.files[f][..w.synced[f]] == w.files[f];
  }

  lemma {:induction false} FilesKept(w: Log, a: Action)
    requires Inv(w) && Enabled(w, a)
    ensures Files(Apply(w, a))
    ensures forall id :: Synced(w, id) ==> Synced(Apply(w, a), id)
  {
    if a.PowerLoss? {
      PowerLossKeeps(w);
    } else {
      assert Files(Apply(w, a)) by { hide Synced; }
      SyncedGrows(w, Apply(w, a));
    }
  }

  /** What an fsync has covered survives. */
  lemma {:induction false} PowerLossKeeps(w: Log)
    requires Inv(w)
    ensures Files(Apply(w, PowerLoss))
    ensures forall id :: Synced(w, id) ==> Synced(Apply(w, PowerLoss), id)
  {
    var w' := Apply(w, PowerLoss);
    forall f, id | f in w'.files && id in w'.files[f] ensures id in w.files[f] {}
    forall id | Synced(w, id) ensures Synced(w', id) {
      var f :| f in w.files && id in w.files[f][..w.synced[f]];
      assert w'.files[f] == w.files[f][..w.synced[f]] && w'.files[f][..w'.synced[f]] == w'.files[f];
    }
  }

  lemma {:induction false} WriterKept(w: Log, a: Action)
    requires Inv(w) && Enabled(w, a) && Guard(w, a)
    ensures Writer(Apply(w, a))
  {
    hide Synced, Durable;
  }

  /** What the file held when the fsync started is synced once it has returned. */
  lemma {:induction false} StartedCovered(w: Log, upto: nat)
    requires Inv(w) && Enabled(w, FsyncDone(upto))
    ensures forall id :: Started(w, id) ==> Synced(Apply(w, FsyncDone(upto)), id)
  {
    var w', f := Apply(w, FsyncDone(upto)), w.commit.file;
    forall id | Started(w, id) ensures Synced(w', id) {
      assert w.files[f][..w'.synced[f]][..w.commit.mark] == w.files[f][..w.commit.mark];
      assert id in w'.files[f][..w'.synced[f]];
    }
  }

  /** The file of an fsync under way only grows. */
  lemma {:induction false} StartedStays(w: Log, a: Action)
    requires Inv(w) && Enabled(w, a) && Apply(w, a).commit == w.commit && w.commit.Fsyncing?
    ensures var w', f := Apply(w, a), w.commit.file; f in w'.files && w.commit.mark <= |w'.files[f]|
    ensures forall id :: Started(w, id) ==> Started(Apply(w, a), id)
  {
    hide Synced;
    var w', f := Apply(w, a), w.commit.file;
    assert f in w'.files && w.files[f] <= w'.files[f];
    assert w'.files[f][..w.commit.mark] == w.files[f][..w.commit.mark];
  }

  lemma {:induction false} HandlesKept(w: Log, a: Action)
    requires Inv(w) && Enabled(w, a) && Guard(w, a)
    ensures Handles(Apply(w, a)) && Durable(Apply(w, a))
  {
    var w' := Apply(w, a);
    FilesKept(w, a);
    if a.Swap? { WholeFileSynced(w, w.writer); }
    if !w.rotation.Free? { WholeFileSynced(w, w.writer); }
    if a.FsyncStart? { assert w.files[w.link.value][..|w.files[w.link.value]|] == w.files[w.link.value]; }
    if a.FsyncDone? {
      StartedCovered(w, a.upto);
    } else if w.commit.Fsyncing? && w'.commit == w.commit {
      StartedStays(w, a);
    }
    hide Synced, Started;
  }

  lemma {:induction false} InvKept(w: Log, a: Action)
    requires Inv(w) && Enabled(w, a) && Guard(w, a)
    ensures Inv(Apply(w, a))
  {
    FilesKept(w, a);
    WriterKept(w, a);
    HandlesKept(w, a);
  }

  lemma {:induction false} InvOnRuns(w: Log, acts: seq<Action>)
    requires Inv(w) && Possible(w, acts) && Guarded(w, acts)
    ensures Inv(Final(w, acts))
    decreases |acts|
  {
    if acts != [] {
      InvKept(w, acts[0]);
      InvOnRuns(Apply(w, acts[0]), acts[1..]);
    }
  }

  /** In every guarded run a resolved handle means that its record was synced before. */
  lemma {:induction false} AckedMeansSynced(acts: seq<Action>)
    requires Possible(EMPTY, acts) && Guarded(EMPTY, acts)
    ensures Durable(Final(EMPTY, acts))
  {
    InvOnRuns(EMPTY, acts);
  }

  /** A failed fsync keeps the queue, and a drain resolves all of it. */
  lemma {:induction false} QueueConserved(w: Log, a: Action)
    requires Enabled(w, a) && !a.Crash? && !a.PowerLoss? && !a.Register?
    ensures Apply(w, a).acked + Apply(w, a).pending == w.acked + w.pending
    ensures Apply(w, a).pending == if a.Drain? then [] else w.pending
  {}

  // ---------------------------------------------------------------- the guards are exact

  ghost predicate SafeFrom(w: Log) {
    forall acts :: Possible(w, acts) && Guarded(w, acts) ==> Durable(Final(w, acts))
  }

  lemma {:induction false} InvSafeFrom(w: Log)
    requires Inv(w)
    ensures SafeFrom(w)
  {
    forall acts | Possible(w, acts) && Guarded(w, acts) ensures Durable(Final(w, acts)) { InvOnRuns(w, acts); }
  }

  lemma {:induction false} Step(w: Log, a: Action, w': Log, more: seq<Action>)
    requires Enabled(w, a) && Apply(w, a) == w' && Possible(w', more)
    ensures Possible(w, [a] + more) && Final(w, [a] + more) == Final(w', more)
    ensures Guard(w, a) && Guarded(w', more) ==> Guarded(w, [a] + more)
  {
    assert ([a] + more)[1..] == more;
  }

  lemma {:induction false} Nothing(w: Log)
    ensures Possible(w, []) && Final(w, []) == w && Guarded(w, [])
  {}

  /**
    Registering in the commit window is safe exactly when the record is synced, or was in the file when the
    fsync under way started.
  */
  lemma {:induction false} RegisterExact(w: Log, id: nat)
    requires Inv(w) && Enabled(w, Register(id))
    ensures SafeFrom(Apply(w, Register(id))) <==> Guard(w, Register(id))
  {
    var w' := Apply(w, Register(id));
    if Guard(w, Register(id)) {
      InvKept(w, Register(id));
      InvSafeFrom(w');
    } else {
      assert id in w'.pending && !Synced(w', id) && !Started(w', id);
      hide Inv, SafeFrom;
      if w'.commit.Fsyncing? {
        assert Files(w') && Handles(w) by { InvParts(w); }
        UncoveredResolved(w', id);
      } else {
        DrainResolves(w', id);
      }
    }
  }

  lemma {:induction false} InvParts(w: Log)
    requires Inv(w)
    ensures Files(w) && Handles(w)
  {}

  /** The drain resolves a handle whose record is not synced. */
  lemma {:induction false} DrainResolves(w: Log, id: nat)
    requires Enabled(w, Drain) && id in w.pending && !Synced(w, id)
    ensures !SafeFrom(w)
    ensures Possible(w, [Drain] + []) && Guarded(w, [Drain] + []) && !Durable(Final(w, [Drain] + []))
  {
    var w' := Apply(w, Drain);
    Nothing(w');
    Step(w, Drain, w', []);
    assert id in w'.acked && !Synced(w', id);
  }

  /** The fsync may cover no more than it is sure to, and the drain resolves the handle nevertheless. */
  lemma {:induction false} UncoveredResolved(w: Log, id: nat)
    requires Files(w) && w.up && w.commit.Fsyncing? && w.commit.file in w.files
             && w.commit.mark <= |w.files[w.commit.file]|
    requires id in w.pending && !Synced(w, id) && !Started(w, id)
    ensures !SafeFrom(w)
  {
    var mark := w.commit.mark;
    var w' := Apply(w, FsyncDone(mark));
    assert !Synced(w', id);
    DrainResolves(w', id);
    Step(w, FsyncDone(mark), w', [Drain] + []);
  }

  /** What happens after a reopen that leaves `current.seg` on another segment, whose file holds `n` records. */
  function Overlooked(w: Log, n: nat): seq<Action> {
    [Write] + ([Register(w.count)] + ([FsyncStart] + ([FsyncDone(n)] + ([Drain] + []))))
  }

  lemma {:induction false} FreshNotSynced(w: Log, id: nat)
    requires Files(w) && id >= w.count
    ensures !Synced(w, id)
  {
    forall f | f in w.files ensures id !in w.files[f][..w.synced[f]] {
      assert id !in w.files[f];
    }
  }

  lemma {:induction false} StaleLink(w: Log)
    requires Files(w) && w.up && w.rotation.Free? && w.commit.Asleep? && w.pending == [] && w.writer in w.files
    requires w.link.Some? && w.link.value != w.writer
    ensures var acts := Overlooked(w, |w.files[w.link.value]|);
            Possible(w, acts) && Guarded(w, acts) && !Durable(Final(w, acts))
  {
    var id, f := w.count, w.link.value;
    var n := |w.files[f]|;
    var w1 := Apply(w, Write);
    var w2 := w1.(waiting := w1.waiting - {id}, pending := [id]);
    var w3 := w2.(commit := Fsyncing(f, n));
    var w4 := w3.(synced := w3.synced[f := Covered(w3, f, n)], commit := Returned);
    assert w1.pending + [id] == [id];
    FreshNotSynced(w, id);
    assert w4.files[w.writer][..w4.synced[w.writer]] == w.files[w.writer][..w.synced[w.writer]];
    assert forall x :: x in w.files ==> id !in w.files[x];
    assert !Synced(w4, id);
    DrainResolves(w4, id);
    hide Files, Synced, Durable;
    Step(w3, FsyncDone(n), w4, [Drain] + []);
    Step(w2, FsyncStart, w3, [FsyncDone(n)] + ([Drain] + []));
    Step(w1, Register(id), w2, [FsyncStart] + ([FsyncDone(n)] + ([Drain] + [])));
    Step(w, Write, w1, [Register(id)] + ([FsyncStart] + ([FsyncDone(n)] + ([Drain] + []))));
  }

  /** Reopening the newest segment is safe exactly when `current.seg` points to it or to nothing. */
  lemma {:induction false} OpenExact(w: Log, last: nat, roll: bool)
    requires Inv(w) && Enabled(w, Open(last, roll))
    ensures SafeFrom(Apply(w, Open(last, roll))) <==> Guard(w, Open(last, roll))
  {
    var w' := Apply(w, Open(last, roll));
    if Guard(w, Open(last, roll)) {
      InvKept(w, Open(last, roll));
      InvSafeFrom(w');
    } else {
      StaleLink(w');
    }
  }

  // ---------------------------------------------------------------- reaching the two cases

  const FIRST: Log := Log(true, map[0 := []], map[0 := 0], Some(0), 0, Free, {}, [], Asleep, [], 0)

  /** A rotation dies between creating the next file and moving the link. */
  const TORN_ROTATION := [OpenEmpty] + ([Seal] + ([CreateNext] + ([Crash] + [])))

  /** The next start reuses the new file and leaves the link on the old one. */
  lemma {:induction false} StaleLinkReachable()
    ensures Possible(EMPTY, TORN_ROTATION) && Guarded(EMPTY, TORN_ROTATION)
    ensures var w := Final(EMPTY, TORN_ROTATION);
            Inv(w) && Enabled(w, Open(1, false)) && !SafeFrom(Apply(w, Open(1, false)))
  {
    var w2 := FIRST.(rotation := Sealed);
    var w3 := w2.(files := map[0 := [], 1 := []], synced := map[0 := 0, 1 := 0], rotation := Created);
    var w4 := w3.(up := false, rotation := Free);
    assert w2.synced == FIRST.synced[0 := 0];
    Nothing(w4);
    Step(w3, Crash, w4, []);
    Step(w2, CreateNext, w3, [Crash] + []);
    Step(FIRST, Seal, w2, [CreateNext] + ([Crash] + []));
    Step(EMPTY, OpenEmpty, FIRST, [Seal] + ([CreateNext] + ([Crash] + [])));
    InvOnRuns(EMPTY, TORN_ROTATION);
    OpenExact(w4, 1, false);
  }

  /** Two appends; the second is written while the fsync for the first is under way. */
  const LATE_WRITE := [OpenEmpty] + ([Write] + ([Register(0)] + ([FsyncStart] + ([Write] + []))))

  const LATE: Log :=
    Log(true, map[0 := [0, 1]], map[0 := 0], Some(0), 0, Free, {1}, [0], Fsyncing(0, 1), [], 2)

  lemma {:induction false} LateReached()
    ensures Possible(EMPTY, LATE_WRITE) && Guarded(EMPTY, LATE_WRITE) && Final(EMPTY, LATE_WRITE) == LATE
  {
    var w2 := FIRST.(files := map[0 := [0]], waiting := {0}, count := 1);
    var w3 := w2.(waiting := {}, pending := [0]);
    var w4 := w3.(commit := Fsyncing(0, 1));
    assert [] + [0] == [0] && [0] + [1] == [0, 1];
    assert FIRST.files[0 := [0]] == w2.files && w4.files[0 := [0, 1]] == LATE.files;
    Nothing(LATE);
    hide Possible, Final, Guarded, Synced, Started;
    Step(w4, Write, LATE, []);
    Step(w3, FsyncStart, w4, [Write] + []);
    Step(w2, Register(0), w3, [FsyncStart] + ([Write] + []));
    Step(FIRST, Write, w2, [Register(0)] + ([FsyncStart] + ([Write] + [])));
    Step(EMPTY, OpenEmpty, FIRST, [Write] + ([Register(0)] + ([FsyncStart] + ([Write] + []))));
  }

  /** The handle of the second is registered before the drain: it is resolved without an fsync. */
  lemma {:induction false} LateRegisterReachable()
    ensures Possible(EMPTY, LATE_WRITE) && Guarded(EMPTY, LATE_WRITE)
    ensures var w := Final(EMPTY, LATE_WRITE);
            Inv(w) && w.commit.Fsyncing? && Enabled(w, Register(1)) && !SafeFrom(Apply(w, Register(1)))
  {
    LateReached();
    InvOnRuns(EMPTY, LATE_WRITE);
    assert LATE.files[0][..1] == [0] && LATE.files[0][..0] == [];
    assert !Synced(LATE, 1) && !Started(LATE, 1);
    hide Possible, Final, Guarded, SafeFrom;
    RegisterExact(LATE, 1);
  }

  // ---------------------------------------------------------------- the queue as an object

  /** The pending handles of the commit loop, and those it has resolved. */
  class FsyncQueue {
    var pending: seq<nat>
    var resolved: seq<nat>
    var fsyncCount: nat

    constructor ()
      ensures pending == resolved == [] && fsyncCount == 0
    {
      pending, resolved, fsyncCount := [], [], 0;
    }

    method Register(id: nat)
      modifies `pending
      ensures pending == old(pending) + [id]
    {
      pending := pending + [id];
    }

    /** Resolve the handles in the order they were registered. */
    method DrainAndNotify()
      modifies `pending, `resolved
      ensures pending == [] && resolved == old(resolved) + old(pending)
    {
      while pending != []
        invariant resolved + pending == old(resolved) + old(pending)
        decreases |pending|
      {
        assert pending == [pending[0]] + pending[1..];
        resolved := resolved + [pending[0]];
        pending := pending[1..];
      }
    }

    /** One turn of the commit loop; the handles in `during` are registered while the fsync is under way. */
    method CommitOnce(fsyncOk: bool, during: seq<nat>)
      modifies this
      ensures resolved + pending == old(resolved) + old(pending) + if old(pending) == [] then [] else during
      ensures if fsyncOk && old(pending) != [] then pending == [] && fsyncCount == old(fsyncCount) + 1
              else resolved == old(resolved) && fsyncCount == old(fsyncCount)
    {
      if pending == [] { return; }
      for i := 0 to |during|
        invariant pending == old(pending) + during[..i] && resolved == old(resolved) && fsyncCount == old(fsyncCount)
      {
        Register(during[i]);
        assert during[..i + 1] == during[..i] + [during[i]];
      }
      assert during[..|during|] == during;
      if fsyncOk {
        fsyncCount := fsyncCount + 1;
        DrainAndNotify();
      }
    }
  }
}
