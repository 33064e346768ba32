/**
  The life of a data file: registered, read under a lease, soft-deleted by retention or compaction,
  unlinked by the reclaimer.  Readers, deleters and any number of reclaim cycles interleave; a cycle lists,
  looks at the lease, unlinks and drops the row in separate steps.
*/
module Lifecycle {
  import opened Lease

  datatype Store = Store(
    ever: set<nat>,              // ids handed out so far
    rows: set<nat>,              // rows of the file list
    deleted: set<nat>,           // ids whose row was marked deleted
    disk: set<nat>,              // ids whose bytes are there
    counts: Counts,
    held: multiset<nat>,
    releasing: multiset<nat>,
    listed: set<nat>,            // what some cycle has listed
    chosen: multiset<nat>,       // found unleased by a cycle that is about to unlink it
    unlinked: set<nat>)          // unlinked by some cycle

  const EMPTY: Store := Store({}, {}, {}, {}, map[], multiset{}, multiset{}, {}, multiset{}, {})

  datatype Action =
    | AddFile(id: nat)
    | MarkDeleted(ids: set<nat>)
    | ListAndAcquire(id: nat)     // a reader lists a row that is not deleted and leases it in one step
    | LateAcquire(id: nat)        // a reader leases a row it listed some time ago
    | Decrement(id: nat) | RemoveIfZero(id: nat)
    | ReclaimList | ReclaimLook(id: nat) | Unlink(id: nat) | UnlinkFail(id: nat) | Commit(ids: set<nat>)

  predicate Enabled(s: Store, a: Action) {
    match a
    case AddFile(id) => id !in s.ever
    case MarkDeleted(ids) => ids <= s.rows
    case ListAndAcquire(id) => id in s.rows && id !in s.deleted
    case LateAcquire(id) => id in s.ever
    case Decrement(id) => id in s.held
    case RemoveIfZero(id) => id in s.releasing
    case ReclaimList => true
    case ReclaimLook(id) => id in s.listed
    case Unlink(id) => id in s.chosen
    case UnlinkFail(id) => id in s.chosen
    case Commit(ids) => ids <= s.unlinked
  }

  function Apply(s: Store, a: Action): Store
    requires Enabled(s, a)
  {
    match a
    case AddFile(id) => s.(ever := s.ever + {id}, rows := s.rows + {id}, disk := s.disk + {id})
    case MarkDeleted(ids) => s.(deleted := s.deleted + ids)
    case ListAndAcquire(id) => s.(counts := Incremented(s.counts, id), held := s.held + multiset{id})
    case LateAcquire(id) => s.(counts := Incremented(s.counts, id), held := s.held + multiset{id})
    case Decrement(id) =>
      var counts := Decremented(s.counts, id);
      s.(counts := counts, held := s.held - multiset{id},
         releasing := if id in counts && counts[id] == 0 then s.releasing + multiset{id} else s.releasing)
    case RemoveIfZero(id) =>
      s.(counts := RemovedIfZero(s.counts, id), releasing := s.releasing - multiset{id})
    case ReclaimList => s.(listed := s.listed + s.rows * s.deleted)
    case ReclaimLook(id) => if Leased(s.counts, id) then s else s.(chosen := s.chosen + multiset{id})
    case Unlink(id) => s.(disk := s.disk - {id}, unlinked := s.unlinked + {id}, chosen := s.chosen - multiset{id})
    case UnlinkFail(id) => s.(chosen := s.chosen - multiset{id})
    case Commit(ids) => s.(rows := s.rows - ids)
  }

  predicate Possible(s: Store, acts: seq<Action>)
    decreases |acts|
  {
    acts == [] || (Enabled(s, acts[0]) && Possible(Apply(s, acts[0]), acts[1..]))
  }

  function Final(s: Store, acts: seq<Action>): Store
    requires Possible(s, acts)
    decreases |acts|
  {
    if acts == [] then s else Final(Apply(s, acts[0]), acts[1..])
  }

  // ---------------------------------------------------------------- safety

  /** Every file under a lease still has its bytes. */
  ghost predicate LeasedFilesPresent(s: Store) {
    forall id :: id in s.held ==> id in s.disk
  }

  /** The counts are exact, so the reclaimer's look sees every live lease. */
  ghost predicate CountsExact(s: Store) {
    && (forall id :: CountOf(s.counts, id) == s.held[id])
    && (forall id :: id in s.counts && s.counts[id] == 0 ==> id in s.releasing)
  }

  /** A lease taken after the listing is safe while the bytes are there and no cycle has chosen the file. */
  predicate Guard(s: Store, a: Action) {
    match a
    case LateAcquire(id) => id in s.disk && id !in s.chosen
    case _ => true
  }

  predicate Guarded(s: Store, acts: seq<Action>)
    requires Possible(s, acts)
    decreases |acts|
  {
    acts == [] || (Guard(s, acts[0]) && Guarded(Apply(s, acts[0]), acts[1..]))
  }

  /** Under every interleaving of acquires with the two steps of a release. */
  lemma {:induction false} CountsKept(s: Store, a: Action)
    requires CountsExact(s) && Enabled(s, a)
    ensures CountsExact(Apply(s, a))
  {
    var s' := Apply(s, a);
    match a {
      case RemoveIfZero(id) => RemovalKept(s, id);
      case Decrement(id) => assert CountOf(s.counts, id) == s.held[id];
      case _ =>
    }
  }

  lemma {:induction false} RemovalKept(s: Store, id: nat)
    requires CountsExact(s) && Enabled(s, RemoveIfZero(id))
    ensures CountsExact(Apply(s, RemoveIfZero(id)))
  {}

  /** What the invariant says of files and rows. */
  ghost predicate FilesAgree(s: Store) {
    && LeasedFilesPresent(s)
    && s.rows <= s.ever && s.deleted <= s.ever && s.disk <= s.ever
    && (forall id :: id in s.rows && id !in s.deleted ==> id in s.disk)
    && s.listed <= s.deleted && s.unlinked <= s.deleted
    && (forall id :: id in s.chosen ==> id in s.deleted && id !in s.held)
  }

  ghost predicate Inv(s: Store) {
    CountsExact(s) && FilesAgree(s)
  }

  lemma {:induction false} ReadersKeep(s: Store, a: Action)
    requires FilesAgree(s) && Enabled(s, a) && Guard(s, a)
    requires a.ListAndAcquire? || a.LateAcquire? || a.Decrement? || a.RemoveIfZero?
    ensures FilesAgree(Apply(s, a))
  {
    hide Incremented, Decremented, RemovedIfZero;
  }

  lemma {:induction false} RowsKeep(s: Store, a: Action)
    requires FilesAgree(s) && Enabled(s, a) && (a.AddFile? || a.MarkDeleted? || a.ReclaimList? || a.Commit?)
    ensures FilesAgree(Apply(s, a))
  {}

  lemma {:induction false} CyclesKeep(s: Store, a: Action)
    requires Inv(s) && Enabled(s, a) && (a.ReclaimLook? || a.Unlink? || a.UnlinkFail?)
    ensures FilesAgree(Apply(s, a))
  {
    if a.ReclaimLook? { assert CountOf(s.counts, a.id) == s.held[a.id]; }
    hide CountsExact;
  }

  lemma {:induction false} InvKept(s: Store, a: Action)
    requires Inv(s) && Enabled(s, a) && Guard(s, a)
    ensures Inv(Apply(s, a))
  {
    CountsKept(s, a);
    hide CountsExact, FilesAgree, Enabled, Apply;
    match a {
      case AddFile(_) => RowsKeep(s, a);
      case MarkDeleted(_) => RowsKeep(s, a);
      case ReclaimList => RowsKeep(s, a);
      case Commit(_) => RowsKeep(s, a);
      case ListAndAcquire(_) => ReadersKeep(s, a);
      case LateAcquire(_) => ReadersKeep(s, a);
      case Decrement(_) => ReadersKeep(s, a);
      case RemoveIfZero(_) => ReadersKeep(s, a);
      case ReclaimLook(_) => CyclesKeep(s, a);
      case Unlink(_) => CyclesKeep(s, a);
      case UnlinkFail(_) => CyclesKeep(s, a);
    }
  }

  lemma {:induction false} InvOnRuns(s: Store, acts: seq<Action>)
    requires Inv(s) && Possible(s, acts) && Guarded(s, acts)
    ensures Inv(Final(s, acts))
    decreases |acts|
  {
    if acts != [] {
      InvKept(s, acts[0]);
      InvOnRuns(Apply(s, acts[0]), acts[1..]);
    }
  }

  /** In every guarded run no leased file is gone. */
  lemma {:induction false} NoLeasedFileReclaimed(acts: seq<Action>)
    requires Possible(EMPTY, acts) && Guarded(EMPTY, acts)
    ensures LeasedFilesPresent(Final(EMPTY, acts))
  {
    InvOnRuns(EMPTY, acts);
  }

  /** Counts are exact in every run, late acquires included: a file counts as leased exactly while a guard lives. */
  lemma {:induction false} LeasedMeansHeld(s: Store, acts: seq<Action>, id: nat)
    requires CountsExact(s) && Possible(s, acts)
    ensures CountsExact(Final(s, acts))
    ensures Leased(Final(s, acts).counts, id) <==> id in Final(s, acts).held
    decreases |acts|
  {
    if acts == [] {
      assert CountOf(s.counts, id) == s.held[id];
    } else {
      CountsKept(s, acts[0]);
      LeasedMeansHeld(Apply(s, acts[0]), acts[1..], id);
    }
  }

  // ---------------------------------------------------------------- the guard is exact

  ghost predicate SafeFrom(s: Store) {
    forall acts :: Possible(s, acts) && Guarded(s, acts) ==> LeasedFilesPresent(Final(s, acts))
  }

  lemma {:induction false} One(s: Store, a: Action)
    requires Enabled(s, a)
    ensures Possible(s, [a]) && Final(s, [a]) == Apply(s, a)
    ensures Guarded(s, [a]) <==> Guard(s, a)
  {
    assert [a][1..] == [];
  }

  /** A late lease keeps every continuation safe exactly when the bytes are there and not about to go. */
  lemma {:induction false} LateAcquireExact(s: Store, id: nat)
    requires Inv(s) && Enabled(s, LateAcquire(id))
    ensures SafeFrom(Apply(s, LateAcquire(id))) <==> Guard(s, LateAcquire(id))
  {
    var s' := Apply(s, LateAcquire(id));
    if Guard(s, LateAcquire(id)) {
      InvKept(s, LateAcquire(id));
      forall acts | Possible(s', acts) && Guarded(s', acts) ensures LeasedFilesPresent(Final(s', acts)) {
        InvOnRuns(s', acts);
      }
    } else {
      assert id in s'.held;
      if id in s.chosen {
        One(s', Unlink(id));
      } else {
        assert Possible(s', []) && Guarded(s', []) && Final(s', []) == s';
      }
    }
  }

  /** A row marked deleted is never listed for a reader again, and bytes that are gone stay gone. */
  lemma {:induction false} DeletedIsForever(s: Store, acts: seq<Action>, id: nat)
    requires Possible(s, acts) && id in s.deleted && id in s.ever
    ensures id in Final(s, acts).deleted && (id !in s.disk ==> id !in Final(s, acts).disk)
    decreases |acts|
  {
    if acts != [] { DeletedIsForever(Apply(s, acts[0]), acts[1..], id); }
  }

  // ---------------------------------------------------------------- reaching the unsafe lease

  lemma {:induction false} Step(s: Store, a: Action, more: seq<Action>)
    requires Enabled(s, a) && Possible(Apply(s, a), more)
    ensures Possible(s, [a] + more) && Final(s, [a] + more) == Final(Apply(s, a), more)
  {
    assert ([a] + more)[1..] == more;
  }

  /** The file is soft-deleted and found unleased after a reader listed it and before it leases it. */
  const RACE := [AddFile(0)] + ([MarkDeleted({0})] + ([ReclaimList] +
          ([ReclaimLook(0)] + ([LateAcquire(0)] + [Unlink(0)]))))

  lemma {:induction false} RaceReachable()
    ensures Possible(EMPTY, RACE) && !LeasedFilesPresent(Final(EMPTY, RACE))
  {
    var s1 := Apply(EMPTY, AddFile(0));
    var s2 := Apply(s1, MarkDeleted({0}));
    var s3 := Apply(s2, ReclaimList);
    assert 0 in s3.listed;
    var s4 := Apply(s3, ReclaimLook(0));
    var s5 := Apply(s4, LateAcquire(0));
    One(s5, Unlink(0));
    assert 0 in Apply(s5, Unlink(0)).held && 0 !in Apply(s5, Unlink(0)).disk;
    hide Possible, Final;
    Step(s4, LateAcquire(0), [Unlink(0)]);
    Step(s3, ReclaimLook(0), [LateAcquire(0)] + [Unlink(0)]);
    Step(s2, ReclaimList, [ReclaimLook(0)] + ([LateAcquire(0)] + [Unlink(0)]));
    Step(s1, MarkDeleted({0}), [ReclaimList] + ([ReclaimLook(0)] + ([LateAcquire(0)] + [Unlink(0)])));
    Step(EMPTY, AddFile(0), [MarkDeleted({0})] + ([ReclaimList] +
      ([ReclaimLook(0)] + ([LateAcquire(0)] + [Unlink(0)]))));
  }
}
