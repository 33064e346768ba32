/**
  Retention: soft deletion of expired files, and the reclaim cycle that unlinks them, accounts for the freed
  bytes and drops their rows.  Cycles may overlap: the background loop and the administrator's call share one
  reclaimer.
*/
module Retention {
  import opened Usage
  import opened Books
  import Lease

  // ---------------------------------------------------------------- one cycle among others

  datatype Env = Env(leased: set<nat>, storage: bool)

  /**
    One workspace of a cycle: `gone` are bytes that other cycles have unlinked by then, `refused` deletes that
    fail, `others` what happens to file list and ledger before the commit.
  */
  datatype Turn = Turn(workspace: nat, gone: set<nat>, refused: set<nat>, others: seq<Step>, commits: bool)

  function Found(env: Env, disk: set<nat>, t: Turn): Cycle {
    Cycle(env.leased, disk - t.gone, env.storage, t.refused)
  }

  function TurnSteps(taken: seq<FileRow>, t: Turn): seq<Step> {
    t.others + if t.commits && taken != [] then [Commit(taken)] else []
  }

  function DiskAfter(listed: seq<FileRow>, env: Env, disk: set<nat>, turns: seq<Turn>): set<nat> {
    if turns == [] then disk else
      var init, last := turns[..|turns| - 1], turns[|turns| - 1];
      var c := Found(env, DiskAfter(listed, env, disk, init), last);
      c.disk - Cleared(listed, c, {last.workspace})
  }

  /** All that happens to file list and ledger while the cycle runs. */
  function Steps(listed: seq<FileRow>, env: Env, disk: set<nat>, turns: seq<Turn>): seq<Step> {
    if turns == [] then [] else
      var init, last := turns[..|turns| - 1], turns[|turns| - 1];
      var c := Found(env, DiskAfter(listed, env, disk, init), last);
      Steps(listed, env, disk, init) + TurnSteps(Reclaimed(listed, c, {last.workspace}), last)
  }

  datatype Stats = Stats(reclaimed: nat, skippedLeased: nat)

  function Work(listed: seq<FileRow>, env: Env, disk: set<nat>, turns: seq<Turn>): Stats {
    if turns == [] then Stats(0, 0) else
      var init, last := turns[..|turns| - 1], turns[|turns| - 1];
      var c := Found(env, DiskAfter(listed, env, disk, init), last);
      var w := Work(listed, env, disk, init);
      Stats(w.reclaimed + |Reclaimed(listed, c, {last.workspace})|,
            w.skippedLeased + Skipped(listed, c, {last.workspace}))
  }

  lemma {:induction false} TurnNext(listed: seq<FileRow>, env: Env, disk: set<nat>, turns: seq<Turn>, i: nat)
    requires i < |turns|
    ensures var t, c := turns[i], Found(env, DiskAfter(listed, env, disk, turns[..i]), turns[i]);
            && DiskAfter(listed, env, disk, turns[..i + 1]) == c.disk - Cleared(listed, c, {t.workspace})
            && Steps(listed, env, disk, turns[..i + 1]) ==
                 Steps(listed, env, disk, turns[..i]) + TurnSteps(Reclaimed(listed, c, {t.workspace}), t)
            && Work(listed, env, disk, turns[..i + 1]) ==
                 Stats(Work(listed, env, disk, turns[..i]).reclaimed + |Reclaimed(listed, c, {t.workspace})|,
                       Work(listed, env, disk, turns[..i]).skippedLeased + Skipped(listed, c, {t.workspace}))
  {
    assert turns[..i + 1][..i] == turns[..i];
  }

  lemma {:induction false} RunConcat(b: Books, steps: seq<Step>, more: seq<Step>)
    ensures Run(b, steps + more) == Run(Run(b, steps), more)
  {
    hide After;
    if more == [] {
      assert steps + more == steps;
    } else {
      assert (steps + more)[..|steps + more| - 1] == steps + more[..|more| - 1];
      RunConcat(b, steps, more[..|more| - 1]);
    }
  }

  lemma {:induction false} RunOne(b: Books, st: Step)
    ensures Run(b, [st]) == After(b, st)
  {
    assert [st][..0] == [];
  }

  lemma {:induction false} RunTurn(b: Books, steps: seq<Step>, taken: seq<FileRow>, t: Turn)
    ensures var m := Run(Run(b, steps), t.others);
            Run(b, steps + TurnSteps(taken, t)) == if t.commits && taken != [] then After(m, Commit(taken)) else m
  {
    hide After;
    RunConcat(b, steps, TurnSteps(taken, t));
    if t.commits && taken != [] {
      RunConcat(Run(b, steps), t.others, [Commit(taken)]);
      RunOne(Run(Run(b, steps), t.others), Commit(taken));
    } else {
      assert t.others + [] == t.others;
    }
  }

  /** What others do before each commit is honest. */
  ghost predicate OthersHonest(b: Books, env: Env, disk: set<nat>, turns: seq<Turn>) {
    forall i :: 0 <= i < |turns| ==> Honest(Run(b, Steps(b.rows, env, disk, turns[..i])), turns[i].others)
  }

  lemma {:induction false} HonestConcat(b: Books, steps: seq<Step>, more: seq<Step>)
    requires Honest(b, steps) && Honest(Run(b, steps), more)
    ensures Honest(b, steps + more)
  {
    hide AsListed, After;
    if more == [] {
      assert steps + more == steps;
    } else {
      var init := more[..|more| - 1];
      assert (steps + more)[..|steps + more| - 1] == steps + init;
      HonestConcat(b, steps, init);
      RunConcat(b, steps, init);
    }
  }

  lemma {:induction false} ListedNow(b: Books, c: Cycle, ws: set<nat>)
    requires WellKept(b)
    ensures AsListed(b, Reclaimed(b.rows, c, ws))
  {
    ReclaimedMembers(b.rows, c, ws);
    ReclaimedDistinct(b.rows, c, ws);
    forall r, x | r in Reclaimed(b.rows, c, ws) && x in b.rows && x.id == r.id ensures SameUsage(x, r) {
      SameRow(b.rows, x, r);
    }
  }

  lemma {:induction false} ReclaimedDistinct(rows: seq<FileRow>, c: Cycle, ws: set<nat>)
    requires DistinctIds(rows)
    ensures DistinctIds(Reclaimed(rows, c, ws))
  {
    if rows != [] {
      var init, last := rows[..|rows| - 1], rows[|rows| - 1];
      assert DistinctIds(init);
      ReclaimedDistinct(init, c, ws);
      ReclaimedMembers(init, c, ws);
      forall k | 0 <= k < |Reclaimed(init, c, ws)| ensures Reclaimed(init, c, ws)[k].id != last.id {
        assert Reclaimed(init, c, ws)[k] in init;
      }
    }
  }

  /** A cycle commits what it listed at its start, however much happens in between. */
  lemma {:induction false} CycleHonest(b: Books, env: Env, disk: set<nat>, turns: seq<Turn>)
    requires WellKept(b) && OthersHonest(b, env, disk, turns)
    ensures Honest(b, Steps(b.rows, env, disk, turns))
  {
    hide WellKept, AsListed, Reclaimed, After, DiskAfter, Run;
    if turns != [] {
      var init, last := turns[..|turns| - 1], turns[|turns| - 1];
      forall i | 0 <= i < |init| ensures Honest(Run(b, Steps(b.rows, env, disk, init[..i])), init[i].others) {
        assert turns[..i] == init[..i];
      }
      CycleHonest(b, env, disk, init);
      var taken := Reclaimed(b.rows, Found(env, DiskAfter(b.rows, env, disk, init), last), {last.workspace});
      ListedNow(b, Found(env, DiskAfter(b.rows, env, disk, init), last), {last.workspace});
      HonestTurn(b, Steps(b.rows, env, disk, init), taken, last);
    }
  }

  lemma {:induction false} HonestTurn(b: Books, steps: seq<Step>, taken: seq<FileRow>, t: Turn)
    requires WellKept(b) && AsListed(b, taken) && Honest(b, steps) && Honest(Run(b, steps), t.others)
    ensures Honest(b, steps + TurnSteps(taken, t))
  {
    hide WellKept, AsListed, After, Run;
    HonestConcat(b, steps, t.others);
    if t.commits && taken != [] {
      var before := steps + t.others;
      RunKeepsListed(b, before, taken);
      assert (before + [Commit(taken)])[..|before|] == before;
      assert steps + TurnSteps(taken, t) == before + [Commit(taken)];
    } else {
      assert steps + TurnSteps(taken, t) == steps + t.others;
    }
  }

  /**
    A cycle that overlaps others conserves usage, together with them, exactly if every id that any of them
    commits is still listed by then.
  */
  lemma {:induction false} CycleExact(b: Books, env: Env, disk: set<nat>, turns: seq<Turn>)
    requires WellKept(b) && b.track && OthersHonest(b, env, disk, turns)
    ensures var steps := Steps(b.rows, env, disk, turns);
            (forall key, m :: Held(Run(b, steps), key, m) == Held(b, key, m) + Total(Registered(b, steps), key, m)) <==>
            EachListed(b, steps)
  {
    hide WellKept, OthersHonest, Honest, Steps, EachListed, Held, Registered, Run;
    CycleHonest(b, env, disk, turns);
    HistoryExact(b, Steps(b.rows, env, disk, turns));
  }

  const TWICE := FileRow(0, 0, 0, 5, 0, false, true)

  /** Two overlapping cycles list the same file; the second finds its bytes gone, and both record it. */
  lemma {:induction false} CountedTwice()
    ensures var b, t := Books([TWICE], 1, map[], true), Turn(0, {0}, {}, [Commit([TWICE])], true);
            var steps := Steps(b.rows, Env({}, false), {0}, [t]);
            && WellKept(b) && OthersHonest(b, Env({}, false), {0}, [t]) && !EachListed(b, steps)
            && Held(b, Key(0, 0), InBytes) == 5 && Held(Run(b, steps), Key(0, 0), InBytes) == 10
  {
    var b, t := Books([TWICE], 1, map[], true), Turn(0, {0}, {}, [Commit([TWICE])], true);
    var c := Cycle({}, {}, false, {});
    assert [t][..0] == [] && [TWICE][..0] == [] && {0} - {0} == {};
    assert Found(Env({}, false), {0}, t) == c;
    assert Reclaimed([TWICE], c, {0}) == [TWICE];
    assert TurnSteps([TWICE], t) == [Commit([TWICE]), Commit([TWICE])];
    assert Steps(b.rows, Env({}, false), {0}, [t]) == [Commit([TWICE]), Commit([TWICE])];
    TwoCommits(b);
  }

  lemma {:induction false} TwoCommits(b: Books)
    requires b == Books([TWICE], 1, map[], true)
    ensures WellKept(b) && Honest(b, [Commit([TWICE])]) && !EachListed(b, [Commit([TWICE]), Commit([TWICE])])
    ensures Held(b, Key(0, 0), InBytes) == 5
    ensures Held(Run(b, [Commit([TWICE]), Commit([TWICE])]), Key(0, 0), InBytes) == 10
  {
    var one := [Commit([TWICE])];
    assert one[..0] == [] && [Commit([TWICE]), Commit([TWICE])][..1] == one && [TWICE][..0] == [];
    RunOne(b, Commit([TWICE]));
    assert Ids([TWICE]) == {0} by { IdsNext([], TWICE); }
    assert Without([TWICE], {0}) == [];
    assert Run(b, one).rows == [];
    assert Total([TWICE], Key(0, 0), InBytes) == 5;
    assert Lapsed([], [TWICE]) == [TWICE];
    CommitHeld(b, [TWICE], Key(0, 0), InBytes);
    assert Lapsed([TWICE], [TWICE]) == [];
    StepKeeps(b, Commit([TWICE]));
    CommitHeld(Run(b, one), [TWICE], Key(0, 0), InBytes);
  }

  // ---------------------------------------------------------------- a cycle nobody disturbs

  lemma {:induction false} NoWorkspaces(rows: seq<FileRow>, c: Cycle)
    ensures Kept(rows, c, {}) == rows && Reclaimed(rows, c, {}) == [] && Skipped(rows, c, {}) == 0
  {
    if rows != [] { NoWorkspaces(rows[..|rows| - 1], c); }
  }

  lemma {:induction false} ReclaimedSize(rows: seq<FileRow>, c: Cycle, ws: set<nat>, w: nat)
    requires w !in ws
    ensures |Reclaimed(rows, c, ws + {w})| == |Reclaimed(rows, c, ws)| + |Reclaimed(rows, c, {w})|
    ensures Skipped(rows, c, ws + {w}) == Skipped(rows, c, ws) + Skipped(rows, c, {w})
  {
    if rows != [] {
      ReclaimedSize(rows[..|rows| - 1], c, ws, w);
      TakenApart(c, rows[|rows| - 1], ws, w);
    }
  }

  lemma {:induction false} SweepsAdd(rows: seq<FileRow>, c: Cycle, done: set<nat>, w: nat)
    requires w !in done
    ensures Cleared(rows, c, done + {w}) == Cleared(rows, c, done) + Cleared(rows, c, {w})
    ensures |Reclaimed(rows, c, done + {w})| == |Reclaimed(rows, c, done)| + |Reclaimed(rows, c, {w})|
    ensures Skipped(rows, c, done + {w}) == Skipped(rows, c, done) + Skipped(rows, c, {w})
  {
    ReclaimedSize(rows, c, done, w);
    hide Taken, Reclaimed;
    forall r ensures Taken(c, r, done + {w}) <==> Taken(c, r, done) || Taken(c, r, {w}) { TakenApart(c, r, done, w); }
  }

  /** The workspaces of a cycle, and those whose commit succeeds. */
  function Spaces(turns: seq<Turn>): set<nat> {
    if turns == [] then {} else Spaces(turns[..|turns| - 1]) + {turns[|turns| - 1].workspace}
  }

  function Committed(turns: seq<Turn>): set<nat> {
    if turns == [] then {} else
      Committed(turns[..|turns| - 1]) + if turns[|turns| - 1].commits then {turns[|turns| - 1].workspace} else {}
  }

  /** Nobody does anything meanwhile, each workspace has one turn, and the same deletes fail throughout. */
  predicate Undisturbed(turns: seq<Turn>, refused: set<nat>) {
    turns == [] ||
      var init, last := turns[..|turns| - 1], turns[|turns| - 1];
      && Undisturbed(init, refused) && last.workspace !in Spaces(init)
      && last.gone == {} && last.others == [] && last.refused == refused
  }

  lemma {:induction false} CommittedSpaces(turns: seq<Turn>)
    ensures Committed(turns) <= Spaces(turns)
  {
    if turns != [] { CommittedSpaces(turns[..|turns| - 1]); }
  }

  /** Two cycles that agree on every row take the same. */
  lemma {:induction false} SameTaken(rows: seq<FileRow>, c: Cycle, c': Cycle, ws: set<nat>)
    requires c.leased == c'.leased && c.storage == c'.storage
    requires forall r :: r in rows ==> (Taken(c, r, ws) <==> Taken(c', r, ws))
    ensures Reclaimed(rows, c, ws) == Reclaimed(rows, c', ws) && Cleared(rows, c, ws) == Cleared(rows, c', ws)
    ensures Skipped(rows, c, ws) == Skipped(rows, c', ws)
  {
    hide Taken;
    if rows != [] {
      assert rows == rows[..|rows| - 1] + [rows[|rows| - 1]];
      SameTaken(rows[..|rows| - 1], c, c', ws);
    }
  }

  /** Unlinking files of other workspaces has not touched this one's. */
  lemma {:induction false} StillTaken(rows: seq<FileRow>, c: Cycle, done: set<nat>, w: nat)
    requires DistinctIds(rows) && w !in done
    ensures var c' := c.(disk := c.disk - Cleared(rows, c, done));
            && Reclaimed(rows, c', {w}) == Reclaimed(rows, c, {w}) && Cleared(rows, c', {w}) == Cleared(rows, c, {w})
            && Skipped(rows, c', {w}) == Skipped(rows, c, {w})
  {
    var c' := c.(disk := c.disk - Cleared(rows, c, done));
    forall r | r in rows ensures Taken(c', r, {w}) <==> Taken(c, r, {w}) {
      if r.workspace == w && r.id in Cleared(rows, c, done) {
        var x :| x in rows && Taken(c, x, done) && x.id == r.id;
        SameRow(rows, x, r);
        assert false;
      }
    }
    SameTaken(rows, c', c, {w});
  }

  /** What the commit of one workspace, if it happens, does to the list and the ledger. */
  lemma {:induction false} CommitEffect(rows: seq<FileRow>, c: Cycle, done: set<nat>, w: nat, ledger: map<Key, Usage>)
    requires DistinctIds(rows) && w !in done
    ensures var taken := Reclaimed(rows, c, {w});
            && Without(Kept(rows, c, done), Ids(taken)) == Kept(rows, c, done + {w})
            && (taken == [] ==> Kept(rows, c, done) == Kept(rows, c, done + {w}))
            && forall key, m ::
                 && At(Merged(ledger, Deltas(taken)), key, m) == At(ledger, key, m) + Total(taken, key, m)
                 && Total(Reclaimed(rows, c, done + {w}), key, m) ==
                      Total(Reclaimed(rows, c, done), key, m) + Total(taken, key, m)
                 && (taken == [] ==> Total(taken, key, m) == 0)
  {
    hide Kept, Reclaimed, Total, At, Merged, Without, Taken, Deltas, Ids;
    var taken := Reclaimed(rows, c, {w});
    assert rows[..|rows|] == rows;
    DropNext(rows, c, done, w, |rows|);
    if taken == [] {
      NoIds(rows);
      WithoutNone(Kept(rows, c, done));
    }
    forall key, m
      ensures At(Merged(ledger, Deltas(taken)), key, m) == At(ledger, key, m) + Total(taken, key, m)
      ensures Total(Reclaimed(rows, c, done + {w}), key, m) ==
                Total(Reclaimed(rows, c, done), key, m) + Total(taken, key, m)
      ensures taken == [] ==> Total(taken, key, m) == 0
    {
      MergedAt(ledger, Deltas(taken), key, m);
      DeltasAt(taken, key, m);
      OneMore(rows, c, done, w, key, m);
      NothingTotal(key, m);
    }
  }

  /** File list and ledger once the workspaces in `done` are committed. */
  ghost predicate BooksAt(b: Books, c: Cycle, done: set<nat>, b': Books) {
    && b'.rows == Kept(b.rows, c, done)
    && (forall key, m :: At(b'.ledger, key, m) ==
          At(b.ledger, key, m) + if b.track then Total(Reclaimed(b.rows, c, done), key, m) else 0)
    && b'.track == b.track && b'.nextId == b.nextId
  }

  /** Disk and statistics once the workspaces in `all` are swept. */
  predicate DiskAt(rows: seq<FileRow>, c: Cycle, all: set<nat>, disk: set<nat>, work: Stats) {
    disk == c.disk - Cleared(rows, c, all) && work == Stats(|Reclaimed(rows, c, all)|, Skipped(rows, c, all))
  }

  lemma {:induction false} BooksTurn(b: Books, c: Cycle, done: set<nat>, w: nat, b': Books)
    requires DistinctIds(b.rows) && w !in done && BooksAt(b, c, done, b')
    ensures var taken := Reclaimed(b.rows, c, {w});
            BooksAt(b, c, done + {w}, if taken != [] then After(b', Commit(taken)) else b')
  {
    CommitEffect(b.rows, c, done, w, b'.ledger);
    hide Kept, Reclaimed, Total, At, Merged, Without, Taken, Deltas, DistinctIds, Ids;
  }

  lemma {:induction false} DiskTurn(rows: seq<FileRow>, c: Cycle, all: set<nat>, w: nat, disk: set<nat>, work: Stats)
    requires DistinctIds(rows) && w !in all && DiskAt(rows, c, all, disk, work)
    ensures var c', taken := c.(disk := disk), Reclaimed(rows, c, {w});
            && Reclaimed(rows, c', {w}) == taken
            && DiskAt(rows, c, all + {w}, disk - Cleared(rows, c', {w}),
                      Stats(work.reclaimed + |taken|, work.skippedLeased + Skipped(rows, c', {w})))
  {
    StillTaken(rows, c, all, w);
    SweepsAdd(rows, c, all, w);
    hide Reclaimed, Taken, Cleared, Skipped, DistinctIds;
  }

  lemma {:induction false} CycleRuns(b: Books, env: Env, disk: set<nat>, turns: seq<Turn>, refused: set<nat>)
    requires DistinctIds(b.rows) && Undisturbed(turns, refused)
    ensures var c := Cycle(env.leased, disk, env.storage, refused);
            && BooksAt(b, c, Committed(turns), Run(b, Steps(b.rows, env, disk, turns)))
            && DiskAt(b.rows, c, Spaces(turns), DiskAfter(b.rows, env, disk, turns), Work(b.rows, env, disk, turns))
  {
    var c := Cycle(env.leased, disk, env.storage, refused);
    hide BooksAt, DiskAt, Reclaimed, Cleared, Skipped, After, DistinctIds;
    if turns == [] {
      CycleBegins(b, c);
    } else {
      var init, last := turns[..|turns| - 1], turns[|turns| - 1];
      var w, steps, d := last.workspace, Steps(b.rows, env, disk, init), DiskAfter(b.rows, env, disk, init);
      CycleRuns(b, env, disk, init, refused);
      CommittedSpaces(init);
      assert Found(env, d, last) == c.(disk := d) by { assert d - {} == d; }
      DiskTurn(b.rows, c, Spaces(init), w, d, Work(b.rows, env, disk, init));
      BooksTurn(b, c, Committed(init), w, Run(b, steps));
      RunTurn(b, steps, Reclaimed(b.rows, c, {w}), last);
      hide Run, Steps;
      EmptyRun(Run(b, steps));
      TurnsEnd(b, env, disk, turns);
      assert Committed(init) + {} == Committed(init);
    }
  }

  lemma {:induction false} TurnsEnd(b: Books, env: Env, disk: set<nat>, turns: seq<Turn>)
    requires turns != []
    ensures var init, last := turns[..|turns| - 1], turns[|turns| - 1];
            var c := Found(env, DiskAfter(b.rows, env, disk, init), last);
            Steps(b.rows, env, disk, turns) ==
              Steps(b.rows, env, disk, init) + TurnSteps(Reclaimed(b.rows, c, {last.workspace}), last)
  {}

  lemma {:induction false} CycleBegins(b: Books, c: Cycle)
    ensures BooksAt(b, c, {}, b) && DiskAt(b.rows, c, {}, c.disk, Stats(0, 0))
  {
    NoWorkspaces(b.rows, c);
    forall key, m ensures Total([], key, m) == 0 { NothingTotal(key, m); }
    assert Cleared(b.rows, c, {}) == {};
  }

  lemma {:induction false} EmptyRun(b: Books)
    ensures Run(b, []) == b
  {}

  /**
    Alone, a cycle drops exactly the rows it took in the workspaces whose commit succeeded, records exactly
    their usage, and conserves recorded plus listed usage: what fails is counted by a later cycle, once.
  */
  lemma {:induction false} UndisturbedCycle(b: Books, env: Env, disk: set<nat>, turns: seq<Turn>, refused: set<nat>)
    requires WellKept(b) && Undisturbed(turns, refused)
    ensures var c, b' := Cycle(env.leased, disk, env.storage, refused), Run(b, Steps(b.rows, env, disk, turns));
            && b'.rows == Kept(b.rows, c, Committed(turns))
            && (forall key, m :: At(b'.ledger, key, m) ==
                  At(b.ledger, key, m) + if b.track then Total(Reclaimed(b.rows, c, Committed(turns)), key, m) else 0)
            && (b.track ==> forall key, m :: Held(b', key, m) == Held(b, key, m))
            && DiskAfter(b.rows, env, disk, turns) == disk - Cleared(b.rows, c, Spaces(turns))
            && Work(b.rows, env, disk, turns) ==
                 Stats(|Reclaimed(b.rows, c, Spaces(turns))|, Skipped(b.rows, c, Spaces(turns)))
  {
    var c := Cycle(env.leased, disk, env.storage, refused);
    DistinctListing(b);
    CycleRuns(b, env, disk, turns, refused);
    hide Kept, Reclaimed, Total, Cleared, Skipped, At, Steps, Run, DiskAfter, Work, WellKept;
    forall key, m
      ensures Total(Kept(b.rows, c, Committed(turns)), key, m) + Total(Reclaimed(b.rows, c, Committed(turns)), key, m)
                == Total(b.rows, key, m)
    {
      Accounted(b.rows, c, Committed(turns), key, m);
    }
  }

  // ---------------------------------------------------------------- what becomes of a file

  /** Ids and bytes a sweep takes, by the fields of the rows: only a refused delete keeps what could be deleted. */
  lemma {:induction false} SweepFields(listed: seq<FileRow>, c: Cycle, w: nat)
    ensures forall id :: id in Ids(Reclaimed(listed, c, {w})) <==>
              exists r :: r in listed && r.id == id && r.deleted && r.workspace == w && r.id !in c.leased
                          && !(r.id in c.refused && (if r.remote then c.storage else r.id in c.disk))
    ensures forall id :: id in c.disk - Cleared(listed, c, {w}) <==>
              id in c.disk && !exists r :: r in listed && r.id == id && r.deleted && r.workspace == w
                                           && r.id !in c.leased && r.id !in c.refused && (r.remote ==> c.storage)
  {
    ReclaimedMembers(listed, c, {w});
  }

  /** One turn of a cycle, whatever others do before its commit: which rows and which bytes are left. */
  lemma {:induction false} TurnFate(b: Books, listed: seq<FileRow>, env: Env, disk: set<nat>, t: Turn)
    ensures var c := Found(env, disk, t);
            var taken, m := Reclaimed(listed, c, {t.workspace}), Run(b, t.others);
            var b', disk' := Run(b, TurnSteps(taken, t)), c.disk - Cleared(listed, c, {t.workspace});
            && (forall x :: x in b'.rows <==> x in m.rows && (t.commits ==>
                  !(exists r :: r in listed && r.id == x.id && r.deleted && r.workspace == t.workspace
                      && r.id !in env.leased
                      && !(r.id in t.refused && (if r.remote then env.storage else r.id in disk && r.id !in t.gone)))))
            && (forall key, n :: At(b'.ledger, key, n) ==
                 At(m.ledger, key, n) + if t.commits && m.track then Total(taken, key, n) else 0)
            && (forall id :: id in disk' <==> (id in disk && id !in t.gone &&
                  !(exists r :: r in listed && r.id == id && r.deleted && r.workspace == t.workspace
                      && r.id !in env.leased && r.id !in t.refused && (r.remote ==> env.storage))))
  {
    var c := Found(env, disk, t);
    var taken, m := Reclaimed(listed, c, {t.workspace}), Run(b, t.others);
    hide Reclaimed, Cleared, Without, Total, At, Merged, Deltas, Run, Ids;
    SweepFields(listed, c, t.workspace);
    EmptyRun(b);
    RunTurn(b, [], taken, t);
    assert [] + TurnSteps(taken, t) == TurnSteps(taken, t);
    WithoutMembers(m.rows, Ids(taken));
    NoIdsNone(taken);
    forall key, n
      ensures At(Merged(m.ledger, Deltas(taken)), key, n) == At(m.ledger, key, n) + Total(taken, key, n)
      ensures Total([], key, n) == 0
    {
      MergedAt(m.ledger, Deltas(taken), key, n);
      DeltasAt(taken, key, n);
      NothingTotal(key, n);
    }
  }

  lemma {:induction false} KeptMembers(rows: seq<FileRow>, c: Cycle, ws: set<nat>)
    ensures forall r :: r in Kept(rows, c, ws) <==> r in rows && !Taken(c, r, ws)
  {
    hide Taken;
    if rows != [] {
      KeptMembers(rows[..|rows| - 1], c, ws);
      assert forall r :: r in rows <==> r in rows[..|rows| - 1] || r == rows[|rows| - 1];
    }
  }

  /**
    Row and bytes of every file after a cycle nobody disturbs.  Only soft-deleted files without a lease are
    touched, and only in the workspaces of the cycle.  An object that cannot be reached loses its row alone;
    a delete that is refused keeps row and bytes; all others lose their bytes, and their row if the commit
    succeeds.
  */
  lemma {:induction false} FileFate(b: Books, env: Env, disk: set<nat>, turns: seq<Turn>, refused: set<nat>, r: FileRow)
    requires WellKept(b) && Undisturbed(turns, refused) && r in b.rows
    ensures var rows', disk' := Run(b, Steps(b.rows, env, disk, turns)).rows, DiskAfter(b.rows, env, disk, turns);
            && (forall x :: x in rows' ==> x in b.rows)
            && if !r.deleted || r.id in env.leased || r.workspace !in Spaces(turns) then
                 r in rows' && (r.id in disk' <==> r.id in disk)
               else if r.remote && !env.storage then
                 (r in rows' <==> r.workspace !in Committed(turns)) && (r.id in disk' <==> r.id in disk)
               else if r.id in refused && (r.remote || r.id in disk) then
                 r in rows' && (r.id in disk' <==> r.id in disk)
               else
                 (r in rows' <==> r.workspace !in Committed(turns)) && r.id !in disk'
  {
    var c := Cycle(env.leased, disk, env.storage, refused);
    UndisturbedCycle(b, env, disk, turns, refused);
    DistinctListing(b);
    KeptMembers(b.rows, c, Committed(turns));
    CommittedSpaces(turns);
    hide Kept, Reclaimed, Run, Steps, DiskAfter, Work, WellKept, Undisturbed, DistinctIds, Held, At, Total;
    if r.id in Cleared(b.rows, c, Spaces(turns)) {
      var x :| x in b.rows && Taken(c, x, Spaces(turns)) && (x.remote ==> c.storage) && x.id == r.id;
      SameRow(b.rows, x, r);
    }
  }

  /** The counts of such a cycle are the numbers of files removed and of deleted files under a lease. */
  lemma {:induction false} CycleCounts(b: Books, env: Env, disk: set<nat>, turns: seq<Turn>, refused: set<nat>)
    requires WellKept(b) && Undisturbed(turns, refused)
    ensures var work := Work(b.rows, env, disk, turns);
            && work.skippedLeased ==
                 |set r | r in b.rows && r.deleted && r.id in env.leased && r.workspace in Spaces(turns)|
            && work.reclaimed ==
                 |set r | r in b.rows && r.deleted && r.id !in env.leased && r.workspace in Spaces(turns)
                          && !(r.id in refused && (if r.remote then env.storage else r.id in disk))|
  {
    var c := Cycle(env.leased, disk, env.storage, refused);
    UndisturbedCycle(b, env, disk, turns, refused);
    DistinctListing(b);
    CountRows(b.rows, c, Spaces(turns));
    assert Removed(b.rows, c, Spaces(turns)) ==
           set r | r in b.rows && r.deleted && r.id !in env.leased && r.workspace in Spaces(turns)
                   && !(r.id in refused && (if r.remote then env.storage else r.id in disk));
  }

  function Removed(rows: seq<FileRow>, c: Cycle, ws: set<nat>): set<FileRow> {
    set r | r in rows && Taken(c, r, ws)
  }

  function HeldBack(rows: seq<FileRow>, c: Cycle, ws: set<nat>): set<FileRow> {
    set r | r in rows && r.deleted && r.id in c.leased && r.workspace in ws
  }

  lemma {:induction false} RemovedNext(rows: seq<FileRow>, r: FileRow, c: Cycle, ws: set<nat>)
    requires r !in rows
    ensures |Removed(rows + [r], c, ws)| == |Removed(rows, c, ws)| + if Taken(c, r, ws) then 1 else 0
  {
    hide Taken;
    var now, before := Removed(rows + [r], c, ws), Removed(rows, c, ws);
    assert forall x :: x in rows + [r] <==> x in rows || x == r;
    if Taken(c, r, ws) { assert now == before + {r}; } else { assert now == before; }
  }

  lemma {:induction false} HeldBackNext(rows: seq<FileRow>, r: FileRow, c: Cycle, ws: set<nat>)
    requires r !in rows
    ensures |HeldBack(rows + [r], c, ws)| ==
              |HeldBack(rows, c, ws)| + if r.deleted && r.id in c.leased && r.workspace in ws then 1 else 0
  {
    var now, before := HeldBack(rows + [r], c, ws), HeldBack(rows, c, ws);
    assert forall x :: x in rows + [r] <==> x in rows || x == r;
    if r.deleted && r.id in c.leased && r.workspace in ws { assert now == before + {r}; } else { assert now == before; }
  }

  lemma {:induction false} LastIsNew(rows: seq<FileRow>, r: FileRow)
    requires DistinctIds(rows + [r])
    ensures DistinctIds(rows) && r !in rows
  {
    FreshId(rows, r);
    assert r in rows ==> r.id in Ids(rows);
  }

  lemma {:induction false} CountRows(rows: seq<FileRow>, c: Cycle, ws: set<nat>)
    requires DistinctIds(rows)
    ensures |Reclaimed(rows, c, ws)| == |Removed(rows, c, ws)| && Skipped(rows, c, ws) == |HeldBack(rows, c, ws)|
  {
    hide Taken, Removed, HeldBack, DistinctIds, Reclaimed, Skipped;
    if rows == [] {
      NoneRemoved(c, ws);
    } else {
      var init, last := rows[..|rows| - 1], rows[|rows| - 1];
      assert rows == init + [last];
      LastIsNew(init, last);
      CountRows(init, c, ws);
      RowNext(init, last, c, ws);
      RemovedNext(init, last, c, ws);
      HeldBackNext(init, last, c, ws);
    }
  }

  lemma {:induction false} NoneRemoved(c: Cycle, ws: set<nat>)
    ensures Removed([], c, ws) == {} && HeldBack([], c, ws) == {} && Reclaimed([], c, ws) == []
    ensures Skipped([], c, ws) == 0
  {}

  // ---------------------------------------------------------------- the store

  /** The ids and deltas collected are those of the rows looked at so far. */
  ghost predicate SweptTo(rows: seq<FileRow>, c: Cycle, w: nat, ids: set<nat>, deltas: map<Key, Usage>) {
    ids == Ids(Reclaimed(rows, c, {w})) && deltas == Deltas(Reclaimed(rows, c, {w}))
  }

  lemma {:induction false} SweepStart(c: Cycle, w: nat)
    ensures SweptTo([], c, w, {}, map[]) && Reclaimed([], c, {w}) == [] && Cleared([], c, {w}) == {}
    ensures Skipped([], c, {w}) == 0
  {}

  lemma {:induction false} SweepNext(rows: seq<FileRow>, r: FileRow, c: Cycle, w: nat, ids: set<nat>,
                                     deltas: map<Key, Usage>)
    requires SweptTo(rows, c, w, ids, deltas)
    ensures if Taken(c, r, {w}) then SweptTo(rows + [r], c, w, ids + {r.id}, Added(deltas, r))
            else SweptTo(rows + [r], c, w, ids, deltas)
  {
    hide Reclaimed, Ids, Taken, Added, Deltas;
    RowNext(rows, r, c, {w});
    IdsNext(Reclaimed(rows, c, {w}), r);
    DeltasNext(Reclaimed(rows, c, {w}), r);
  }

  /** Unlinking other files has not touched this one's bytes. */
  lemma {:induction false} StillOnDisk(listed: seq<FileRow>, c: Cycle, w: nat, i: nat)
    requires DistinctIds(listed) && i < |listed|
    ensures listed[i].id !in Cleared(listed[..i], c, {w})
  {}

  /** The steps of the loop together are the definition. */
  lemma {:induction false} TakenTest(c: Cycle, r: FileRow, w: nat, disk: set<nat>)
    requires r.id in disk <==> r.id in c.disk
    ensures Taken(c, r, {w}) <==>
              r.deleted && r.workspace == w && r.id !in c.leased
              && !(r.id in c.refused && (if r.remote then c.storage else r.id in disk))
  {}

  lemma {:induction false} ClearedNext(rows: seq<FileRow>, r: FileRow, c: Cycle, ws: set<nat>)
    ensures Cleared(rows + [r], c, ws) ==
              Cleared(rows, c, ws) + if Taken(c, r, ws) && (r.remote ==> c.storage) then {r.id} else {}
  {
    hide Taken;
    assert forall x :: x in rows + [r] <==> x in rows || x == r;
  }

  class Store {
    var rows: seq<FileRow>
    var nextId: nat
    var disk: set<nat>
    var cleaned: map<Key, Usage>
    const track: bool

    constructor (track: bool)
      ensures View() == Books([], 0, map[], track) && disk == {} && WellKept(View())
    {
      this.track := track;
      rows, nextId, disk, cleaned := [], 0, {}, map[];
    }

    ghost function View(): Books
      reads this
    {
      Books(rows, nextId, cleaned, track)
    }

    /** Remove the bytes; not finding them counts as success. */
    method DeletePhysicalFile(r: FileRow, storage: bool, refused: set<nat>) returns (ok: bool)
      modifies `disk
      ensures ok <==> !(r.id in refused && (if r.remote then storage else r.id in old(disk)))
      ensures disk == if r.id in refused || (r.remote && !storage) then old(disk) else old(disk) - {r.id}
    {
      if r.remote {
        if !storage { return true; }
        if r.id in refused { return false; }
        disk := disk - {r.id};
        return true;
      }
      if r.id !in disk { return true; }
      if r.id in refused { return false; }
      disk := disk - {r.id};
      ok := true;
    }

    /** Look at every listed file of one workspace: skip leased ones, unlink the others, note what to account for. */
    method Sweep(listed: seq<FileRow>, w: nat, leases: Lease.FileLeaseRegistry, c: Cycle)
      returns (ids: set<nat>, deltas: map<Key, Usage>, stats: Stats)
      requires leases.Valid() && DistinctIds(listed) && disk == c.disk
      requires forall id :: id in leases.held <==> id in c.leased
      modifies `disk
      ensures ids == Ids(Reclaimed(listed, c, {w})) && deltas == Deltas(Reclaimed(listed, c, {w}))
      ensures disk == c.disk - Cleared(listed, c, {w})
      ensures forall id :: id in ids <==>
        exists r :: r in listed && r.id == id && r.deleted && r.workspace == w && r.id !in c.leased
                    && !(r.id in c.refused && (if r.remote then c.storage else r.id in c.disk))
      ensures forall id :: id in disk <==>
        id in c.disk && !exists r :: r in listed && r.id == id && r.deleted && r.workspace == w
                                     && r.id !in c.leased && r.id !in c.refused && (r.remote ==> c.storage)
      ensures stats == Stats(|Reclaimed(listed, c, {w})|, Skipped(listed, c, {w}))
    {
      hide Reclaimed, Cleared, Ids, Taken, Removable, DistinctIds, Added, Skipped, Deltas;
      ids, deltas, stats := {}, map[], Stats(0, 0);
      SweepStart(c, w);
      assert listed[..0] == [];
      for i := 0 to |listed|
        invariant SweptTo(listed[..i], c, w, ids, deltas)
        invariant stats == Stats(|Reclaimed(listed[..i], c, {w})|, Skipped(listed[..i], c, {w}))
        invariant disk == c.disk - Cleared(listed[..i], c, {w})
      {
        var r := listed[i];
        assert listed[..i + 1] == listed[..i] + [r];
        RowNext(listed[..i], r, c, {w});
        ClearedNext(listed[..i], r, c, {w});
        SweepNext(listed[..i], r, c, w, ids, deltas);
        StillOnDisk(listed, c, w, i);
        TakenTest(c, r, w, disk);
        if r.deleted && r.workspace == w {
          var leased := leases.IsLeased(r.id);
          if leased {
            stats := stats.(skippedLeased := stats.skippedLeased + 1);
          } else {
            var ok := DeletePhysicalFile(r, c.storage, c.refused);
            if ok {
              ids := ids + {r.id};
              deltas := Added(deltas, r);
              stats := stats.(reclaimed := stats.reclaimed + 1);
            }
          }
        }
      }
      assert listed[..|listed|] == listed;
      SweepFields(listed, c, w);
    }

    /** What other cycles, retention and writers do to list and ledger in between. */
    method Others(steps: seq<Step>)
      requires WellKept(View())
      modifies `rows, `nextId, `cleaned
      ensures View() == Run(old(View()), steps) && WellKept(View())
    {
      RunKeeps(View(), steps);
      var b := Run(Books(rows, nextId, cleaned, track), steps);
      rows, nextId, cleaned := b.rows, b.nextId, b.ledger;
    }

    /**
      One cycle: list once, then workspace by workspace sweep, and change ledger and file list in one
      statement, which may fail.  Without a usage store nothing is recorded.
    */
    method Reclaim(leases: Lease.FileLeaseRegistry, env: Env, turns: seq<Turn>) returns (stats: Stats)
      requires leases.Valid() && WellKept(View())
      requires forall id :: id in leases.held <==> id in env.leased
      modifies `rows, `nextId, `cleaned, `disk
      ensures WellKept(View())
      ensures View() == Run(old(View()), Steps(old(rows), env, old(disk), turns))
      ensures disk == DiskAfter(old(rows), env, old(disk), turns)
      ensures stats == Work(old(rows), env, old(disk), turns)
    {
      hide Reclaimed, Cleared, Ids, Without, Merged, Skipped, Deltas, Run, Steps, DiskAfter, Work, WellKept;
      var listed := rows;
      stats := Stats(0, 0);
      assert turns[..0] == [];
      CycleStart(View(), listed, env, disk);
      for i := 0 to |turns|
        invariant WellKept(View())
        invariant View() == Run(old(View()), Steps(listed, env, old(disk), turns[..i]))
        invariant disk == DiskAfter(listed, env, old(disk), turns[..i])
        invariant stats == Work(listed, env, old(disk), turns[..i])
      {
        var t := turns[i];
        TurnNext(listed, env, old(disk), turns, i);
        DistinctListing(old(View()));
        disk := disk - t.gone;
        ghost var c := Cycle(env.leased, disk, env.storage, t.refused);
        var ids, deltas, swept := Sweep(listed, t.workspace, leases, Cycle(env.leased, disk, env.storage, t.refused));
        stats := Stats(stats.reclaimed + swept.reclaimed, stats.skippedLeased + swept.skippedLeased);
        ghost var taken := Reclaimed(listed, c, {t.workspace});
        RunTurn(old(View()), Steps(listed, env, old(disk), turns[..i]), taken, t);
        Others(t.others);
        NoIdsNone(taken);
        if ids != {} && t.commits {
          StepKeeps(View(), Commit(taken));
          rows := Without(rows, ids);
          if track { cleaned := Merged(cleaned, deltas); }
        }
      }
      assert turns[..|turns|] == turns;
    }

    /** Soft-delete the expired files, workspace by workspace; the statement fails for those in `failing`. */
    method Cleanup(workspaces: seq<nat>, cutoff: nat -> int, failing: set<nat>) returns (marked: nat)
      requires forall i, j :: 0 <= i < j < |workspaces| ==> workspaces[i] != workspaces[j]
      modifies `rows
      ensures rows == Marked(old(rows), cutoff, Elements(workspaces) - failing)
      ensures |rows| == |old(rows)|
      ensures forall k :: 0 <= k < |rows| ==> var r := old(rows)[k];
        rows[k] == if !r.deleted && r.maxTs <= cutoff(r.workspace) && r.workspace in workspaces
                      && r.workspace !in failing then r.(deleted := true) else r
      ensures marked == |set k: nat | k < |rows| && rows[k] != old(rows)[k]|
    {
      hide Marked, CountDue;
      var all := rows;
      marked := 0;
      assert workspaces[..0] == [] && Elements([]) - failing == {};
      NothingDue(all, cutoff);
      for i := 0 to |workspaces|
        invariant rows == Marked(all, cutoff, Elements(workspaces[..i]) - failing)
        invariant marked == CountDue(all, cutoff, Elements(workspaces[..i]) - failing)
      {
        var w := workspaces[i];
        ghost var before := Elements(workspaces[..i]) - failing;
        assert workspaces[..i + 1] == workspaces[..i] + [w];
        assert Elements(workspaces[..i + 1]) - failing == if w in failing then before else before + {w};
        var expired := CountDue(all, cutoff, {w});
        DueNext(all, cutoff, before, w);
        if expired > 0 && w !in failing {
          rows := Marked(rows, cutoff, {w});
          marked := marked + expired;
        }
      }
      assert workspaces[..|workspaces|] == workspaces;
      CleanupFields(all, cutoff, workspaces, failing);
    }
  }

  /** Which rows are marked, by their fields, and how many. */
  lemma {:induction false} CleanupFields(rows: seq<FileRow>, cutoff: nat -> int, workspaces: seq<nat>,
                                         failing: set<nat>)
    ensures var marked := Marked(rows, cutoff, Elements(workspaces) - failing);
            && |marked| == |rows|
            && (forall k :: 0 <= k < |rows| ==> var r := rows[k];
                 marked[k] == if !r.deleted && r.maxTs <= cutoff(r.workspace) && r.workspace in workspaces
                                 && r.workspace !in failing then r.(deleted := true) else r)
            && CountDue(rows, cutoff, Elements(workspaces) - failing) ==
                 |set k: nat | k < |rows| && marked[k] != rows[k]|
  {
    var ws := Elements(workspaces) - failing;
    var marked := Marked(rows, cutoff, ws);
    DueIndices(rows, cutoff, ws);
    assert (set k: nat | k < |rows| && marked[k] != rows[k]) == Due(rows, cutoff, ws);
  }

  function Due(rows: seq<FileRow>, cutoff: nat -> int, ws: set<nat>): set<nat> {
    set k: nat | k < |rows| && Expired(rows[k], cutoff) && rows[k].workspace in ws
  }

  lemma {:induction false} DueIndices(rows: seq<FileRow>, cutoff: nat -> int, ws: set<nat>)
    ensures CountDue(rows, cutoff, ws) == |Due(rows, cutoff, ws)|
  {
    if rows != [] {
      var n := |rows| - 1;
      DueIndices(rows[..n], cutoff, ws);
      assert Due(rows, cutoff, ws) ==
             if Expired(rows[n], cutoff) && rows[n].workspace in ws then Due(rows[..n], cutoff, ws) + {n}
             else Due(rows[..n], cutoff, ws);
    }
  }

  lemma {:induction false} CycleStart(b: Books, listed: seq<FileRow>, env: Env, disk: set<nat>)
    ensures Run(b, Steps(listed, env, disk, [])) == b && DiskAfter(listed, env, disk, []) == disk
    ensures Work(listed, env, disk, []) == Stats(0, 0)
  {}

  lemma {:induction false} DistinctListing(b: Books)
    requires WellKept(b)
    ensures DistinctIds(b.rows)
  {}

  lemma {:induction false} NoIdsNone(taken: seq<FileRow>)
    ensures Ids(taken) == {} <==> taken == []
  {
    if taken != [] { assert taken[0].id in Ids(taken); }
  }

  predicate Expired(r: FileRow, cutoff: nat -> int) {
    !r.deleted && r.maxTs <= cutoff(r.workspace)
  }

  /** The expired files of these workspaces are marked, all others are as before. */
  function Marked(rows: seq<FileRow>, cutoff: nat -> int, ws: set<nat>): (marked: seq<FileRow>)
    ensures |marked| == |rows|
    ensures forall k :: 0 <= k < |rows| ==>
      (marked[k] == if Expired(rows[k], cutoff) && rows[k].workspace in ws then rows[k].(deleted := true) else rows[k])
  {
    seq(|rows|, k requires 0 <= k < |rows| =>
      if Expired(rows[k], cutoff) && rows[k].workspace in ws then rows[k].(deleted := true) else rows[k])
  }

  function CountDue(rows: seq<FileRow>, cutoff: nat -> int, ws: set<nat>): nat {
    if rows == [] then 0 else
      var last := rows[|rows| - 1];
      CountDue(rows[..|rows| - 1], cutoff, ws) + if Expired(last, cutoff) && last.workspace in ws then 1 else 0
  }

  lemma {:induction false} NothingDue(rows: seq<FileRow>, cutoff: nat -> int)
    ensures Marked(rows, cutoff, {}) == rows && CountDue(rows, cutoff, {}) == 0
  {
    if rows != [] { NothingDue(rows[..|rows| - 1], cutoff); }
  }

  lemma {:induction false} DueNext(rows: seq<FileRow>, cutoff: nat -> int, ws: set<nat>, w: nat)
    requires w !in ws
    ensures Marked(Marked(rows, cutoff, ws), cutoff, {w}) == Marked(rows, cutoff, ws + {w})
    ensures CountDue(rows, cutoff, ws + {w}) == CountDue(rows, cutoff, ws) + CountDue(rows, cutoff, {w})
    ensures CountDue(rows, cutoff, {w}) == 0 ==> Marked(rows, cutoff, ws + {w}) == Marked(rows, cutoff, ws)
  {
    if rows != [] {
      var n := |rows| - 1;
      DueNext(rows[..n], cutoff, ws, w);
      if CountDue(rows, cutoff, {w}) == 0 {
        var all, one := Marked(rows, cutoff, ws + {w}), Marked(rows, cutoff, ws);
        assert Marked(rows[..n], cutoff, ws + {w}) == all[..n] && Marked(rows[..n], cutoff, ws) == one[..n];
        assert all == all[..n] + [all[n]] && one == one[..n] + [one[n]];
      }
    }
  }

  function Elements(ws: seq<nat>): set<nat> {
    set w | w in ws
  }
}
