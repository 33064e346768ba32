/**
  Compaction.  The groups come from one query; each is merged later, file by file: read, write and
  register the merged file, and only then soft-delete the originals.  Retention, the reclaimer and
  writers change the list at any time in between, and nothing looks at the rows of a group again.
*/
module Compaction {
  import opened Prelude
  import opened Bytes
  import opened Catalog
  import Partition

  datatype Listing = Listing(files: seq<File>, nextId: nat)

  ghost predicate WellFormed(l: Listing) {
    DistinctIds(l.files) && forall i :: 0 <= i < |l.files| ==> l.files[i].id < l.nextId && Scalable(l.files[i])
  }

  // ---------------------------------------------------------------- what others do meanwhile

  datatype Other =
    | Retire(ids: set<nat>)     // retention, or another compaction, marks rows
    | Drop(ids: set<nat>)       // the reclaimer removes marked rows
    | Register(workspace: string, signal: Signal, stream: string, rows: seq<Row>, size: int, now: int)

  function Retired(files: seq<File>, ids: set<nat>): seq<File> {
    seq(|files|, i requires 0 <= i < |files| => if files[i].id in ids then files[i].(deleted := true) else files[i])
  }

  function Dropped(files: seq<File>, ids: set<nat>): seq<File> {
    if files == [] then [] else
      var last := files[|files| - 1];
      Dropped(files[..|files| - 1], ids) + if last.deleted && last.id in ids then [] else [last]
  }

  function Step(l: Listing, o: Other): Listing {
    match o
    case Retire(ids) => l.(files := Retired(l.files, ids))
    case Drop(ids) => l.(files := Dropped(l.files, ids))
    case Register(workspace, signal, stream, rows, size, now) =>
      if rows == [] then l else
        Listing(l.files + [Written(l.nextId, workspace, signal, stream, rows, size, now)], l.nextId + 1)
  }

  function Meanwhile(l: Listing, os: seq<Other>): Listing {
    if os == [] then l else Step(Meanwhile(l, os[..|os| - 1]), os[|os| - 1])
  }

  // ---------------------------------------------------------------- a group as it was listed

  /** The row of the file, if it is still there, is the copy that was listed or its soft-deleted twin. */
  predicate CopyOf(files: seq<File>, g: File) {
    forall k :: 0 <= k < |files| && files[k].id == g.id ==> files[k] == g || files[k] == g.(deleted := true)
  }

  /** Distinct live files of one workspace and signal, as the query returned them some time ago. */
  predicate AsListed(l: Listing, group: seq<File>) {
    && DistinctIds(group)
    && forall i :: 0 <= i < |group| ==>
         && !group[i].deleted && group[i].id < l.nextId && Scalable(group[i]) && CopyOf(l.files, group[i])
         && group[i].workspace == group[0].workspace && group[i].signal == group[0].signal
  }

  lemma {:induction false} DroppedShape(files: seq<File>, ids: set<nat>)
    ensures forall f :: f in Dropped(files, ids) <==> f in files && !(f.deleted && f.id in ids)
    ensures DistinctIds(files) ==> DistinctIds(Dropped(files, ids))
  {
    if files != [] {
      var init, last := files[..|files| - 1], files[|files| - 1];
      DroppedShape(init, ids);
      assert files == init + [last];
      if DistinctIds(files) {
        assert DistinctIds(init);
        forall i | 0 <= i < |Dropped(init, ids)| ensures Dropped(init, ids)[i].id != last.id {
          assert Dropped(init, ids)[i] in init;
        }
      }
    }
  }

  lemma {:induction false} StepKeeps(l: Listing, o: Other)
    requires WellFormed(l)
    ensures WellFormed(Step(l, o))
  {
    match o {
      case Drop(ids) =>
        DroppedShape(l.files, ids);
        assert forall i :: 0 <= i < |Dropped(l.files, ids)| ==> Dropped(l.files, ids)[i] in l.files;
      case Register(_, signal, _, rows, _, _) =>
        if rows != [] {
          MicrosScale(Start(rows));
          MicrosScale(End(signal, rows));
        }
      case Retire(_) =>
    }
  }

  lemma {:induction false} StepKeepsListed(l: Listing, o: Other, group: seq<File>)
    requires AsListed(l, group)
    ensures AsListed(Step(l, o), group)
  {
    hide DistinctIds, Scalable;
    forall i | 0 <= i < |group| ensures CopyOf(Step(l, o).files, group[i]) {
      assert CopyOf(l.files, group[i]);
      if o.Drop? {
        DroppedShape(l.files, o.ids);
        var left := Dropped(l.files, o.ids);
        assert forall k :: 0 <= k < |left| ==> left[k] in l.files;
      }
    }
  }

  lemma {:induction false} MeanwhileKeeps(l: Listing, os: seq<Other>)
    requires WellFormed(l)
    ensures WellFormed(Meanwhile(l, os)) && l.nextId <= Meanwhile(l, os).nextId
  {
    if os != [] {
      MeanwhileKeeps(l, os[..|os| - 1]);
      StepKeeps(Meanwhile(l, os[..|os| - 1]), os[|os| - 1]);
    }
  }

  /** Whatever happens meanwhile, the group stays what was listed earlier. */
  lemma {:induction false} MeanwhileKeepsListed(l: Listing, os: seq<Other>, group: seq<File>)
    requires AsListed(l, group)
    ensures AsListed(Meanwhile(l, os), group)
  {
    if os != [] {
      MeanwhileKeepsListed(l, os[..|os| - 1], group);
      StepKeepsListed(Meanwhile(l, os[..|os| - 1]), os[|os| - 1], group);
    }
  }

  // ---------------------------------------------------------------- what marking takes out of sight

  /** The members whose row is still the live one that was listed. */
  function Still(files: seq<File>, group: seq<File>): seq<File> {
    if group == [] then [] else
      var last := group[|group| - 1];
      Still(files, group[..|group| - 1]) + if last in files then [last] else []
  }

  /** The members that were soft-deleted or dropped since. */
  function Lapsed(files: seq<File>, group: seq<File>): seq<File> {
    if group == [] then [] else
      var last := group[|group| - 1];
      Lapsed(files, group[..|group| - 1]) + if last in files then [] else [last]
  }

  lemma {:induction false} LapsedMembers(files: seq<File>, group: seq<File>)
    ensures forall f :: f in Lapsed(files, group) <==> f in group && f !in files
    ensures forall f :: f in Still(files, group) <==> f in group && f in files
  {
    if group != [] {
      LapsedMembers(files, group[..|group| - 1]);
      assert forall f :: f in group <==> f in group[..|group| - 1] || f == group[|group| - 1];
    }
  }

  lemma {:induction false} StillNext(files: seq<File>, group: seq<File>, g: File, v: Scope)
    ensures Live(Still(files, group + [g]), v) ==
              Live(Still(files, group), v) + if g in files then LiveIn(g, v) else multiset{}
    ensures Live(Lapsed(files, group + [g]), v) ==
              Live(Lapsed(files, group), v) + if g in files then multiset{} else LiveIn(g, v)
  {
    assert (group + [g])[..|group|] == group;
    LiveAppend(Still(files, group), g, v);
    LiveAppend(Lapsed(files, group), g, v);
    assert Still(files, group) + [] == Still(files, group) && Lapsed(files, group) + [] == Lapsed(files, group);
  }

  /** What is still live and what has lapsed is the group. */
  lemma {:induction false} StillAndLapsed(files: seq<File>, group: seq<File>, v: Scope)
    ensures Live(Still(files, group), v) + Live(Lapsed(files, group), v) == Live(group, v)
  {
    if group != [] {
      hide Still, Lapsed, Live;
      var init, last := group[..|group| - 1], group[|group| - 1];
      assert group == init + [last];
      StillAndLapsed(files, init, v);
      StillNext(files, init, last, v);
      LiveAppend(init, last, v);
      Shift(Live(Still(files, init), v), Live(Lapsed(files, init), v), LiveIn(last, v));
    }
  }

  lemma {:induction false} Shift(a: multiset<Row>, b: multiset<Row>, d: multiset<Row>)
    ensures (a + d) + (b + multiset{}) == (a + b) + d == (a + multiset{}) + (b + d)
  {}

  lemma {:induction false} MarkOneListed(files: seq<File>, g: File, v: Scope)
    requires DistinctIds(files) && CopyOf(files, g) && !g.deleted
    ensures Live(files, v) == Live(MarkOne(files, g.id), v) + if g in files then LiveIn(g, v) else multiset{}
  {
    if g in files {
      MarkOneLive(files, g, v);
    } else {
      assert MarkOne(files, g.id) == files;
    }
  }

  /** Marking a group, however old its listing, takes exactly its still live members out of sight. */
  lemma {:induction false} MarkListed(l: Listing, group: seq<File>, v: Scope)
    requires WellFormed(l) && AsListed(l, group)
    ensures Live(l.files, v) == Live(Mark(l.files, group), v) + Live(Still(l.files, group), v)
  {
    hide Live, Mark, MarkOne, Still, Scalable, CopyOf;
    if group == [] {
      NoGroup(l.files, v);
    } else {
      var init, last := group[..|group| - 1], group[|group| - 1];
      assert group == init + [last] && AsListed(l, init);
      MarkListed(l, init, v);
      MarkNext(l.files, init, last);
      StillNext(l.files, init, last, v);
      MarkOther(l.files, init, last);
      MarkOneListed(Mark(l.files, init), last, v);
    }
  }

  lemma {:induction false} NoGroup(files: seq<File>, v: Scope)
    ensures Mark(files, []) == files && Live(Still(files, []), v) == multiset{}
  {}

  lemma {:induction false} MarkNext(files: seq<File>, group: seq<File>, g: File)
    ensures Mark(files, group + [g]) == MarkOne(Mark(files, group), g.id)
  {
    assert (group + [g])[..|group|] == group;
  }

  /** Marking other files does not touch this one. */
  lemma {:induction false} MarkOther(files: seq<File>, group: seq<File>, g: File)
    requires DistinctIds(files) && CopyOf(files, g) && !g.deleted
    requires forall i :: 0 <= i < |group| ==> group[i].id != g.id
    ensures DistinctIds(Mark(files, group)) && CopyOf(Mark(files, group), g)
    ensures g in Mark(files, group) <==> g in files
  {
    MarkShape(files, group);
    if g in files { StillThere(files, group, g); }
    if g in Mark(files, group) {
      var k :| 0 <= k < |files| && Mark(files, group)[k] == g;
      assert files[k] == g;
    }
  }

  // ---------------------------------------------------------------- one merge

  function Merge(l: Listing, group: seq<File>, size: int, now: int): Listing
    requires group != []
  {
    Listing(l.files + [Merged(group, l.nextId, size, now)], l.nextId + 1)
  }

  lemma {:induction false} MergeKeeps(l: Listing, group: seq<File>, size: int, now: int)
    requires WellFormed(l) && group != [] && AsListed(l, group)
    ensures WellFormed(Merge(l, group, size, now)) && AsListed(Merge(l, group, size, now), group)
    ensures forall g :: g in group ==> (g in Merge(l, group, size, now).files <==> g in l.files)
  {
    MergedBounds(group, l.nextId, size, now);
  }

  lemma {:induction false} StillSame(files: seq<File>, files': seq<File>, group: seq<File>)
    requires forall g :: g in group ==> (g in files <==> g in files')
    ensures Still(files, group) == Still(files', group)
  {
    if group != [] {
      assert group[|group| - 1] in group;
      StillSame(files, files', group[..|group| - 1]);
    }
  }

  lemma {:induction false} MergedLive(group: seq<File>, id: nat, size: int, now: int, v: Scope)
    requires group != [] && v.stream == None
    requires forall i :: 0 <= i < |group| ==>
               !group[i].deleted && group[i].workspace == group[0].workspace && group[i].signal == group[0].signal
    ensures LiveIn(Merged(group, id, size, now), v) == Live(group, v)
  {
    if Within(group[0], v) { GroupRows(group, v); } else { GroupUnseen(group, v); }
  }

  lemma {:induction false} GroupRows(group: seq<File>, v: Scope)
    requires forall i :: 0 <= i < |group| ==> !group[i].deleted && (Within(group[i], v) || group[i].rows == [])
    ensures Live(group, v) == multiset(RowsOf(group))
  {
    if group != [] { GroupRows(group[..|group| - 1], v); }
  }

  /** The live rows after registering and marking, of any scope. */
  lemma {:induction false} MergeEffect(l: Listing, group: seq<File>, size: int, now: int, v: Scope)
    requires WellFormed(l) && group != [] && AsListed(l, group)
    ensures var f, merged := Merged(group, l.nextId, size, now), Merge(l, group, size, now);
            && Live(merged.files, v) == Live(l.files, v) + LiveIn(f, v)
            && Live(Mark(merged.files, group), v) + Live(Still(l.files, group), v) == Live(l.files, v) + LiveIn(f, v)
  {
    hide Live, Mark, Still, Merged;
    var merged := Merge(l, group, size, now);
    LiveAppend(l.files, Merged(group, l.nextId, size, now), v);
    MergeKeeps(l, group, size, now);
    StillSame(l.files, merged.files, group);
    MarkListed(merged, group, v);
  }

  lemma {:induction false} Regroup(a: multiset<Row>, still: multiset<Row>, before: multiset<Row>, lapsed: multiset<Row>)
    requires a + still == before + (still + lapsed)
    ensures a == before + lapsed
  {
    forall r ensures a[r] == (before + lapsed)[r] { assert (a + still)[r] == (before + (still + lapsed))[r]; }
  }

  /**
    Queries over a signal never miss a row.  After the merge they see what they saw, and the rows of the
    members that had lapsed when the merged file was registered on top of it.
  */
  lemma {:induction false} LapsedRowsReturn(l: Listing, group: seq<File>, size: int, now: int, v: Scope)
    requires WellFormed(l) && group != [] && AsListed(l, group) && v.stream == None
    ensures var merged := Merge(l, group, size, now).files;
            && Live(l.files, v) <= Live(merged, v)
            && Live(Mark(merged, group), v) == Live(l.files, v) + Live(Lapsed(l.files, group), v)
  {
    hide Live, Mark, Still, Lapsed, Merged;
    MergeEffect(l, group, size, now, v);
    MergedLive(group, l.nextId, size, now, v);
    StillAndLapsed(l.files, group, v);
    Regroup(Live(Mark(Merge(l, group, size, now).files, group), v), Live(Still(l.files, group), v),
            Live(l.files, v), Live(Lapsed(l.files, group), v));
  }

  /** Every member that holds rows is still live. */
  predicate AllStill(files: seq<File>, group: seq<File>) {
    forall i :: 0 <= i < |group| && group[i].rows != [] ==> group[i] in files
  }

  lemma {:induction false} LapsedSeen(l: Listing, group: seq<File>)
    requires group != [] && AsListed(l, group)
    ensures var v := Scope(group[0].workspace, group[0].signal, None);
            Live(Lapsed(l.files, group), v) == multiset{} <==> AllStill(l.files, group)
  {
    hide Live, Lapsed;
    var v, lapsed := Scope(group[0].workspace, group[0].signal, None), Lapsed(l.files, group);
    LapsedMembers(l.files, group);
    if AllStill(l.files, group) {
      LapsedUnseen(l, group, v);
    } else {
      var i :| 0 <= i < |group| && group[i].rows != [] && group[i] !in l.files;
      assert group[i] in lapsed;
      var j :| 0 <= j < |lapsed| && lapsed[j] == group[i];
      GroupSees(lapsed, j, v);
    }
  }

  lemma {:induction false} LapsedUnseen(l: Listing, group: seq<File>, v: Scope)
    requires AllStill(l.files, group)
    ensures Live(Lapsed(l.files, group), v) == multiset{}
  {
    LapsedMembers(l.files, group);
    var lapsed := Lapsed(l.files, group);
    forall j | 0 <= j < |lapsed| ensures lapsed[j].rows == [] {
      assert lapsed[j] in lapsed;
      var i :| 0 <= i < |group| && group[i] == lapsed[j];
    }
    GroupUnseen(lapsed, v);
  }

  /**
    Compaction conserves the live rows of its signal exactly if every member that holds rows is still live
    when the merged file is registered; a member retention has deleted since the query comes back.
  */
  lemma {:induction false} CompactionConserves(l: Listing, group: seq<File>, size: int, now: int)
    requires WellFormed(l) && group != [] && AsListed(l, group)
    ensures var v := Scope(group[0].workspace, group[0].signal, None);
            Live(Mark(Merge(l, group, size, now).files, group), v) == Live(l.files, v) <==> AllStill(l.files, group)
  {
    hide Live, Mark, Lapsed, AllStill;
    var v := Scope(group[0].workspace, group[0].signal, None);
    LapsedRowsReturn(l, group, size, now, v);
    LapsedSeen(l, group);
    Cancel(Live(Mark(Merge(l, group, size, now).files, group), v), Live(l.files, v), multiset{},
      Live(Lapsed(l.files, group), v));
  }

  /** Any file that retention deletes between the query and the merge is visible again afterwards. */
  lemma {:induction false} RetiredFileReturns(f: File, next: nat, size: int, now: int)
    requires !f.deleted && f.id < next && Scalable(f)
    ensures var v, l := Scope(f.workspace, f.signal, None), Meanwhile(Listing([f], next), [Retire({f.id})]);
            && AsListed(Listing([f], next), [f]) && AsListed(l, [f]) && WellFormed(l)
            && Live(l.files, v) == multiset{}
            && Live(Mark(Merge(l, [f], size, now).files, [f]), v) == multiset(f.rows)
  {
    var v, listed, retire := Scope(f.workspace, f.signal, None), Listing([f], next), Retire({f.id});
    OneOther(listed, retire);
    var l := Step(listed, retire);
    assert l.files == [f.(deleted := true)] && f !in l.files;
    assert WellFormed(listed) && AsListed(listed, [f]);
    hide Live, Lapsed, Mark, Merge, Meanwhile;
    MeanwhileKeeps(listed, [retire]);
    MeanwhileKeepsListed(listed, [retire], [f]);
    LiveOne(f, v);
    LiveOne(f.(deleted := true), v);
    OneLapsed(l.files, f);
    LapsedRowsReturn(l, [f], size, now, v);
  }

  /** For instance a log file of one row. */
  lemma {:induction false} RetiredRowReturns()
    ensures var f, v := Written(0, "w", Logs, "s", [Row(0, 0, 0)], 1, 0), Scope("w", Logs, None);
            var l := Meanwhile(Listing([f], 1), [Retire({0})]);
            && AsListed(Listing([f], 1), [f])
            && Live(l.files, v) == multiset{}
            && Live(Mark(Merge(l, [f], 1, 0).files, [f]), v) == multiset{Row(0, 0, 0)}
  {
    hide AsListed, Meanwhile, Live, Mark, Merge;
    RetiredFileReturns(Written(0, "w", Logs, "s", [Row(0, 0, 0)], 1, 0), 1, 1, 0);
  }

  lemma {:induction false} MarkRetired(files: seq<File>, group: seq<File>, ids: set<nat>)
    requires forall id :: id in ids ==> exists g :: g in group && g.id == id
    ensures Mark(Retired(files, ids), group) == Mark(files, group)
  {
    MarkShape(files, group);
    MarkShape(Retired(files, ids), group);
    hide Mark;
  }

  /** A deletion of members that falls between registering and marking changes nothing: their rows stay visible. */
  lemma {:induction false} RetiringTooLate(l: Listing, group: seq<File>, size: int, now: int, ids: set<nat>, v: Scope)
    requires WellFormed(l) && group != [] && AsListed(l, group) && AllStill(l.files, group) && v.stream == None
    requires forall id :: id in ids ==> exists g :: g in group && g.id == id
    ensures Live(Mark(Step(Merge(l, group, size, now), Retire(ids)).files, group), v) == Live(l.files, v)
  {
    MarkRetired(Merge(l, group, size, now).files, group, ids);
    hide Live, Mark, Merge, Lapsed, WellFormed, AsListed, AllStill, Retired;
    LapsedRowsReturn(l, group, size, now, v);
    LapsedUnseen(l, group, v);
  }

  lemma {:induction false} OneOther(l: Listing, o: Other)
    ensures Meanwhile(l, [o]) == Step(l, o)
  {
    assert [o][..0] == [];
  }

  lemma {:induction false} LiveOne(f: File, v: Scope)
    ensures Live([f], v) == LiveIn(f, v)
  {
    assert [f][..0] == [];
  }

  lemma {:induction false} OneLapsed(files: seq<File>, f: File)
    requires f !in files
    ensures Lapsed(files, [f]) == [f]
  {
    assert [f][..0] == [];
  }

  // ---------------------------------------------------------------- streams

  /** All files that hold rows are of the stream of the first. */
  predicate OneStream(group: seq<File>)
    requires group != []
  {
    forall i :: 0 <= i < |group| && group[i].rows != [] ==> group[i].stream == group[0].stream
  }

  lemma {:induction false} ScopeKept(l: Listing, group: seq<File>, size: int, now: int, v: Scope)
    requires WellFormed(l) && group != [] && AsListed(l, group) && OneStream(group) && AllStill(l.files, group)
    ensures Live(Mark(Merge(l, group, size, now).files, group), v) == Live(l.files, v)
  {
    hide Live, Mark, Still, Lapsed, AllStill, WellFormed;
    var f := Merged(group, l.nextId, size, now);
    MergeEffect(l, group, size, now, v);
    StillAndLapsed(l.files, group, v);
    LapsedUnseen(l, group, v);
    if Within(f, v) { GroupRows(group, v); } else { GroupUnseen(group, v); }
    Cancel(Live(Mark(Merge(l, group, size, now).files, group), v), Live(l.files, v), Live(Still(l.files, group), v),
      LiveIn(f, v));
  }

  lemma {:induction false} ScopeLost(l: Listing, group: seq<File>, size: int, now: int, i: nat)
    requires WellFormed(l) && group != [] && AsListed(l, group) && AllStill(l.files, group)
    requires i < |group| && group[i].rows != [] && group[i].stream != group[0].stream
    ensures var v := Scope(group[i].workspace, group[i].signal, Some(group[i].stream));
            Live(Mark(Merge(l, group, size, now).files, group), v) != Live(l.files, v)
  {
    hide Live, Mark, Still, Lapsed, WellFormed;
    var v := Scope(group[i].workspace, group[i].signal, Some(group[i].stream));
    MergeEffect(l, group, size, now, v);
    LapsedMembers(l.files, group);
    var still := Still(l.files, group);
    assert group[i] in still;
    var j :| 0 <= j < |still| && still[j] == group[i];
    GroupSees(still, j, v);
    var f := Merged(group, l.nextId, size, now);
    assert LiveIn(f, v) == multiset{};
    Cancel(Live(Mark(Merge(l, group, size, now).files, group), v), Live(l.files, v), Live(still, v), LiveIn(f, v));
  }

  /**
    Groups are formed without looking at the stream and the merged file gets the stream of the first: every
    scope sees the same rows exactly if all members with rows are of that stream and still live.
  */
  lemma {:induction false} StreamsExact(l: Listing, group: seq<File>, size: int, now: int)
    requires WellFormed(l) && group != [] && AsListed(l, group)
    ensures (forall v :: Live(Mark(Merge(l, group, size, now).files, group), v) == Live(l.files, v)) <==>
              OneStream(group) && AllStill(l.files, group)
  {
    hide Live, Mark, Merge, AllStill, WellFormed, AsListed;
    if AllStill(l.files, group) && OneStream(group) {
      forall v ensures Live(Mark(Merge(l, group, size, now).files, group), v) == Live(l.files, v) {
        ScopeKept(l, group, size, now, v);
      }
    } else if AllStill(l.files, group) {
      var i :| 0 <= i < |group| && group[i].rows != [] && group[i].stream != group[0].stream;
      ScopeLost(l, group, size, now, i);
    } else {
      CompactionConserves(l, group, size, now);
    }
  }

  /** Two files of one hour and two streams: a query for the second stream finds nothing after the merge. */
  lemma {:induction false} StreamsMerge()
    ensures var a, b := Written(0, "w", Logs, "a", [Row(0, 0, 0)], 1, 0),
                        Written(1, "w", Logs, "b", [Row(1, 0, 0)], 1, 0);
            var l, v := Listing([a, b], 2), Scope("w", Logs, Some("b"));
            && a.date == b.date && WellFormed(l) && AsListed(l, [a, b])
            && Live(Mark(Merge(l, [a, b], 2, 0).files, [a, b]), v) != Live(l.files, v)
  {
    var a, b := Written(0, "w", Logs, "a", [Row(0, 0, 0)], 1, 0), Written(1, "w", Logs, "b", [Row(1, 0, 0)], 1, 0);
    assert a.stream == "a" && b.stream == "b" && "a" != "b";
    ScopeLost(Listing([a, b], 2), [a, b], 2, 0, 1);
  }

  // ---------------------------------------------------------------- a scan

  /** Where the compaction of a group may fail; `Marking` is the statement after the merged file is registered. */
  datatype Fault = Fine | Reading | Writing | Marking

  /** What happens to one group, and what others do before it is merged and before its originals are marked. */
  datatype Turn = Turn(before: seq<Other>, between: seq<Other>, fault: Fault)

  /** What is left of the list after one group, whatever fails. */
  function AfterGroup(l: Listing, group: seq<File>, size: int, now: int, t: Turn): Listing {
    if group == [] || t.fault == Reading || t.fault == Writing || RowsOf(group) == [] then l else
      var m := Meanwhile(Merge(l, group, size, now), t.between);
      if t.fault == Marking then m else m.(files := Mark(m.files, group))
  }

  predicate Succeeds(group: seq<File>, fault: Fault) {
    fault == Fine || (RowsOf(group) == [] && fault != Reading)
  }

  /** The group has too few small files. */
  predicate Passed(group: seq<File>, minFiles: nat, maxSize: int) {
    group == [] || |Small(group, maxSize)| < minFiles
  }

  /** No small file, and none required: the stream of the first file is asked for. */
  predicate Panics(group: seq<File>, minFiles: nat, maxSize: int) {
    group != [] && Small(group, maxSize) == [] && minFiles == 0
  }

  /** One group of a scan: others first, then the small files if there are enough. */
  function AfterTurn(l: Listing, group: seq<File>, minFiles: nat, maxSize: int, size: int, now: int, t: Turn): Listing {
    var m := Meanwhile(l, t.before);
    if Passed(group, minFiles, maxSize) then m else AfterGroup(m, Small(group, maxSize), size, now, t)
  }

  /** The group is merged, or found empty of rows, without an error. */
  predicate Counted(group: seq<File>, minFiles: nat, maxSize: int, t: Turn) {
    !Passed(group, minFiles, maxSize) && Succeeds(Small(group, maxSize), t.fault)
  }

  /** After a scan of these groups: each with enough small files, in turn. */
  function AfterGroups(l: Listing, groups: seq<seq<File>>, minFiles: nat, maxSize: int, size: int, now: int,
                       turns: seq<Turn>): Listing
    requires |turns| == |groups|
  {
    if groups == [] then l else
      var n := |groups| - 1;
      AfterTurn(AfterGroups(l, groups[..n], minFiles, maxSize, size, now, turns[..n]),
                groups[n], minFiles, maxSize, size, now, turns[n])
  }

  function CountMerged(groups: seq<seq<File>>, minFiles: nat, maxSize: int, turns: seq<Turn>): nat
    requires |turns| == |groups|
  {
    if groups == [] then 0 else
      var n := |groups| - 1;
      CountMerged(groups[..n], minFiles, maxSize, turns[..n]) +
        if Counted(groups[n], minFiles, maxSize, turns[n]) then 1 else 0
  }

  lemma {:induction false} ScanStart(l: Listing, minFiles: nat, maxSize: int, size: int, now: int)
    ensures AfterGroups(l, [], minFiles, maxSize, size, now, []) == l && CountMerged([], minFiles, maxSize, []) == 0
  {}

  lemma {:induction false} ScanNext(l: Listing, groups: seq<seq<File>>, k: nat, minFiles: nat, maxSize: int,
                                    size: int, now: int, turns: seq<Turn>)
    requires k < |groups| == |turns|
    ensures AfterGroups(l, groups[..k + 1], minFiles, maxSize, size, now, turns[..k + 1]) ==
              AfterTurn(AfterGroups(l, groups[..k], minFiles, maxSize, size, now, turns[..k]),
                        groups[k], minFiles, maxSize, size, now, turns[k])
    ensures CountMerged(groups[..k + 1], minFiles, maxSize, turns[..k + 1]) ==
              CountMerged(groups[..k], minFiles, maxSize, turns[..k]) +
              if Counted(groups[k], minFiles, maxSize, turns[k]) then 1 else 0
  {
    assert groups[..k + 1][..k] == groups[..k] && turns[..k + 1][..k] == turns[..k];
  }

  /** The files of a group below the size limit. */
  function Small(group: seq<File>, maxSize: int): seq<File> {
    if group == [] then [] else
      Small(group[..|group| - 1], maxSize) + if group[|group| - 1].size < maxSize then [group[|group| - 1]] else []
  }

  lemma {:induction false} SmallMembers(group: seq<File>, maxSize: int)
    ensures forall f :: f in Small(group, maxSize) <==> f in group && f.size < maxSize
    ensures DistinctIds(group) ==> DistinctIds(Small(group, maxSize))
  {
    if group != [] {
      var init, last := group[..|group| - 1], group[|group| - 1];
      SmallMembers(init, maxSize);
      assert forall f :: f in group <==> f in init || f == last;
      if DistinctIds(group) {
        forall i | 0 <= i < |Small(init, maxSize)| ensures Small(init, maxSize)[i].id != last.id {
          assert Small(init, maxSize)[i] in init;
        }
      }
    }
  }

  lemma {:induction false} SmallListed(l: Listing, group: seq<File>, maxSize: int)
    requires AsListed(l, group)
    ensures AsListed(l, Small(group, maxSize))
  {
    hide DistinctIds, Small, CopyOf, Scalable;
    SmallMembers(group, maxSize);
    var small := Small(group, maxSize);
    assert forall i :: 0 <= i < |small| ==> small[i] in group;
  }

  /** No file is in two groups. */
  predicate Disjoint(groups: seq<seq<File>>) {
    forall j, k :: 0 <= j < k < |groups| ==> Apart(groups[j], groups[k])
  }

  predicate Apart(g: seq<File>, h: seq<File>) {
    forall a, b :: a in g && b in h ==> a.id != b.id
  }

  lemma {:induction false} MarkKeeps(l: Listing, group: seq<File>)
    requires WellFormed(l)
    ensures WellFormed(l.(files := Mark(l.files, group)))
  {
    MarkShape(l.files, group);
  }

  lemma {:induction false} MarkKeepsListed(l: Listing, group: seq<File>, other: seq<File>)
    requires AsListed(l, other)
    ensures AsListed(l.(files := Mark(l.files, group)), other)
  {
    hide DistinctIds, Scalable;
    MarkShape(l.files, group);
  }

  lemma {:induction false} MergeKeepsListed(l: Listing, group: seq<File>, size: int, now: int, other: seq<File>)
    requires AsListed(l, other) && group != []
    ensures AsListed(Merge(l, group, size, now), other)
  {
    hide DistinctIds, Scalable, RowsOf, LeastMin, GreatestMax;
  }

  lemma {:induction false} GroupKeepsListed(l: Listing, group: seq<File>, size: int, now: int, t: Turn,
                                            other: seq<File>)
    requires AsListed(l, other)
    ensures AsListed(AfterGroup(l, group, size, now, t), other)
  {
    hide AsListed, Merge, Mark, RowsOf;
    if group != [] {
      MergeKeepsListed(l, group, size, now, other);
      var m := Meanwhile(Merge(l, group, size, now), t.between);
      MeanwhileKeepsListed(Merge(l, group, size, now), t.between, other);
      MarkKeepsListed(m, group, other);
    }
  }

  // ---------------------------------------------------------------- what a turn comes to

  /** The places of the files of a group below the size limit. */
  function Below(group: seq<File>, maxSize: int): set<nat> {
    set i: nat | i < |group| && group[i].size < maxSize
  }

  function BelowRows(group: seq<File>, maxSize: int): seq<Row> {
    if group == [] then [] else
      var last := group[|group| - 1];
      BelowRows(group[..|group| - 1], maxSize) + if last.size < maxSize then last.rows else []
  }

  lemma {:induction false} BelowNext(group: seq<File>, f: File, maxSize: int)
    ensures Below(group + [f], maxSize) ==
              if f.size < maxSize then Below(group, maxSize) + {|group|} else Below(group, maxSize)
  {}

  lemma {:induction false} SmallNext(group: seq<File>, f: File, maxSize: int)
    ensures Small(group + [f], maxSize) ==
              if f.size < maxSize then Small(group, maxSize) + [f] else Small(group, maxSize)
    ensures BelowRows(group + [f], maxSize) ==
              if f.size < maxSize then BelowRows(group, maxSize) + f.rows else BelowRows(group, maxSize)
    ensures RowsOf(group + [f]) == RowsOf(group) + f.rows
  {
    assert (group + [f])[..|group|] == group;
  }

  lemma {:induction false} NothingBelow(maxSize: int)
    ensures Below([], maxSize) == {} && BelowRows([], maxSize) == [] && Small([], maxSize) == [] && RowsOf([]) == []
  {}

  lemma {:induction false} SmallBelow(group: seq<File>, maxSize: int)
    ensures |Small(group, maxSize)| == |Below(group, maxSize)|
    ensures RowsOf(Small(group, maxSize)) == BelowRows(group, maxSize)
  {
    hide Small, RowsOf, BelowRows;
    if group == [] {
      NothingBelow(maxSize);
    } else {
      var init, last := group[..|group| - 1], group[|group| - 1];
      assert group == init + [last];
      SmallBelow(init, maxSize);
      BelowNext(init, last, maxSize);
      SmallNext(init, last, maxSize);
      SmallNext(Small(init, maxSize), last, maxSize);
    }
  }

  lemma {:induction false} RowsBelow(group: seq<File>, maxSize: int)
    ensures BelowRows(group, maxSize) != [] <==> HasRows(group, maxSize)
  {
    if group != [] {
      var n := |group| - 1;
      var init := group[..n];
      RowsBelow(init, maxSize);
      if HasRows(init, maxSize) {
        var i :| i in Below(init, maxSize) && init[i].rows != [];
        assert i in Below(group, maxSize) && group[i] == init[i];
      }
      if HasRows(group, maxSize) {
        var i :| i in Below(group, maxSize) && group[i].rows != [];
        if i < n { assert i in Below(init, maxSize) && group[i] == init[i]; }
      }
      if group[n].size < maxSize { assert n in Below(group, maxSize); }
    }
  }

  /** One of the small files holds rows. */
  predicate HasRows(group: seq<File>, maxSize: int) {
    exists i :: i in Below(group, maxSize) && group[i].rows != []
  }

  /** One of the small files has this id. */
  predicate SmallId(group: seq<File>, maxSize: int, id: nat) {
    exists i :: i in Below(group, maxSize) && group[i].id == id
  }

  /** The small files are merged: as many as required, and at least one. */
  predicate Enough(group: seq<File>, minFiles: nat, maxSize: int) {
    |Below(group, maxSize)| >= Max(minFiles, 1)
  }

  /** Only files with the id of a small member are marked, and all of them. */
  ghost predicate SmallMarked(files: seq<File>, files': seq<File>, group: seq<File>, maxSize: int) {
    |files| <= |files'| && forall k :: 0 <= k < |files| ==>
      files'[k] == if SmallId(group, maxSize, files[k].id) then files[k].(deleted := true) else files[k]
  }

  /**
    One turn without a fault.  With enough small files, some with rows, they are marked, and one live file
    holds their rows, in order; in all other cases the list stays as it is.
  */
  ghost predicate TurnResult(l: Listing, l': Listing, merged: nat, group: seq<File>, minFiles: nat, maxSize: int) {
    && merged == (if Enough(group, minFiles, maxSize) then 1 else 0)
    && if Enough(group, minFiles, maxSize) && HasRows(group, maxSize) then
         && |l'.files| == |l.files| + 1 && l'.nextId == l.nextId + 1
         && SmallMarked(l.files, l'.files, group, maxSize)
         && var f := l'.files[|l.files|];
            && !f.deleted && f.id == l.nextId && f.rows == BelowRows(group, maxSize)
            && f.workspace == group[0].workspace && f.signal == group[0].signal
       else
         l' == l
  }

  lemma {:induction false} TurnMerges(l: Listing, group: seq<File>, minFiles: nat, maxSize: int, size: int, now: int)
    requires AsListed(l, group) && Enough(group, minFiles, maxSize) && HasRows(group, maxSize)
    ensures var after := AfterGroup(l, Small(group, maxSize), size, now, Turn([], [], Fine));
            TurnResult(l, after, 1, group, minFiles, maxSize)
  {
    var small := Small(group, maxSize);
    SmallBelow(group, maxSize);
    RowsBelow(group, maxSize);
    hide Below, BelowRows, HasRows, RowsOf, Mark, Merge, Merged, Meanwhile, Small, AsListed, SmallMarked;
    NothingMeanwhile(Merge(l, small, size, now));
    SmallMarks(l, group, maxSize, size, now);
    MergedFields(l, group, maxSize, size, now);
  }

  lemma {:induction false} TurnPasses(l: Listing, group: seq<File>, minFiles: nat, maxSize: int, size: int, now: int,
                                      fault: Fault)
    requires !(minFiles == 0 && group != [] && Below(group, maxSize) == {}) && fault == Fine
    ensures Passed(group, minFiles, maxSize) <==> !Enough(group, minFiles, maxSize)
    ensures Enough(group, minFiles, maxSize) && !HasRows(group, maxSize) ==>
              AfterGroup(l, Small(group, maxSize), size, now, Turn([], [], fault)) == l
  {
    SmallBelow(group, maxSize);
    RowsBelow(group, maxSize);
    NothingBelow(maxSize);
    hide Below, BelowRows, HasRows, RowsOf, Small;
  }

  lemma {:induction false} TurnExact(l: Listing, group: seq<File>, minFiles: nat, maxSize: int, size: int, now: int,
                                     t: Turn)
    requires AsListed(l, group) && t.between == [] && t.fault == Fine
    requires !(minFiles == 0 && group != [] && Below(group, maxSize) == {})
    ensures TurnResult(Meanwhile(l, t.before), AfterTurn(l, group, minFiles, maxSize, size, now, t),
                       if Counted(group, minFiles, maxSize, t) then 1 else 0, group, minFiles, maxSize)
  {
    var m := Meanwhile(l, t.before);
    MeanwhileKeepsListed(l, t.before, group);
    TurnPasses(m, group, minFiles, maxSize, size, now, t.fault);
    SameTurn(m, Small(group, maxSize), size, now, t);
    hide Below, HasRows, Enough, Meanwhile, Small, AsListed, AfterGroup, Passed, TurnResult;
    if Enough(group, minFiles, maxSize) && HasRows(group, maxSize) {
      TurnMerges(m, group, minFiles, maxSize, size, now);
    } else {
      SameList(m, if Enough(group, minFiles, maxSize) then 1 else 0, group, minFiles, maxSize);
    }
  }

  /**
    A fault is not counted.  Before the merged file is registered it leaves the list alone; after that the
    merged file stays beside the originals, none of which is marked.
  */
  lemma {:induction false} GroupFaults(l: Listing, group: seq<File>, size: int, now: int, t: Turn)
    requires group != [] && RowsOf(group) != [] && t.between == [] && t.fault != Fine
    ensures var after := AfterGroup(l, group, size, now, t);
            && !Succeeds(group, t.fault)
            && if t.fault != Marking then after == l else
                 && |after.files| == |l.files| + 1 && after.files[..|l.files|] == l.files
                 && !after.files[|l.files|].deleted && after.files[|l.files|].rows == RowsOf(group)
  {
    NothingMeanwhile(Merge(l, group, size, now));
  }

  /** What happens before a merge is not the merge's matter. */
  lemma {:induction false} SameTurn(l: Listing, group: seq<File>, size: int, now: int, t: Turn)
    requires t.between == [] && t.fault == Fine
    ensures AfterGroup(l, group, size, now, t) == AfterGroup(l, group, size, now, Turn([], [], Fine))
  {}

  lemma {:induction false} SameList(l: Listing, merged: nat, group: seq<File>, minFiles: nat, maxSize: int)
    requires merged == if Enough(group, minFiles, maxSize) then 1 else 0
    requires !(Enough(group, minFiles, maxSize) && HasRows(group, maxSize))
    ensures TurnResult(l, l, merged, group, minFiles, maxSize)
  {}

  lemma {:induction false} NothingMeanwhile(l: Listing)
    ensures Meanwhile(l, []) == l
  {}

  lemma {:induction false} MergedFields(l: Listing, group: seq<File>, maxSize: int, size: int, now: int)
    requires AsListed(l, group) && Small(group, maxSize) != []
    ensures var small := Small(group, maxSize);
            var f := Merged(small, l.nextId, size, now);
            && !f.deleted && f.id == l.nextId && f.rows == RowsOf(small)
            && f.workspace == group[0].workspace && f.signal == group[0].signal
            && Merge(l, small, size, now).nextId == l.nextId + 1
  {
    SmallMembers(group, maxSize);
    assert Small(group, maxSize)[0] in group;
  }

  lemma {:induction false} SmallMarks(l: Listing, group: seq<File>, maxSize: int, size: int, now: int)
    requires AsListed(l, group) && Small(group, maxSize) != []
    ensures var small := Small(group, maxSize);
            var files := Mark(Merge(l, small, size, now).files, small);
            && |files| == |l.files| + 1 && SmallMarked(l.files, files, group, maxSize)
            && files[|l.files|] == Merged(small, l.nextId, size, now)
  {
    var small := Small(group, maxSize);
    SmallMembers(group, maxSize);
    MarkShape(Merge(l, small, size, now).files, small);
    MergedFields(l, group, maxSize, size, now);
    hide Mark, Merged, Small, AsListed;
    forall id ensures (exists g :: g in small && g.id == id) <==> SmallId(group, maxSize, id) {
      if g :| g in small && g.id == id {
        var i: nat :| i < |group| && group[i] == g;
        assert i in Below(group, maxSize);
      }
      if i :| i in Below(group, maxSize) && group[i].id == id { assert group[i] in small; }
    }
    assert !SmallId(group, maxSize, l.nextId) by { SmallIdOld(l, group, maxSize); }
  }

  lemma {:induction false} SmallIdOld(l: Listing, group: seq<File>, maxSize: int)
    requires AsListed(l, group)
    ensures forall id: nat :: SmallId(group, maxSize, id) ==> id < l.nextId
  {}

  class FileList {
    var files: seq<File>
    var nextId: nat

    ghost function View(): Listing
      reads this
    {
      Listing(files, nextId)
    }

    constructor ()
      ensures View() == Listing([], 0) && WellFormed(View())
    {
      files, nextId := [], 0;
    }

    /** Write a file and register it with the bounds of its rows; an empty batch is refused. */
    method Write(workspace: string, signal: Signal, stream: string, rows: seq<Row>, size: int, now: int)
      returns (ok: bool)
      requires WellFormed(View())
      modifies this
      ensures WellFormed(View()) && (ok <==> rows != [])
      ensures View() == Step(old(View()), Register(workspace, signal, stream, rows, size, now))
      ensures AllSound(old(files)) && Forward(signal, rows) ==> AllSound(files)
    {
      if rows == [] { return false; }
      var minTs, maxTs := rows[0].ts, EndOf(signal, rows[0]);
      for k := 1 to |rows|
        invariant files == old(files) && nextId == old(nextId)
        invariant minTs == Start(rows[..k]) && maxTs == End(signal, rows[..k])
      {
        BoundsNext(signal, rows, k);
        if rows[k].ts < minTs { minTs := rows[k].ts; }
        if EndOf(signal, rows[k]) > maxTs { maxTs := EndOf(signal, rows[k]); }
      }
      assert rows[..|rows|] == rows;
      if Forward(signal, rows) { ForwardIsSound(nextId, workspace, signal, stream, rows, size, now); }
      StepKeeps(View(), Register(workspace, signal, stream, rows, size, now));
      files := files + [File(nextId, workspace, signal, stream, Partition.HourOf(minTs), rows,
                             Micros(minTs), Micros(maxTs), |rows|, size, true, now, false)];
      nextId := nextId + 1;
      ok := true;
    }

    /** What retention, the reclaimer and writers do to the list in between. */
    method Others(os: seq<Other>)
      requires WellFormed(View())
      modifies this
      ensures View() == Meanwhile(old(View()), os) && WellFormed(View())
    {
      MeanwhileKeeps(View(), os);
      var l := Meanwhile(Listing(files, nextId), os);
      files, nextId := l.files, l.nextId;
    }

    /** Read, merge, write and register, and only then soft-delete. */
    method CompactGroup(group: seq<File>, size: int, now: int, t: Turn) returns (ok: bool)
      requires WellFormed(View()) && group != [] && AsListed(View(), group)
      modifies this
      ensures WellFormed(View()) && (ok <==> Succeeds(group, t.fault))
      ensures View() == AfterGroup(old(View()), group, size, now, t)
    {
      hide Mark, LeastMin, GreatestMax, Micros, Nanos, WellFormed, AsListed, Merge, Meanwhile;
      if t.fault == Reading { return false; }
      var rows: seq<Row> := [];
      for k := 0 to |group|
        invariant rows == RowsOf(group[..k]) && View() == old(View())
      {
        assert group[..k + 1][..k] == group[..k];
        rows := rows + group[k].rows;
      }
      assert group[..|group|] == group;
      if rows == [] { return true; }
      if t.fault == Writing { return false; }
      MergeKeeps(View(), group, size, now);
      var l := Merge(Listing(files, nextId), group, size, now);
      files, nextId := l.files, l.nextId;
      Others(t.between);
      if t.fault == Marking { return false; }
      MarkKeeps(View(), group);
      files := Mark(files, group);
      ok := true;
    }

    /** One turn of the scan; it panics at a group without small files if none are required. */
    method CompactTurn(group: seq<File>, minFiles: nat, maxSize: int, size: int, now: int, t: Turn)
      returns (merged: nat, panicked: bool)
      requires WellFormed(View()) && AsListed(View(), group)
      modifies this
      ensures WellFormed(View()) && (panicked <==> Panics(group, minFiles, maxSize))
      ensures View() == if panicked then Meanwhile(old(View()), t.before)
                        else AfterTurn(old(View()), group, minFiles, maxSize, size, now, t)
      ensures !panicked ==> merged == if Counted(group, minFiles, maxSize, t) then 1 else 0
      ensures !panicked && t.between == [] && t.fault == Fine ==>
        TurnResult(Meanwhile(old(View()), t.before), View(), merged, group, minFiles, maxSize)
    {
      PanicExact(group, minFiles, maxSize);
      if t.between == [] && t.fault == Fine && !Panics(group, minFiles, maxSize) {
        TurnExact(View(), group, minFiles, maxSize, size, now, t);
      }
      hide TurnResult, Below;
      hide WellFormed, AsListed, AfterGroup, Succeeds, Small, Meanwhile;
      MeanwhileKeepsListed(View(), t.before, group);
      Others(t.before);
      if group == [] { return 0, false; }
      var small := Small(group, maxSize);
      SmallListed(View(), group, maxSize);
      if |small| < minFiles { return 0, false; }
      if small == [] { return 0, true; }
      var ok := CompactGroup(small, size, now, t);
      return if ok then 1 else 0, false;
    }

    /**
      All groups of one query, one after the other.  With no minimum of files, a group without small files
      ends the scan by a panic; `done` groups have been handled by then.
    */
    method CompactAll(groups: seq<seq<File>>, minFiles: nat, maxSize: int, size: int, now: int, turns: seq<Turn>)
      returns (merged: nat, done: nat, panicked: bool)
      requires WellFormed(View()) && |turns| == |groups|
      requires forall k :: 0 <= k < |groups| ==> AsListed(View(), groups[k])
      modifies this
      ensures WellFormed(View()) && done <= |groups|
      ensures if panicked then done < |groups| && Panics(groups[done], minFiles, maxSize) else done == |groups|
      ensures forall k :: 0 <= k < done ==> !Panics(groups[k], minFiles, maxSize)
      ensures var l := AfterGroups(old(View()), groups[..done], minFiles, maxSize, size, now, turns[..done]);
              View() == if panicked then Meanwhile(l, turns[done].before) else l
      ensures merged == CountMerged(groups[..done], minFiles, maxSize, turns[..done])
    {
      hide *;
      merged, done, panicked := 0, 0, false;
      ScanStart(View(), minFiles, maxSize, size, now);
      assert groups[..0] == [] && turns[..0] == [];
      while done < |groups|
        invariant WellFormed(View()) && done <= |groups| && !panicked
        invariant View() == AfterGroups(old(View()), groups[..done], minFiles, maxSize, size, now, turns[..done])
        invariant merged == CountMerged(groups[..done], minFiles, maxSize, turns[..done])
        invariant forall k :: 0 <= k < done ==> !Panics(groups[k], minFiles, maxSize)
        invariant forall j :: done <= j < |groups| ==> AsListed(View(), groups[j])
      {
        ghost var l := View();
        ScanNext(old(View()), groups, done, minFiles, maxSize, size, now, turns);
        forall j | done <= j < |groups|
          ensures AsListed(AfterTurn(l, groups[done], minFiles, maxSize, size, now, turns[done]), groups[j])
        {
          TurnKeepsListed(l, groups[done], minFiles, maxSize, size, now, turns[done], groups[j]);
        }
        var n, stopped := CompactTurn(groups[done], minFiles, maxSize, size, now, turns[done]);
        if stopped { return merged, done, true; }
        merged, done := merged + n, done + 1;
      }
      assert groups[..|groups|] == groups && turns[..|turns|] == turns;
    }
  }

  lemma {:induction false} TurnKeepsListed(l: Listing, group: seq<File>, minFiles: nat, maxSize: int,
                                           size: int, now: int, t: Turn, other: seq<File>)
    requires AsListed(l, other)
    ensures AsListed(AfterTurn(l, group, minFiles, maxSize, size, now, t), other)
  {
    hide AsListed, AfterGroup, Small;
    MeanwhileKeepsListed(l, t.before, other);
    GroupKeepsListed(Meanwhile(l, t.before), Small(group, maxSize), size, now, t, other);
  }

  /** A panic needs a minimum of zero, and a group none of whose files is small. */
  lemma {:induction false} PanicExact(group: seq<File>, minFiles: nat, maxSize: int)
    ensures Panics(group, minFiles, maxSize) <==>
              minFiles == 0 && group != [] && forall i :: 0 <= i < |group| ==> group[i].size >= maxSize
    ensures Panics(group, minFiles, maxSize) <==> minFiles == 0 && group != [] && Below(group, maxSize) == {}
  {
    SmallBelow(group, maxSize);
    SmallMembers(group, maxSize);
    var small := Small(group, maxSize);
    if small != [] { assert small[0] in small; }
    if i :| 0 <= i < |group| && group[i].size < maxSize { assert group[i] in small; }
  }

  // ---------------------------------------------------------------- what a scan comes to

  predicate Merges(group: seq<File>, minFiles: nat, maxSize: int) {
    Enough(group, minFiles, maxSize) && HasRows(group, maxSize)
  }

  /** A small file of a group that is merged. */
  predicate Consumed(groups: seq<seq<File>>, minFiles: nat, maxSize: int, id: nat) {
    exists k :: 0 <= k < |groups| && Merges(groups[k], minFiles, maxSize) && SmallId(groups[k], maxSize, id)
  }

  function EnoughAt(groups: seq<seq<File>>, minFiles: nat, maxSize: int): set<nat> {
    set k: nat | k < |groups| && Enough(groups[k], minFiles, maxSize)
  }

  function MergesAt(groups: seq<seq<File>>, minFiles: nat, maxSize: int): set<nat> {
    set k: nat | k < |groups| && Merges(groups[k], minFiles, maxSize)
  }

  /** The files with the rows of the merged groups, all live. */
  ghost predicate HoldMerged(l: Listing, l': Listing, groups: seq<seq<File>>, minFiles: nat, maxSize: int) {
    && |l'.files| == |l.files| + |MergesAt(groups, minFiles, maxSize)|
    && (forall j :: |l.files| <= j < |l'.files| ==> !l'.files[j].deleted && l'.files[j].id >= l.nextId)
    && forall k :: k in MergesAt(groups, minFiles, maxSize) ==>
         exists j :: |l.files| <= j < |l'.files| && l'.files[j].rows == BelowRows(groups[k], maxSize)
  }

  /**
    A whole scan without fault or disturbance: of the old files those are marked that are small members of a
    group with enough of them, each such group has its live file, and the count is that of these groups,
    empty ones included.
  */
  lemma {:induction false} ScanExact(l: Listing, groups: seq<seq<File>>, minFiles: nat, maxSize: int,
                                     size: int, now: int, turns: seq<Turn>)
    requires |turns| == |groups| && forall k :: 0 <= k < |turns| ==> turns[k] == Turn([], [], Fine)
    requires forall k :: 0 <= k < |groups| ==> AsListed(l, groups[k])
    requires forall k :: 0 <= k < |groups| ==>
               !(minFiles == 0 && groups[k] != [] && Below(groups[k], maxSize) == {})
    ensures var l' := AfterGroups(l, groups, minFiles, maxSize, size, now, turns);
            && CountMerged(groups, minFiles, maxSize, turns) == |EnoughAt(groups, minFiles, maxSize)|
            && HoldMerged(l, l', groups, minFiles, maxSize)
            && (forall j :: 0 <= j < |l.files| ==>
                 l'.files[j] == if Consumed(groups, minFiles, maxSize, l.files[j].id)
                                then l.files[j].(deleted := true) else l.files[j])
            && l.nextId <= l'.nextId && forall other :: AsListed(l, other) ==> AsListed(l', other)
  {
    hide AsListed, AfterTurn, Below, BelowRows, Enough, HasRows, SmallId, Counted, Panics, Meanwhile, EnoughAt,
         MergesAt, HoldMerged, Consumed, AfterGroups, CountMerged;
    if groups == [] {
      ScanStart(l, minFiles, maxSize, size, now);
      NoneMerged(l, minFiles, maxSize);
    } else {
      var n := |groups| - 1;
      ScanExact(l, groups[..n], minFiles, maxSize, size, now, turns[..n]);
      var m := AfterGroups(l, groups[..n], minFiles, maxSize, size, now, turns[..n]);
      assert groups[..n + 1] == groups && turns[..n + 1] == turns;
      ScanNext(l, groups, n, minFiles, maxSize, size, now, turns);
      TurnExact(m, groups[n], minFiles, maxSize, size, now, turns[n]);
      NothingMeanwhile(m);
      forall other | AsListed(l, other)
        ensures AsListed(AfterTurn(m, groups[n], minFiles, maxSize, size, now, turns[n]), other)
      {
        TurnKeepsListed(m, groups[n], minFiles, maxSize, size, now, turns[n], other);
      }
      SmallIdOld(l, groups[n], maxSize);
      assert groups == groups[..n] + [groups[n]];
      GroupsNext(groups[..n], groups[n], minFiles, maxSize);
      var l' := AfterTurn(m, groups[n], minFiles, maxSize, size, now, turns[n]);
      var merged := if Counted(groups[n], minFiles, maxSize, turns[n]) then 1 else 0;
      ScanHolds(l, m, l', merged, groups[..n], groups[n], minFiles, maxSize);
      ScanMarks(l.files, m.files, l'.files, groups[..n], groups[n], minFiles, maxSize);
    }
  }

  lemma {:induction false} NoneMerged(l: Listing, minFiles: nat, maxSize: int)
    ensures HoldMerged(l, l, [], minFiles, maxSize) && EnoughAt([], minFiles, maxSize) == {}
    ensures forall id: nat :: !Consumed([], minFiles, maxSize, id)
  {}

  lemma {:induction false} GroupsNext(groups: seq<seq<File>>, g: seq<File>, minFiles: nat, maxSize: int)
    ensures EnoughAt(groups + [g], minFiles, maxSize) ==
              EnoughAt(groups, minFiles, maxSize) + if Enough(g, minFiles, maxSize) then {|groups|} else {}
    ensures MergesAt(groups + [g], minFiles, maxSize) ==
              MergesAt(groups, minFiles, maxSize) + if Merges(g, minFiles, maxSize) then {|groups|} else {}
    ensures |groups| !in EnoughAt(groups, minFiles, maxSize) && |groups| !in MergesAt(groups, minFiles, maxSize)
    ensures forall id: nat :: Consumed(groups + [g], minFiles, maxSize, id) <==>
              Consumed(groups, minFiles, maxSize, id) || (Merges(g, minFiles, maxSize) && SmallId(g, maxSize, id))
  {
    hide Enough, Merges, SmallId;
    var all := groups + [g];
    assert forall k :: 0 <= k < |groups| ==> all[k] == groups[k];
    assert all[|groups|] == g;
    forall id: nat | Consumed(groups, minFiles, maxSize, id) ensures Consumed(all, minFiles, maxSize, id) {
      var k :| 0 <= k < |groups| && Merges(groups[k], minFiles, maxSize) && SmallId(groups[k], maxSize, id);
      assert all[k] == groups[k];
    }
  }

  /** The old files after one more group of the scan. */
  lemma {:induction false} ScanMarks(files: seq<File>, m: seq<File>, files': seq<File>, groups: seq<seq<File>>,
                                     g: seq<File>, minFiles: nat, maxSize: int)
    requires |files| <= |m| && forall j :: 0 <= j < |files| ==>
               m[j] == if Consumed(groups, minFiles, maxSize, files[j].id) then files[j].(deleted := true) else files[j]
    requires if Merges(g, minFiles, maxSize) then SmallMarked(m, files', g, maxSize) else files' == m
    ensures |files| <= |files'| && forall j :: 0 <= j < |files| ==>
              files'[j] == if Consumed(groups + [g], minFiles, maxSize, files[j].id)
                           then files[j].(deleted := true) else files[j]
  {
    hide Merges, SmallId, Consumed;
    forall id: nat
      ensures Consumed(groups + [g], minFiles, maxSize, id) <==>
              Consumed(groups, minFiles, maxSize, id) || (Merges(g, minFiles, maxSize) && SmallId(g, maxSize, id))
    {
      GroupsNext(groups, g, minFiles, maxSize);
    }
  }

  lemma {:induction false} NoneHeld(l: Listing, m: Listing, groups: seq<seq<File>>, g: seq<File>, minFiles: nat,
                                    maxSize: int)
    requires HoldMerged(l, m, groups, minFiles, maxSize) && !Merges(g, minFiles, maxSize)
    ensures HoldMerged(l, m, groups + [g], minFiles, maxSize)
  {
    GroupsNext(groups, g, minFiles, maxSize);
    MergesBound(groups, minFiles, maxSize);
    hide Merges, BelowRows, MergesAt;
    assert forall k :: 0 <= k < |groups| ==> (groups + [g])[k] == groups[k];
    assert MergesAt(groups + [g], minFiles, maxSize) == MergesAt(groups, minFiles, maxSize);
  }

  /** The merged files after one more group of the scan. */
  lemma {:induction false} OneHeld(l: Listing, m: Listing, l': Listing, groups: seq<seq<File>>, g: seq<File>,
                                   minFiles: nat, maxSize: int)
    requires HoldMerged(l, m, groups, minFiles, maxSize) && l.nextId <= m.nextId && Merges(g, minFiles, maxSize)
    requires |l'.files| == |m.files| + 1
    requires forall j :: |l.files| <= j < |m.files| ==> l'.files[j] == m.files[j]
    requires var f := l'.files[|m.files|]; !f.deleted && f.id == m.nextId && f.rows == BelowRows(g, maxSize)
    ensures HoldMerged(l, l', groups + [g], minFiles, maxSize)
  {
    GroupsNext(groups, g, minFiles, maxSize);
    MergesBound(groups, minFiles, maxSize);
    hide Merges, BelowRows, MergesAt, Consumed, EnoughAt, Enough, SmallId;
    var all, at := groups + [g], MergesAt(groups, minFiles, maxSize);
    assert |MergesAt(all, minFiles, maxSize)| == |at| + 1;
    forall k | k in MergesAt(all, minFiles, maxSize)
      ensures exists j :: |l.files| <= j < |l'.files| && l'.files[j].rows == BelowRows(all[k], maxSize)
    {
      if k in at {
        var j :| |l.files| <= j < |m.files| && m.files[j].rows == BelowRows(groups[k], maxSize);
        assert all[k] == groups[k] && l'.files[j].rows == BelowRows(all[k], maxSize);
      } else {
        assert all[k] == g && l'.files[|m.files|].rows == BelowRows(all[k], maxSize);
      }
    }
  }

  lemma {:induction false} ScanHolds(l: Listing, m: Listing, l': Listing, merged: nat, groups: seq<seq<File>>,
                                     g: seq<File>, minFiles: nat, maxSize: int)
    requires HoldMerged(l, m, groups, minFiles, maxSize) && l.nextId <= m.nextId
    requires TurnResult(m, l', merged, g, minFiles, maxSize)
    requires forall id: nat :: SmallId(g, maxSize, id) ==> id < l.nextId
    ensures HoldMerged(l, l', groups + [g], minFiles, maxSize) && |l.files| <= |m.files|
  {
    hide SmallId, BelowRows, MergesAt, HasRows, Enough;
    if Merges(g, minFiles, maxSize) {
      OneHeld(l, m, l', groups, g, minFiles, maxSize);
    } else {
      NoneHeld(l, m, groups, g, minFiles, maxSize);
    }
  }

  lemma {:induction false} MergesBound(groups: seq<seq<File>>, minFiles: nat, maxSize: int)
    ensures forall k :: k in MergesAt(groups, minFiles, maxSize) ==> k < |groups|
  {}

  // ---------------------------------------------------------------- pruning after any number of scans

  predicate AllForward(os: seq<Other>) {
    forall i :: 0 <= i < |os| && os[i].Register? ==> Forward(os[i].signal, os[i].rows)
  }

  lemma {:induction false} StepSound(l: Listing, o: Other)
    requires AllSound(l.files) && (o.Register? ==> Forward(o.signal, o.rows))
    ensures AllSound(Step(l, o).files)
  {
    match o {
      case Drop(ids) =>
        DroppedShape(l.files, ids);
        assert forall i :: 0 <= i < |Dropped(l.files, ids)| ==> Dropped(l.files, ids)[i] in l.files;
      case Register(workspace, signal, stream, rows, size, now) =>
        if rows != [] { ForwardIsSound(l.nextId, workspace, signal, stream, rows, size, now); }
      case Retire(_) =>
    }
  }

  lemma {:induction false} MeanwhileSound(l: Listing, os: seq<Other>)
    requires AllSound(l.files) && AllForward(os)
    ensures AllSound(Meanwhile(l, os).files)
  {
    if os != [] {
      MeanwhileSound(l, os[..|os| - 1]);
      StepSound(Meanwhile(l, os[..|os| - 1]), os[|os| - 1]);
    }
  }

  lemma {:induction false} GroupSound(l: Listing, group: seq<File>, size: int, now: int, t: Turn)
    requires AllSound(l.files) && AllSound(group) && AllForward(t.between)
    requires forall i :: 0 <= i < |group| ==> Scalable(group[i])
    ensures AllSound(AfterGroup(l, group, size, now, t).files)
  {
    hide RowsOf, Mark, Merged, Sound, Scalable;
    if group != [] {
      MergedSound(group, l.nextId, size, now);
      var m := Merge(l, group, size, now);
      MeanwhileSound(m, t.between);
      MarkSound(Meanwhile(m, t.between).files, group);
    }
  }

  lemma {:induction false} MarkSound(files: seq<File>, group: seq<File>)
    requires AllSound(files)
    ensures AllSound(Mark(files, group))
  {
    MarkShape(files, group);
  }

  /** Whatever a scan meets and whatever others write meanwhile, pruning stays right for every range. */
  lemma {:induction false} ScanPrunes(l: Listing, groups: seq<seq<File>>, minFiles: nat, maxSize: int,
                                      size: int, now: int, turns: seq<Turn>, start: I64, end: I64)
    requires |turns| == |groups| && AllSound(l.files)
    requires forall k :: 0 <= k < |groups| ==> AllSound(groups[k]) && AsListed(l, groups[k])
    requires forall k :: 0 <= k < |turns| ==> AllForward(turns[k].before) && AllForward(turns[k].between)
    ensures var files := AfterGroups(l, groups, minFiles, maxSize, size, now, turns).files;
            AllSound(files) && PrunedScan(files, start, end) == FullScan(files, start, end)
  {
    ScanSound(l, groups, minFiles, maxSize, size, now, turns);
    PrunedEqualsFull(AfterGroups(l, groups, minFiles, maxSize, size, now, turns).files, start, end);
  }

  lemma {:induction false} ScanSound(l: Listing, groups: seq<seq<File>>, minFiles: nat, maxSize: int, size: int,
                                     now: int, turns: seq<Turn>)
    requires |turns| == |groups| && AllSound(l.files)
    requires forall k :: 0 <= k < |groups| ==> AllSound(groups[k]) && AsListed(l, groups[k])
    requires forall k :: 0 <= k < |turns| ==> AllForward(turns[k].before) && AllForward(turns[k].between)
    ensures AllSound(AfterGroups(l, groups, minFiles, maxSize, size, now, turns).files)
  {
    if groups != [] {
      var n := |groups| - 1;
      ScanSound(l, groups[..n], minFiles, maxSize, size, now, turns[..n]);
      hide AllSound, AfterGroup, AllForward, Meanwhile, Scalable;
      MeanwhileSound(AfterGroups(l, groups[..n], minFiles, maxSize, size, now, turns[..n]), turns[n].before);
      SmallSound(groups[n], maxSize);
      SmallListed(l, groups[n], maxSize);
      var m := Meanwhile(AfterGroups(l, groups[..n], minFiles, maxSize, size, now, turns[..n]), turns[n].before);
      GroupSound(m, Small(groups[n], maxSize), size, now, turns[n]);
    }
  }

  lemma {:induction false} SmallSound(group: seq<File>, maxSize: int)
    requires AllSound(group)
    ensures AllSound(Small(group, maxSize))
  {
    SmallMembers(group, maxSize);
    var small := Small(group, maxSize);
    forall i | 0 <= i < |small| ensures Sound(small[i]) { assert small[i] in group; }
  }

  // ---------------------------------------------------------------- a scan nobody disturbs

  predicate Undisturbed(turns: seq<Turn>) {
    forall k :: 0 <= k < |turns| ==> turns[k].before == [] && turns[k].between == []
  }

  /**
    One group, right after it was listed: queries over a signal see at least what they saw, and the same
    without a fault.
  */
  lemma {:induction false} GroupConserves(l: Listing, group: seq<File>, size: int, now: int, t: Turn, v: Scope)
    requires WellFormed(l) && AsListed(l, group) && AllStill(l.files, group) && t.between == [] && v.stream == None
    ensures var after := AfterGroup(l, group, size, now, t);
            && WellFormed(after) && Live(l.files, v) <= Live(after.files, v)
            && (t.fault != Marking ==> Live(after.files, v) == Live(l.files, v))
            && forall f :: f in l.files && (forall g :: g in group ==> g.id != f.id) ==> f in after.files
  {
    hide Live, Mark, Merged, RowsOf, WellFormed, AsListed, AllStill, Lapsed;
    if group != [] {
      LapsedRowsReturn(l, group, size, now, v);
      LapsedUnseen(l, group, v);
      MergeKeeps(l, group, size, now);
      var m := Merge(l, group, size, now);
      MarkKeeps(m, group);
      assert Meanwhile(m, []) == m;
      forall f | f in l.files && forall g :: g in group ==> g.id != f.id
        ensures f in m.files && f in Mark(m.files, group)
      {
        StaysUnmarked(m, group, f);
      }
    }
  }

  lemma {:induction false} StaysUnmarked(l: Listing, group: seq<File>, f: File)
    requires WellFormed(l) && f in l.files && forall g :: g in group ==> g.id != f.id
    ensures f in Mark(l.files, group)
  {
    StillThere(l.files, group, f);
  }

  /** A whole scan of fresh groups never hides a row, and shows none twice unless a marking statement failed. */
  lemma {:induction false} ScanConserves(l: Listing, groups: seq<seq<File>>, minFiles: nat, maxSize: int,
                                         size: int, now: int, turns: seq<Turn>, v: Scope)
    requires WellFormed(l) && |turns| == |groups| && Disjoint(groups) && Undisturbed(turns) && v.stream == None
    requires forall k :: 0 <= k < |groups| ==> AsListed(l, groups[k])
    requires forall k, g :: 0 <= k < |groups| && g in groups[k] ==> g in l.files
    ensures var after := AfterGroups(l, groups, minFiles, maxSize, size, now, turns);
            && WellFormed(after) && Live(l.files, v) <= Live(after.files, v)
            && ((forall k :: 0 <= k < |turns| ==> turns[k].fault != Marking) ==>
              Live(after.files, v) == Live(l.files, v))
            && (forall other :: AsListed(l, other) ==> AsListed(after, other))
            && forall f :: f in l.files && (forall k, g :: 0 <= k < |groups| && g in groups[k] ==> g.id != f.id) ==>
              f in after.files
  {
    hide Live, WellFormed, AsListed, AfterGroup, Small, Passed;
    if groups != [] {
      var n := |groups| - 1;
      ScanConserves(l, groups[..n], minFiles, maxSize, size, now, turns[..n], v);
      var m := AfterGroups(l, groups[..n], minFiles, maxSize, size, now, turns[..n]);
      assert Meanwhile(m, turns[n].before) == m;
      var small := Small(groups[n], maxSize);
      SmallListed(m, groups[n], maxSize);
      SmallMembers(groups[n], maxSize);
      forall g | g in small ensures g in m.files { FirstGroupsApart(groups, n, g); }
      assert AllStill(m.files, small);
      GroupConserves(m, small, size, now, turns[n], v);
      forall other | AsListed(m, other) ensures AsListed(AfterGroup(m, small, size, now, turns[n]), other) {
        GroupKeepsListed(m, small, size, now, turns[n], other);
      }
    } else {
      ScanStart(l, minFiles, maxSize, size, now);
    }
  }

  lemma {:induction false} FirstGroupsApart(groups: seq<seq<File>>, n: nat, f: File)
    requires n < |groups| && Disjoint(groups) && f in groups[n]
    ensures forall k, g :: 0 <= k < n && g in groups[k] ==> g.id != f.id
  {
    forall k, g | 0 <= k < n && g in groups[k] ensures g.id != f.id { assert Apart(groups[k], groups[n]); }
  }
}
