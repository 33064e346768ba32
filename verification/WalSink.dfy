/**
  The log in front of the write buffer.  By default the sink is a buffer in memory: it answers as soon as the
  rows of a batch are in its slots, and a flush worker writes them to Parquet files later.  So what the
  checkpoint records as delivered may exist in memory only.
*/
module WalSink {
  import opened Prelude
  import opened WalModel
  import opened WalPending
  import opened WalSafety
  import opened WalExact
  import opened WalOnce
  import opened WalAhead

  /** Row number `at` of the batch a record carries. */
  datatype Row = Row(record: Entry, at: nat)

  datatype Server = Server(
    wal: Wal,
    rows: Entry -> nat,        // how many rows the sink decodes from a record
    buffered: bool,            // false: the sink writes a file before it answers
    held: set<Row>,            // in a slot of the buffer
    drained: set<Row>,         // taken out by the flush worker, not written yet
    files: set<Row>)           // in a Parquet file

  datatype Event =
    | Log(a: Action)           // an effect of the log; what it delivers goes to the sink
    | Drain(rs: set<Row>)
    | WriteFile(rs: set<Row>)
    | WriteFail(rs: set<Row>)  // the rows cannot be written and are dropped

  function Begin(rows: Entry -> nat, buffered: bool): Server {
    Server(EMPTY, rows, buffered, {}, {}, {})
  }

  function Lines(rows: Entry -> nat, es: seq<Entry>): set<Row> {
    set e, i | e in es && 0 <= i < rows(e) :: Row(e, i)
  }

  function Anywhere(s: Server): set<Row> {
    s.held + s.drained + s.files
  }

  predicate Enabled(s: Server, v: Event) {
    match v
    case Log(a) => WalModel.Enabled(s.wal, a)
    case Drain(rs) => s.wal.up && rs <= s.held
    case WriteFile(rs) => s.wal.up && rs <= s.drained
    case WriteFail(rs) => s.wal.up && rs <= s.drained
  }

  function After(s: Server, v: Event): Server
    requires Enabled(s, v)
  {
    match v
    case Log(a) =>
      var arrived := Lines(s.rows, Handed(s.wal, a));
      Server(Apply(s.wal, a), s.rows, s.buffered,
             if Ends(a) then {} else if s.buffered then s.held + arrived else s.held,
             if Ends(a) then {} else s.drained,
             if s.buffered then s.files else s.files + arrived)
    case Drain(rs) => s.(held := s.held - rs, drained := s.drained + rs)
    case WriteFile(rs) => s.(drained := s.drained - rs, files := s.files + rs)
    case WriteFail(rs) => s.(drained := s.drained - rs)
  }

  predicate Possible(s: Server, vs: seq<Event>)
    decreases |vs|
  {
    vs == [] || (Enabled(s, vs[0]) && Possible(After(s, vs[0]), vs[1..]))
  }

  function Final(s: Server, vs: seq<Event>): Server
    requires Possible(s, vs)
    decreases |vs|
  {
    if vs == [] then s else Final(After(s, vs[0]), vs[1..])
  }

  // ---------------------------------------------------------------- what must not be lost

  predicate Whole(s: Server, e: Entry, rs: set<Row>) {
    forall i :: 0 <= i < s.rows(e) ==> Row(e, i) in rs
  }

  /** Every record owed waits ahead of the checkpoint, or each of its rows is in memory or in a file. */
  ghost predicate Reached(s: Server) {
    forall e :: e in s.wal.owed ==> e in Unflushed(s.wal) || Whole(s, e, Anywhere(s))
  }

  /** Of the records that survive the end of the process, those the checkpoint has passed are in files. */
  ghost predicate Filed(s: Server, a: Action)
    requires WalModel.Enabled(s.wal, a)
  {
    forall e :: e in Apply(s.wal, a).owed ==> e in Unflushed(s.wal) || Whole(s, e, s.files)
  }

  /** Each row that is dropped belongs to a record that will be read again, or is somewhere else too. */
  ghost predicate Spare(s: Server, rs: set<Row>) {
    forall r :: r in rs && r.record in s.wal.owed && r.at < s.rows(r.record) ==>
      Ahead(s.wal, r.record) || r in s.held + (s.drained - rs) + s.files
  }

  ghost predicate Guard(s: Server, v: Event)
    requires Enabled(s, v)
  {
    match v
    case Log(a) => WalSafety.Guard(s.wal, a) && (Ends(a) ==> Filed(s, a))
    case WriteFail(rs) => Spare(s, rs)
    case _ => true
  }

  ghost predicate Guarded(s: Server, vs: seq<Event>)
    requires Possible(s, vs)
    decreases |vs|
  {
    vs == [] || (Guard(s, vs[0]) && Guarded(After(s, vs[0]), vs[1..]))
  }

  ghost predicate Covered(s: Server) {
    forall e :: e in s.wal.owed ==> Ahead(s.wal, e) || Whole(s, e, Anywhere(s))
  }

  ghost predicate Memory(s: Server) {
    !s.wal.up || !s.buffered ==> s.held == {} && s.drained == {}
  }

  ghost predicate ServerInv(s: Server) {
    Inv(s.wal) && Covered(s) && Memory(s)
  }

  // ---------------------------------------------------------------- the invariant of the server

  lemma {:induction false} WholeLines(s: Server, es: seq<Entry>, e: Entry)
    requires e in es
    ensures Whole(s, e, Lines(s.rows, es))
  {}

  lemma {:induction false} WholeMore(s: Server, s': Server, e: Entry, rs: set<Row>, rs': set<Row>)
    requires Whole(s, e, rs) && rs <= rs' && s'.rows == s.rows
    ensures Whole(s', e, rs')
  {}

  /** While the process lives, an effect of the log takes no row away, and what it hands over arrives. */
  lemma {:induction false} LogArrives(s: Server, a: Action)
    requires Enabled(s, Log(a)) && !Ends(a)
    ensures var s' := After(s, Log(a));
            s'.rows == s.rows && Anywhere(s) <= Anywhere(s') && Lines(s.rows, Handed(s.wal, a)) <= Anywhere(s')
  {
    hide Lines, Handed, Apply, WalModel.Enabled;
  }

  lemma {:induction false} CoveredLog(s: Server, a: Action)
    requires ServerInv(s) && Enabled(s, Log(a)) && Guard(s, Log(a)) && !Ends(a)
    ensures Covered(After(s, Log(a)))
  {
    hide Inv, Ahead, Apply, WalModel.Enabled, WalSafety.Guard, Handed, Anywhere, Whole, Lines, After;
    var w, s' := s.wal, After(s, Log(a));
    AfterLog(s, a);
    LogArrives(s, a);
    forall e | e in s'.wal.owed && !Ahead(s'.wal, e) ensures Whole(s', e, Anywhere(s')) {
      if e !in w.owed { NewlyOwed(w, a, e); }
      if Ahead(w, e) {
        AheadKept(w, a, e);
        WholeLines(s, Handed(w, a), e);
        WholeMore(s, s', e, Lines(s.rows, Handed(w, a)), Anywhere(s'));
      } else {
        WholeMore(s, s', e, Anywhere(s), Anywhere(s'));
      }
    }
  }

  lemma {:induction false} AfterLog(s: Server, a: Action)
    requires Enabled(s, Log(a))
    ensures var s' := After(s, Log(a)); s'.wal == Apply(s.wal, a) && s'.rows == s.rows && s'.buffered == s.buffered
    ensures Ends(a) ==> s.files <= After(s, Log(a)).files == Anywhere(After(s, Log(a)))
    ensures Ends(a) && s.buffered ==> After(s, Log(a)).files == s.files
  {
    hide Apply, WalModel.Enabled, Handed, Lines;
  }

  /** The process may end as long as what the checkpoint has passed is in files. */
  lemma {:induction false} CoveredEnds(s: Server, a: Action)
    requires ServerInv(s) && Enabled(s, Log(a)) && Guard(s, Log(a)) && Ends(a)
    ensures Covered(After(s, Log(a)))
  {
    hide Inv, Ahead, Apply, WalModel.Enabled, WalSafety.Guard, Handed, Anywhere, Whole, Lines, After, Unflushed;
    var w, s' := s.wal, After(s, Log(a));
    AfterLog(s, a);
    InvShape(w);
    forall e | e in s'.wal.owed && !Ahead(s'.wal, e) ensures Whole(s', e, Anywhere(s')) {
      if e in Unflushed(w) { AheadEnds(w, a, e); }
      WholeMore(s, s', e, s.files, Anywhere(s'));
    }
  }

  lemma {:induction false} MemoryLog(s: Server, a: Action)
    requires ServerInv(s) && Enabled(s, Log(a))
    ensures Memory(After(s, Log(a)))
  {
    hide Inv, Covered, Lines, Handed;
    if Ends(a) {
      EndsDown(s.wal, a);
    } else if !s.wal.up {
      StartHands(s.wal, a);
    }
    hide Apply, WalModel.Enabled;
  }

  /** A stopped log hands nothing over. */
  lemma {:induction false} StartHands(w: Wal, a: Action)
    requires WalModel.Enabled(w, a) && !w.up && !Ends(a)
    ensures Handed(w, a) == [] && forall rows :: Lines(rows, Handed(w, a)) == {}
  {}

  lemma {:induction false} CoveredBuffer(s: Server, v: Event)
    requires ServerInv(s) && Enabled(s, v) && Guard(s, v) && !v.Log?
    ensures Covered(After(s, v)) && Memory(After(s, v)) && After(s, v).wal == s.wal
  {
    hide Inv, Ahead;
    var s' := After(s, v);
    forall e | e in s.wal.owed && !Ahead(s.wal, e) ensures Whole(s', e, Anywhere(s')) {
      forall i | 0 <= i < s.rows(e) ensures Row(e, i) in Anywhere(s') {
        assert Row(e, i) in Anywhere(s);
      }
    }
  }

  lemma {:induction false} ServerInvKept(s: Server, v: Event)
    requires ServerInv(s) && Enabled(s, v) && Guard(s, v)
    ensures ServerInv(After(s, v))
  {
    hide Inv, Covered, Memory, Apply, WalModel.Enabled, WalSafety.Guard, Filed, Spare;
    if v.Log? {
      InvKept(s.wal, v.a);
      AfterLog(s, v.a);
      MemoryLog(s, v.a);
      if Ends(v.a) { CoveredEnds(s, v.a); } else { CoveredLog(s, v.a); }
    } else {
      CoveredBuffer(s, v);
    }
  }

  lemma {:induction false} ServerInvOnRuns(s: Server, vs: seq<Event>)
    requires ServerInv(s) && Possible(s, vs) && Guarded(s, vs)
    ensures ServerInv(Final(s, vs))
    decreases |vs|
  {
    hide ServerInv, Guard, Enabled, After;
    if vs != [] {
      ServerInvKept(s, vs[0]);
      ServerInvOnRuns(After(s, vs[0]), vs[1..]);
    }
  }

  lemma {:induction false} BeginInv(rows: Entry -> nat, buffered: bool)
    ensures ServerInv(Begin(rows, buffered))
  {}

  lemma {:induction false} InvMeansReached(s: Server)
    requires ServerInv(s)
    ensures Reached(s)
  {
    hide Ahead, Whole, Unflushed, Struct, Settled, Kept, PassQueue, Above;
    forall e | e in s.wal.owed && e !in Unflushed(s.wal) ensures Whole(s, e, Anywhere(s)) { AheadUnflushed(s.wal, e); }
  }

  /** In every state of every guarded run each record owed will be read again or has all its rows. */
  lemma {:induction false} ReachedOnRuns(rows: Entry -> nat, buffered: bool, vs: seq<Event>)
    requires Possible(Begin(rows, buffered), vs) && Guarded(Begin(rows, buffered), vs)
    ensures Reached(Final(Begin(rows, buffered), vs))
  {
    BeginInv(rows, buffered);
    ServerInvOnRuns(Begin(rows, buffered), vs);
    InvMeansReached(Final(Begin(rows, buffered), vs));
  }

  // ---------------------------------------------------------------- the guards are exact

  ghost predicate SafeFrom(s: Server) {
    forall vs :: Possible(s, vs) && Guarded(s, vs) ==> Reached(Final(s, vs))
  }

  lemma {:induction false} InvSafe(s: Server)
    requires ServerInv(s)
    ensures SafeFrom(s)
  {
    hide ServerInv, Reached;
    forall vs | Possible(s, vs) && Guarded(s, vs) ensures Reached(Final(s, vs)) {
      ServerInvOnRuns(s, vs);
      InvMeansReached(Final(s, vs));
    }
  }

  lemma {:induction false} SafeNow(s: Server)
    requires SafeFrom(s)
    ensures Reached(s)
  {
    assert Possible(s, []) && Guarded(s, []) && Final(s, []) == s;
  }

  /**
    Ending the process keeps everything safe, in every continuation, exactly if what the checkpoint has
    passed is in files by then: no record is left whose rows are only in the buffer.
  */
  lemma {:induction false} StopExact(s: Server, a: Action)
    requires ServerInv(s) && s.buffered && Enabled(s, Log(a)) && WalSafety.Guard(s.wal, a) && Ends(a)
    ensures SafeFrom(After(s, Log(a))) <==> Filed(s, a)
  {
    hide Inv, Covered, Memory, Apply, WalModel.Enabled, WalSafety.Guard, Whole, After, Unflushed, SafeFrom;
    var s' := After(s, Log(a));
    if Filed(s, a) {
      ServerInvKept(s, Log(a));
      InvSafe(s');
    } else {
      AfterLog(s, a);
      InvShape(s.wal);
      var e :| e in s'.wal.owed && e !in Unflushed(s.wal) && !Whole(s, e, s.files);
      if e in Unflushed(s'.wal) { EndsKeepQueue(s.wal, a, e); }
      if Whole(s', e, Anywhere(s')) { WholeMore(s', s, e, Anywhere(s'), s.files); }
      if SafeFrom(s') { SafeNow(s'); }
    }
  }

  /** Rows that cannot be written may be dropped exactly if they are spare. */
  lemma {:induction false} DropExact(s: Server, rs: set<Row>)
    requires ServerInv(s) && Enabled(s, WriteFail(rs))
    ensures SafeFrom(After(s, WriteFail(rs))) <==> Spare(s, rs)
  {
    var s' := After(s, WriteFail(rs));
    if Spare(s, rs) {
      ServerInvKept(s, WriteFail(rs));
      InvSafe(s');
    } else {
      hide Inv, Covered, Memory, Ahead, Unflushed, SafeFrom, Lines;
      var r :| r in rs && r.record in s.wal.owed && r.at < s.rows(r.record)
               && !Ahead(s.wal, r.record) && r !in s.held + (s.drained - rs) + s.files;
      assert r == Row(r.record, r.at) && !Whole(s', r.record, Anywhere(s'));
      InvShape(s.wal);
      if SafeFrom(s') { DroppedLoses(s', r.record); }
    }
  }

  lemma {:induction false} DroppedLoses(s: Server, e: Entry)
    requires Struct(s.wal) && e in s.wal.owed && s.wal.up && !Ahead(s.wal, e) && !Whole(s, e, Anywhere(s))
    ensures !SafeFrom(s)
  {
    hide Ahead, Unflushed, Struct, Whole;
    if s.wal.pass.Sent? {
      var saved := After(s, Log(Save));
      if e in Unflushed(saved.wal) { SavedNotAhead(s.wal, e); }
      assert Lines(s.rows, []) == {} && Anywhere(saved) == Anywhere(s);
      if Whole(saved, e, Anywhere(saved)) { WholeMore(saved, s, e, Anywhere(saved), Anywhere(s)); }
      assert e in saved.wal.owed && !Reached(saved);
      assert [Log(Save)][1..] == [];
      assert Possible(s, [Log(Save)]) && Guarded(s, [Log(Save)]) && Final(s, [Log(Save)]) == saved;
    } else {
      AheadUnflushed(s.wal, e);
      if SafeFrom(s) { SafeNow(s); }
    }
  }

  // ---------------------------------------------------------------- what is gone stays gone

  /** The row is nowhere, and its record will not be read again. */
  ghost predicate Gone(s: Server, r: Row) {
    r !in Anywhere(s) && LostFor(s.wal.(delivered := []), r.record)
  }

  lemma {:induction false} GoneStep(s: Server, v: Event, r: Row)
    requires Struct(s.wal) && Gone(s, r) && Enabled(s, v)
    ensures Gone(After(s, v), r) && Struct(After(s, v).wal)
  {
    hide Struct;
    if v.Log? {
      var w, a := s.wal, v.a;
      var w0 := w.(delivered := []);
      StructKept(w, a);
      ForgettingHands(w, a);
      ForgettingShape(w);
      ForgettingKeeps(w, a);
      LostStep(w0, a, r.record);
      HandedIsDelivered(w0, a);
      hide Apply, Handed, WalModel.Enabled;
      assert Handed(w, a) == Apply(w0, a).delivered;
      assert r.record !in Handed(w, a);
    }
  }

  lemma {:induction false} GoneForever(s: Server, vs: seq<Event>, r: Row)
    requires Struct(s.wal) && Gone(s, r) && Possible(s, vs)
    ensures Gone(Final(s, vs), r)
    decreases |vs|
  {
    hide Struct, Gone, Enabled, After;
    if vs != [] {
      GoneStep(s, vs[0], r);
      GoneForever(After(s, vs[0]), vs[1..], r);
    }
  }

  /** The rows a stop takes away are in no file in any continuation: no replay, no later pass brings them back. */
  lemma {:induction false} StopLosesForGood(s: Server, a: Action, e: Entry, vs: seq<Event>) returns (r: Row)
    requires ServerInv(s) && s.buffered && Enabled(s, Log(a)) && WalSafety.Guard(s.wal, a) && Ends(a)
    requires e in Apply(s.wal, a).owed && e !in Unflushed(s.wal) && !Whole(s, e, s.files)
    requires Possible(After(s, Log(a)), vs)
    ensures r.record == e && r.at < s.rows(e) && r !in Anywhere(Final(After(s, Log(a)), vs))
  {
    var s' := After(s, Log(a));
    AfterLog(s, a);
    InvShape(s.wal);
    StructKept(s.wal, a);
    var i :| 0 <= i < s.rows(e) && Row(e, i) !in s.files;
    r := Row(e, i);
    hide Inv, Covered, Memory, Apply, WalModel.Enabled, WalSafety.Guard, Whole, After, Unflushed;
    if e in Unflushed(s'.wal) { EndsKeepQueue(s.wal, a, e); }
    PassedIsLost(s'.wal, e);
    GoneForever(s', vs, r);
  }

  // ---------------------------------------------------------------- without the buffer

  /** A sink that writes before it answers needs no guard but the log's own. */
  lemma {:induction false} UnbufferedStops(s: Server, a: Action)
    requires ServerInv(s) && !s.buffered && Enabled(s, Log(a))
    ensures Ends(a) ==> Filed(s, a)
  {
    hide Inv, Ahead, Unflushed, WalModel.Enabled;
    InvShape(s.wal);
    if Ends(a) {
      OwedShrinks(s.wal, a);
      forall e | e in Apply(s.wal, a).owed && e !in Unflushed(s.wal) ensures Whole(s, e, s.files) {
        AheadUnflushed(s.wal, e);
        assert Anywhere(s) == s.files;
      }
    }
  }

  lemma {:induction false} Next(s: Server, v: Event, s': Server, more: seq<Event>)
    requires Enabled(s, v) && After(s, v) == s' && Possible(s', more)
    ensures Possible(s, [v] + more) && Final(s, [v] + more) == Final(s', more)
    ensures Guard(s, v) && Guarded(s', more) ==> Guarded(s, [v] + more)
  {
    assert ([v] + more)[1..] == more;
  }

  // ---------------------------------------------------------------- reaching the loss

  /** Effects of the log only: the buffer is not written meanwhile. */
  function OnLog(acts: seq<Action>): seq<Event> {
    if acts == [] then [] else [Log(acts[0])] + OnLog(acts[1..])
  }

  lemma {:induction false} OnLogRuns(s: Server, acts: seq<Action>)
    requires s.buffered && WalModel.Possible(s.wal, acts) && WalSafety.Guarded(s.wal, acts)
    requires forall a :: a in acts ==> !Ends(a)
    ensures Possible(s, OnLog(acts)) && Guarded(s, OnLog(acts))
    ensures var t := Final(s, OnLog(acts));
            t.wal == WalModel.Final(s.wal, acts) && t.rows == s.rows && t.buffered
            && t.files == s.files && t.drained == s.drained
    decreases |acts|
  {
    hide WalModel.Enabled, Apply, Handed, Lines, WalSafety.Guard, Ends;
    if acts != [] {
      assert acts[0] in acts;
      assert forall a :: a in acts[1..] ==> a in acts;
      var s' := After(s, Log(acts[0]));
      OnLogRuns(s', acts[1..]);
      Next(s, Log(acts[0]), s', OnLog(acts[1..]));
    }
  }

  const FLUSHED := ([Create] + [Action.Append(0)]) + PASS

  lemma {:induction false} FlushedReachable()
    ensures WalModel.Possible(EMPTY, FLUSHED) && WalSafety.Guarded(EMPTY, FLUSHED) && forall a :: a in FLUSHED ==>
              !Ends(a)
    ensures var w := WalModel.Final(EMPTY, FLUSHED); w.up && ONLY in w.owed && ONLY !in Unflushed(w)
  {
    WrittenReachable();
    MaxOffsetBound([ONLY]);
    assert ONLY in [ONLY];
    FlushesOnlySegment(WRITTEN, [ONLY]);
    Chain(EMPTY, [Create] + [Action.Append(0)], PASS);
    FlushedActions();
    AtomicGuarded(EMPTY, FLUSHED);
    NothingLeft(WalModel.Final(EMPTY, FLUSHED));
  }

  lemma {:induction false} FlushedActions()
    ensures Atomic(FLUSHED) && forall a :: a in FLUSHED ==> !Ends(a)
  {}

  /**
    A run without any fault: a record of one row is appended, flushed and recorded.  If the process dies
    before the flush worker's next turn, the row is lost, and no continuation brings it back.
  */
  lemma {:induction false} EarlyStopReachable(rows: Entry -> nat, vs: seq<Event>)
    requires rows(ONLY) == 1
    ensures Possible(Begin(rows, true), OnLog(FLUSHED)) && Guarded(Begin(rows, true), OnLog(FLUSHED))
    ensures var s := Final(Begin(rows, true), OnLog(FLUSHED));
            && Enabled(s, Log(Crash)) && !SafeFrom(After(s, Log(Crash)))
            && (Possible(After(s, Log(Crash)), vs) ==> Row(ONLY, 0) !in Anywhere(Final(After(s, Log(Crash)), vs)))
  {
    FlushedReachable();
    BeginInv(rows, true);
    hide WalModel.Possible, WalModel.Final, WalSafety.Guarded, Possible, Final, Guarded, ServerInv, SafeFrom, OnLog,
           Unflushed;
    OnLogRuns(Begin(rows, true), FLUSHED);
    ServerInvOnRuns(Begin(rows, true), OnLog(FLUSHED));
    EarlyStop(Final(Begin(rows, true), OnLog(FLUSHED)), vs);
  }

  lemma {:induction false} EarlyStop(s: Server, vs: seq<Event>)
    requires ServerInv(s) && s.buffered && s.wal.up && s.files == {} && s.rows(ONLY) == 1
    requires ONLY in s.wal.owed && ONLY !in Unflushed(s.wal)
    ensures !SafeFrom(After(s, Log(Crash)))
    ensures Possible(After(s, Log(Crash)), vs) ==> Row(ONLY, 0) !in Anywhere(Final(After(s, Log(Crash)), vs))
  {
    assert Row(ONLY, 0) !in s.files;
    assert !Whole(s, ONLY, s.files);
    hide Possible, Final, Guarded, ServerInv, SafeFrom, Unflushed, Whole, After;
    StopExact(s, Crash);
    if Possible(After(s, Log(Crash)), vs) {
      var r := StopLosesForGood(s, Crash, ONLY, vs);
      assert r == Row(ONLY, 0);
    }
  }

  lemma {:induction false} NothingLeft(w: Wal)
    requires w.segs == map[0 := [ONLY]] && w.cp == Some(Checkpoint(0, 0))
    ensures ONLY !in Unflushed(w)
  {
    PendingMember(w.segs, w.cp, w.active + 2, ONLY);
  }

  /** The same run, and then the flush worker takes the row out and cannot write it. */
  lemma {:induction false} DropReachable(rows: Entry -> nat)
    requires rows(ONLY) == 1
    ensures Possible(Begin(rows, true), OnLog(FLUSHED)) && Guarded(Begin(rows, true), OnLog(FLUSHED))
    ensures var s, rs := Final(Begin(rows, true), OnLog(FLUSHED)), {Row(ONLY, 0)};
            && Enabled(s, Drain(rs)) && Enabled(After(s, Drain(rs)), WriteFail(rs))
            && !SafeFrom(After(After(s, Drain(rs)), WriteFail(rs)))
  {
    FlushedReachable();
    BeginInv(rows, true);
    hide WalModel.Possible, WalModel.Final, WalSafety.Guarded, Possible, Final, Guarded, ServerInv, SafeFrom, OnLog,
           Unflushed;
    OnLogRuns(Begin(rows, true), FLUSHED);
    ServerInvOnRuns(Begin(rows, true), OnLog(FLUSHED));
    DropsOnly(Final(Begin(rows, true), OnLog(FLUSHED)));
  }

  lemma {:induction false} DropsOnly(s: Server)
    requires ServerInv(s) && s.wal.up && s.drained == {} && s.files == {} && s.rows(ONLY) == 1
    requires ONLY in s.wal.owed && ONLY !in Unflushed(s.wal)
    ensures var rs := {Row(ONLY, 0)};
            && Enabled(s, Drain(rs)) && Enabled(After(s, Drain(rs)), WriteFail(rs))
            && !SafeFrom(After(After(s, Drain(rs)), WriteFail(rs)))
  {
    var rs := {Row(ONLY, 0)};
    InvShape(s.wal);
    AheadUnflushed(s.wal, ONLY);
    hide Ahead, Unflushed, SafeFrom, Inv;
    assert Row(ONLY, 0) in Anywhere(s) by { assert Whole(s, ONLY, Anywhere(s)); }
    var s1 := After(s, Drain(rs));
    ServerInvKept(s, Drain(rs));
    assert Row(ONLY, 0) !in s1.held + (s1.drained - rs) + s1.files;
    DropExact(s1, rs);
  }
}
