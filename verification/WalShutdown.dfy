/**
  The end of the server.  Flush worker and flusher wait for the same token: the worker takes out and writes
  what the buffer holds, the flusher makes one more pass, and nothing orders the two.
*/
module WalShutdown {
  import opened Prelude
  import opened WalModel
  import opened WalPending
  import opened WalSafety
  import opened WalExact
  import opened WalOnce
  import opened WalSpec
  import opened WalAhead
  import opened WalSink

  // ---------------------------------------------------------------- the flusher's last pass

  lemma {:induction false} FlusherQuiet(w: Wal, acts: seq<Action>)
    requires WalModel.Possible(w, acts) && forall a :: a in acts ==> Flusher(a)
    ensures WalSafety.Guarded(w, acts) && forall a :: a in acts ==> !Ends(a)
    ensures var w' := WalModel.Final(w, acts); w'.owed == w.owed && w'.up == w.up
    decreases |acts|
  {
    hide Fresh, MaxOffset;
    if acts != [] {
      assert acts[0] in acts;
      assert forall a :: a in acts[1..] ==> a in acts;
      FlusherQuiet(Apply(w, acts[0]), acts[1..]);
    }
  }

  lemma {:induction false} AllAccepted(w: Wal, floor: Option<Checkpoint>, at: nat, allow: nat)
    requires w.active < allow + at
    ensures FlushFrom(w, floor, at, allow).ok
    decreases w.active + 1 - at
  {
    hide Part, MaxOffset;
    if at <= w.active {
      var batch := Part(w.segs, floor, at);
      if batch == [] {
        AllAccepted(w, floor, at + 1, allow);
      } else {
        AllAccepted(Recorded(w, at, batch), floor, at + 1, allow - 1);
      }
    }
  }

  /** Whatever the appenders have begun, the flusher can finish a pass that leaves nothing pending. */
  lemma {:induction false} LastPass(w: Wal) returns (acts: seq<Action>)
    requires Struct(w) && w.up && !w.rotating && w.pass.Idle?
    ensures WalModel.Possible(w, acts) && (forall a :: a in acts ==> Flusher(a))
            && Unflushed(WalModel.Final(w, acts)) == []
  {
    FlushedByFlusher(w, w.active + 1);
    AllAccepted(w, w.cp, 0, w.active + 1);
    PassStart(w);
    FlushConserves(w, w.cp, 0, w.active + 1);
    acts :| WalModel.Possible(w, acts) && WalModel.Final(w, acts) == FlushPass(w, w.active + 1).wal
            && forall a :: a in acts ==> Flusher(a);
  }

  // ---------------------------------------------------------------- the worker's last turn

  /**
    The worker takes everything out of the buffer, the flusher goes on with `first`, the worker writes what it
    took, the flusher goes on with `rest`.
  */
  function Ending(s: Server, first: seq<Action>, rest: seq<Action>): seq<Event> {
    [Drain(s.held)] + (OnLog(first) + ([WriteFile(s.drained + s.held)] + OnLog(rest)))
  }

  lemma {:induction false} Joined(s: Server, vs: seq<Event>, more: seq<Event>)
    requires WalSink.Possible(s, vs) && WalSink.Possible(WalSink.Final(s, vs), more)
    ensures WalSink.Possible(s, vs + more)
    ensures WalSink.Final(s, vs + more) == WalSink.Final(WalSink.Final(s, vs), more)
    ensures WalSink.Guarded(s, vs) && WalSink.Guarded(WalSink.Final(s, vs), more) ==> WalSink.Guarded(s, vs + more)
    decreases |vs|
  {
    hide WalSink.Enabled, WalSink.Guard, After;
    if vs == [] {
      assert [] + more == more;
    } else {
      assert (vs + more)[1..] == vs[1..] + more;
      Joined(After(s, vs[0]), vs[1..], more);
    }
  }

  lemma {:induction false} SplitQuiet(w: Wal, first: seq<Action>, rest: seq<Action>)
    requires WalModel.Possible(w, first) && WalModel.Possible(WalModel.Final(w, first), rest)
    requires forall a :: a in first + rest ==> Flusher(a)
    ensures WalSafety.Guarded(w, first) && WalSafety.Guarded(WalModel.Final(w, first), rest)
    ensures forall a :: a in first || a in rest ==> !Ends(a)
    ensures var w' := WalModel.Final(WalModel.Final(w, first), rest); w'.owed == w.owed && w'.up == w.up
    ensures WalModel.Final(w, first).up == w.up
  {
    assert forall a :: a in first || a in rest ==> a in first + rest;
    FlusherQuiet(w, first);
    FlusherQuiet(WalModel.Final(w, first), rest);
  }

  /** Any such ending is a guarded run, and everything the worker took is in files after it. */
  lemma {:induction false} EndingRuns(s: Server, first: seq<Action>, rest: seq<Action>)
    requires ServerInv(s) && s.buffered && s.wal.up
    requires WalModel.Possible(s.wal, first) && WalModel.Possible(WalModel.Final(s.wal, first), rest)
    requires forall a :: a in first + rest ==> Flusher(a)
    ensures WalSink.Possible(s, Ending(s, first, rest)) && WalSink.Guarded(s, Ending(s, first, rest))
    ensures var t := WalSink.Final(s, Ending(s, first, rest));
            && ServerInv(t) && t.buffered && t.rows == s.rows && t.files == Anywhere(s)
            && t.wal == WalModel.Final(WalModel.Final(s.wal, first), rest) && t.wal.owed == s.wal.owed && t.wal.up
  {
    SplitQuiet(s.wal, first, rest);
    var s1 := After(s, Drain(s.held));
    hide ServerInv, WalModel.Possible, WalModel.Final, WalSafety.Guarded, Ends, Flusher;
    OnLogRuns(s1, first);
    var s2 := WalSink.Final(s1, OnLog(first));
    assert s2.drained == s.drained + s.held;
    var write := WriteFile(s.drained + s.held);
    var s3 := After(s2, write);
    OnLogRuns(s3, rest);
    hide OnLog, WalSink.Possible, WalSink.Final, WalSink.Guarded;
    WalSink.Next(s2, write, s3, OnLog(rest));
    Joined(s1, OnLog(first), [write] + OnLog(rest));
    WalSink.Next(s, Drain(s.held), s1, OnLog(first) + ([write] + OnLog(rest)));
    ServerInvOnRuns(s, Ending(s, first, rest));
  }

  /** Every record that waits in the log when the worker takes its rows out has its rows already. */
  ghost predicate NothingNew(s: Server) {
    forall e :: e in s.wal.owed && e in Unflushed(s.wal) ==> Whole(s, e, Anywhere(s))
  }

  /**
    The exact result of a shutdown, wherever the flusher's last pass stands when the worker takes its last
    turn: the server ends without loss, in every continuation, exactly if no record is still to be delivered
    to the buffer by then.
  */
  lemma {:induction false} ShutdownExact(s: Server, first: seq<Action>, rest: seq<Action>)
    requires ServerInv(s) && s.buffered && s.wal.up
    requires WalModel.Possible(s.wal, first) && WalModel.Possible(WalModel.Final(s.wal, first), rest)
    requires forall a :: a in first + rest ==> Flusher(a)
    requires Unflushed(WalModel.Final(WalModel.Final(s.wal, first), rest)) == []
    ensures WalSink.Possible(s, Ending(s, first, rest)) && WalSink.Guarded(s, Ending(s, first, rest))
    ensures var t := WalSink.Final(s, Ending(s, first, rest));
            t.wal.up && (WalSink.SafeFrom(After(t, Log(Crash))) <==> NothingNew(s))
  {
    hide ServerInv, Filed, NothingNew, Unflushed, Flusher, WalSink.SafeFrom, WalSink.Final, WalSink.Possible,
           WalSink.Guarded,
         WalModel.Possible, WalModel.Final, Ending, Anywhere, After;
    EndingRuns(s, first, rest);
    var t := WalSink.Final(s, Ending(s, first, rest));
    InvMeansReached(s);
    FiledThen(s, t);
    StopExact(t, Crash);
  }

  lemma {:induction false} FiledThen(s: Server, t: Server)
    requires Reached(s) && Unflushed(t.wal) == [] && t.wal.up
    requires t.rows == s.rows && t.files == Anywhere(s) && t.wal.owed == s.wal.owed
    ensures Filed(t, Crash) <==> NothingNew(s)
  {
    hide Unflushed, Anywhere, Whole;
    assert forall e :: Whole(t, e, t.files) <==> Whole(s, e, Anywhere(s)) by { WholeSame(s, t); }
    assert Apply(t.wal, Crash).owed == s.wal.owed;
  }

  lemma {:induction false} WholeSame(s: Server, t: Server)
    requires t.rows == s.rows && t.files == Anywhere(s)
    ensures forall e :: Whole(t, e, t.files) <==> Whole(s, e, Anywhere(s))
  {}

  /** The worker's turn without any pass after it: nothing is lost, the rest waits in the log. */
  lemma {:induction false} TurnLast(s: Server)
    requires ServerInv(s) && s.buffered && s.wal.up
    ensures WalSink.Possible(s, Ending(s, [], [])) && WalSink.Guarded(s, Ending(s, [], []))
    ensures var t := WalSink.Final(s, Ending(s, [], [])); t.wal.up && WalSink.SafeFrom(After(t, Log(Crash)))
  {
    EndingRuns(s, [], []);
    var t := WalSink.Final(s, Ending(s, [], []));
    InvMeansReached(s);
    assert t.wal == s.wal;
    WholeSame(s, t);
    assert Filed(t, Crash) by {
      hide Unflushed, Anywhere, Whole, ServerInv;
      assert Apply(t.wal, Crash).owed == s.wal.owed;
    }
    hide ServerInv, Filed, Unflushed, WalSink.SafeFrom, WalSink.Final, WalSink.Possible, WalSink.Guarded, After;
    StopExact(t, Crash);
  }

  // ---------------------------------------------------------------- reaching the loss

  const WROTE := [Create] + [Action.Append(0)]

  predicate Hands(a: Action) {
    a.Deliver? || a.Refuse? || a.Replay? || a.ReplayFail?
  }

  /** Without a delivery the buffer stays as it is. */
  lemma {:induction false} HeldSame(s: Server, acts: seq<Action>)
    requires WalSink.Possible(s, OnLog(acts)) && forall a :: a in acts ==> !Ends(a) && !Hands(a)
    ensures WalSink.Final(s, OnLog(acts)).held == s.held
    decreases |acts|
  {
    if acts != [] {
      assert acts[0] in acts;
      assert forall a :: a in acts[1..] ==> a in acts;
      assert OnLog(acts)[1..] == OnLog(acts[1..]);
      assert After(s, Log(acts[0])).held == s.held by { hide Apply, WalModel.Enabled; }
      HeldSame(After(s, Log(acts[0])), acts[1..]);
    }
  }

  lemma {:induction false} PassQuiet()
    ensures (forall a :: a in [] + PASS ==> Flusher(a)) && (forall a :: a in WROTE ==> !Ends(a) && !Hands(a))
            && Atomic(WROTE)
  {}

  lemma {:induction false} PassEmpties()
    ensures WalModel.Possible(WRITTEN, PASS) && Unflushed(WalModel.Final(WRITTEN, PASS)) == []
    ensures ONLY in WRITTEN.owed && ONLY in Unflushed(WRITTEN)
  {
    assert ONLY in [ONLY];
    MaxOffsetBound([ONLY]);
    FlushesOnlySegment(WRITTEN, [ONLY]);
    var w := WalModel.Final(WRITTEN, PASS);
    PendingNone(w.segs, w.cp, w.active + 2);
    PendingMember(WRITTEN.segs, WRITTEN.cp, WRITTEN.active + 2, ONLY);
  }

  /**
    A record is appended and acknowledged; at the shutdown the worker turns first, and then the flusher makes
    its last pass: the row goes to a buffer nobody writes any more, and the checkpoint passes it.
  */
  lemma {:induction false} LatePassReachable(rows: Entry -> nat)
    requires rows(ONLY) == 1
    ensures var begin := Begin(rows, true);
            && WalSink.Possible(begin, OnLog(WROTE)) && WalSink.Guarded(begin, OnLog(WROTE))
            && var s := WalSink.Final(begin, OnLog(WROTE));
               && WalSink.Possible(s, Ending(s, [], PASS)) && WalSink.Guarded(s, Ending(s, [], PASS))
               && var t := WalSink.Final(s, Ending(s, [], PASS)); t.wal.up && !WalSink.SafeFrom(After(t, Log(Crash)))
  {
    var begin := Begin(rows, true);
    WrittenReachable();
    PassQuiet();
    AtomicGuarded(EMPTY, WROTE);
    BeginInv(rows, true);
    hide ServerInv, WalSink.SafeFrom, WalSink.Final, WalSink.Possible, WalSink.Guarded, WalModel.Possible,
           WalModel.Final,
         WalSafety.Guarded, Ending, OnLog, Unflushed, Flusher, Atomic;
    OnLogRuns(begin, WROTE);
    ServerInvOnRuns(begin, OnLog(WROTE));
    HeldSame(begin, WROTE);
    LatePass(WalSink.Final(begin, OnLog(WROTE)));
  }

  lemma {:induction false} LatePass(s: Server)
    requires ServerInv(s) && s.buffered && s.wal == WRITTEN && s.files == {} && s.drained == {} && s.held == {}
    requires s.rows(ONLY) == 1
    ensures WalSink.Possible(s, Ending(s, [], PASS)) && WalSink.Guarded(s, Ending(s, [], PASS))
    ensures var t := WalSink.Final(s, Ending(s, [], PASS)); t.wal.up && !WalSink.SafeFrom(After(t, Log(Crash)))
  {
    assert WalModel.Possible(WRITTEN, []) && WalModel.Final(WRITTEN, []) == WRITTEN;
    hide ServerInv, WalSink.SafeFrom, WalSink.Final, WalSink.Possible, WalSink.Guarded, WalModel.Possible,
           WalModel.Final,
         Ending, Unflushed, Flusher, NothingNew, After;
    PassQuiet();
    PassEmpties();
    ShutdownExact(s, [], PASS);
    NothingHeld(s);
  }

  lemma {:induction false} NothingHeld(s: Server)
    requires s.files == {} && s.drained == {} && s.held == {} && s.rows(ONLY) == 1
    requires ONLY in s.wal.owed && ONLY in Unflushed(s.wal)
    ensures !NothingNew(s)
  {
    hide Unflushed;
    assert Row(ONLY, 0) !in Anywhere(s);
  }
}
