/**
  Group commit, log and write buffer together: what an acknowledgement is worth in the end, over runs of
  appenders, commit loop, flusher, janitor, flush worker, crashes and power losses.
*/
module WalServer {
  import opened Prelude
  import opened WalModel
  import opened WalSafety
  import opened WalAhead
  import G = GroupCommit
  import A = WalAcks
  import S = WalSink

  datatype Whole = Whole(log: G.Log, server: S.Server)

  datatype Event =
    | Both(e: A.Event)       // an event of group commit and log
    | Buffer(v: S.Event)     // the flush worker

  function Begin(rows: Entry -> nat, buffered: bool): Whole {
    Whole(G.EMPTY, S.Begin(rows, buffered))
  }

  /** What the buffer is not part of. */
  function Pair(t: Whole): A.Joint {
    A.Joint(t.log, t.server.wal)
  }

  /** What an event does to the log. */
  function LogAction(j: A.Joint, e: A.Event): Option<Action> {
    match e
    case Commit(a, size) => A.Match(j.log, j.wal, a, size)
    case Late(o, size) => Some(Action.Write(o, size))
    case Alone(b) => Some(b)
    case StartFails(n) => Some(ReplayFail(n))
  }

  /** All three allow the event, under the guards of all three. */
  ghost predicate Allowed(t: Whole, v: Event) {
    match v
    case Both(e) =>
      && A.Allowed(Pair(t), e)
      && var b := LogAction(Pair(t), e);
         b.Some? ==> Enabled(t.server.wal, b.value) && S.Guard(t.server, S.Log(b.value))
    case Buffer(v) => !v.Log? && S.Enabled(t.server, v) && S.Guard(t.server, v)
  }

  ghost function After(t: Whole, v: Event): Whole
    requires Allowed(t, v)
  {
    match v
    case Both(e) =>
      var b := LogAction(Pair(t), e);
      Whole(A.After(Pair(t), e).log, if b.Some? then S.After(t.server, S.Log(b.value)) else t.server)
    case Buffer(v) => Whole(t.log, S.After(t.server, v))
  }

  ghost predicate Possible(t: Whole, vs: seq<Event>)
    decreases |vs|
  {
    vs == [] || (Allowed(t, vs[0]) && Possible(After(t, vs[0]), vs[1..]))
  }

  ghost function Final(t: Whole, vs: seq<Event>): Whole
    requires Possible(t, vs)
    decreases |vs|
  {
    if vs == [] then t else Final(After(t, vs[0]), vs[1..])
  }

  /** The log inside the server is the log of the joint runs. */
  lemma {:induction false} SameLog(t: Whole, e: A.Event)
    requires Allowed(t, Both(e))
    ensures Pair(After(t, Both(e))) == A.After(Pair(t), e)
  {
    hide Enabled, Apply, G.Enabled, G.Apply, A.Match, S.Guard, Handed, S.Lines, Ends;
  }

  ghost predicate WholeInv(t: Whole) {
    A.JointInv(Pair(t)) && S.ServerInv(t.server)
  }

  lemma {:induction false} WholeInvKept(t: Whole, v: Event)
    requires WholeInv(t) && Allowed(t, v)
    ensures WholeInv(After(t, v))
  {
    hide A.JointInv, S.ServerInv, A.Allowed, S.Guard, A.After, S.After, LogAction, Enabled;
    match v {
      case Both(e) =>
        A.JointInvKept(Pair(t), e);
        SameLog(t, e);
        var b := LogAction(Pair(t), e);
        if b.Some? { S.ServerInvKept(t.server, S.Log(b.value)); }
      case Buffer(v) =>
        S.ServerInvKept(t.server, v);
        BufferOnly(t, v);
    }
  }

  lemma {:induction false} BufferOnly(t: Whole, v: S.Event)
    requires S.Enabled(t.server, v) && !v.Log?
    ensures S.After(t.server, v).wal == t.server.wal
  {}

  lemma {:induction false} WholeRuns(t: Whole, vs: seq<Event>)
    requires WholeInv(t) && Possible(t, vs)
    ensures WholeInv(Final(t, vs))
    decreases |vs|
  {
    hide WholeInv, Allowed, After;
    if vs != [] {
      WholeInvKept(t, vs[0]);
      WholeRuns(After(t, vs[0]), vs[1..]);
    }
  }

  /**
    End to end: in every state of every run, power losses included, a resolved handle belongs to a record
    that waits in the log or has each of its rows in the buffer or in a file; and in a file, once the process
    is gone.
  */
  lemma {:induction false} ResolvedIsServed(rows: Entry -> nat, buffered: bool, vs: seq<Event>, id: nat)
    requires Possible(Begin(rows, buffered), vs) && id in Final(Begin(rows, buffered), vs).log.acked
    ensures var s := Final(Begin(rows, buffered), vs).server;
            exists e :: e in s.wal.owed && e.id == id &&
              (e in Unflushed(s.wal) || S.Whole(s, e, if s.wal.up then S.Anywhere(s) else s.files))
  {
    var begin := Begin(rows, buffered);
    A.StartInv();
    S.BeginInv(rows, buffered);
    assert Pair(begin) == A.START;
    WholeRuns(begin, vs);
    var t := Final(begin, vs);
    hide Possible, Final;
    ServedNow(t, id);
  }

  lemma {:induction false} ServedNow(t: Whole, id: nat)
    requires WholeInv(t) && id in t.log.acked
    ensures var s := t.server;
            exists e :: e in s.wal.owed && e.id == id &&
              (e in Unflushed(s.wal) || S.Whole(s, e, if s.wal.up then S.Anywhere(s) else s.files))
  {
    var s := t.server;
    S.InvMeansReached(s);
    A.InvParts(Pair(t));
    assert G.Durable(t.log);
    A.ResolvedOwed(t.log, s.wal, id);
    hide Inv, A.JointInv, G.Inv, A.Recorded, A.Mirrors, A.EachOnce, Struct, S.Covered, Unflushed, S.Whole;
    var e :| e in s.wal.owed && e.id == id;
    assert e in Unflushed(s.wal) || S.Whole(s, e, S.Anywhere(s));
    if !s.wal.up { assert S.Anywhere(s) == s.files; }
  }
}
