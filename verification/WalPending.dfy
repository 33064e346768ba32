/**
  The queue.  How the records ahead of the checkpoint change when files, checkpoint or listing change: what
  the resume test keeps of a file, what a record written at its end adds, what a checkpoint that moves over
  a batch takes off the front, what an fsync spares, and who is a member.  All of it is by induction over
  files and segment ids; WalSafety, WalOnce and WalSpec put these steps together.
*/
module WalPending {
  import opened Prelude
  import opened WalModel

  /** The recovery scan finds an upper bound, and it is attained. */
  lemma {:induction false} MaxOffsetBound(es: seq<Entry>)
    ensures forall e :: e in es ==> e.offset <= MaxOffset(es)
    ensures es != [] ==> exists e :: e in es && e.offset == MaxOffset(es)
  {
    if es != [] {
      var last := es[|es| - 1];
      MaxOffsetBound(es[..|es| - 1]);
      assert es == es[..|es| - 1] + [last];
      assert last in es;
    }
  }

  lemma {:induction false} FreshMember(cp: Option<Checkpoint>, id: nat, es: seq<Entry>)
    ensures forall e :: e in Fresh(cp, id, es) <==> e in es && !Behind(cp, id, e)
  {
    if es != [] {
      FreshMember(cp, id, es[..|es| - 1]);
      assert es == es[..|es| - 1] + [es[|es| - 1]];
    }
  }

  lemma {:induction false} SparedMember(w: Wal, es: seq<Entry>)
    requires w.synced.Keys == w.segs.Keys
    ensures forall e :: e in Spared(w, es) <==> e in es && !Unsynced(w, e)
  {
    if es != [] {
      SparedMember(w, es[..|es| - 1]);
      assert es == es[..|es| - 1] + [es[|es| - 1]];
    }
  }

  lemma {:induction false} FreshAppend(cp: Option<Checkpoint>, id: nat, es: seq<Entry>, e: Entry)
    ensures Fresh(cp, id, es + [e]) == Fresh(cp, id, es) + if Behind(cp, id, e) then [] else [e]
  {
    assert (es + [e])[..|es|] == es;
  }

  /** One record further. */
  lemma {:induction false} FreshNext(cp: Option<Checkpoint>, id: nat, es: seq<Entry>, k: nat)
    requires k < |es|
    ensures Fresh(cp, id, es[..k + 1]) == Fresh(cp, id, es[..k]) + if Behind(cp, id, es[k]) then [] else [es[k]]
  {
    assert es[..k + 1][..k] == es[..k];
  }

  lemma {:induction false} MaxOffsetAppend(es: seq<Entry>, e: Entry)
    ensures MaxOffset(es + [e]) == Max(MaxOffset(es), e.offset)
    ensures MaxOffset([]) == 0
  {
    assert (es + [e])[..|es|] == es;
  }

  /** Two checkpoints that agree on every record of a segment keep the same records of it. */
  lemma {:induction false} FreshSame(cp: Option<Checkpoint>, cp': Option<Checkpoint>, id: nat, es: seq<Entry>)
    requires forall e :: e in es ==> (Behind(cp, id, e) <==> Behind(cp', id, e))
    ensures Fresh(cp, id, es) == Fresh(cp', id, es)
  {
    if es != [] {
      assert es == es[..|es| - 1] + [es[|es| - 1]];
      FreshSame(cp, cp', id, es[..|es| - 1]);
    }
  }

  /** Without a record behind the checkpoint the whole segment is kept. */
  lemma {:induction false} FreshAll(cp: Option<Checkpoint>, id: nat, es: seq<Entry>)
    requires forall e :: e in es ==> !Behind(cp, id, e)
    ensures Fresh(cp, id, es) == es
  {
    if es != [] {
      assert es == es[..|es| - 1] + [es[|es| - 1]];
      FreshAll(cp, id, es[..|es| - 1]);
    }
  }

  lemma {:induction false} FreshNone(cp: Option<Checkpoint>, id: nat, es: seq<Entry>)
    requires forall e :: e in es ==> Behind(cp, id, e)
    ensures Fresh(cp, id, es) == []
  {
    if es != [] {
      assert es == es[..|es| - 1] + [es[|es| - 1]];
      FreshNone(cp, id, es[..|es| - 1]);
    }
  }

  lemma {:induction false} PendingLast(segs: map<nat, seq<Entry>>, cp: Option<Checkpoint>, n: nat)
    ensures Pending(segs, cp, n + 1) == Pending(segs, cp, n) + Part(segs, cp, n)
  {}

  lemma {:induction false} PendingSame(segs: map<nat, seq<Entry>>, segs': map<nat, seq<Entry>>,
                                       cp: Option<Checkpoint>, cp': Option<Checkpoint>, n: nat)
    requires forall id :: 0 <= id < n ==> Part(segs, cp, id) == Part(segs', cp', id)
    ensures Pending(segs, cp, n) == Pending(segs', cp', n)
  {
    if n > 0 { PendingSame(segs, segs', cp, cp', n - 1); }
  }

  lemma {:induction false} PendingExtend(segs: map<nat, seq<Entry>>, cp: Option<Checkpoint>, lo: nat, hi: nat)
    requires lo <= hi
    requires forall id :: lo <= id < hi ==> Part(segs, cp, id) == []
    ensures Pending(segs, cp, hi) == Pending(segs, cp, lo)
  {
    if lo < hi { PendingExtend(segs, cp, lo, hi - 1); }
  }

  lemma {:induction false} PendingNone(segs: map<nat, seq<Entry>>, cp: Option<Checkpoint>, n: nat)
    requires forall id, e :: id in segs && e in segs[id] ==> Behind(cp, id, e)
    ensures Pending(segs, cp, n) == []
  {
    if n > 0 {
      PendingNone(segs, cp, n - 1);
      if n - 1 in segs { FreshNone(cp, n - 1, segs[n - 1]); }
    }
  }

  /** A record written at the end of the last non-empty segment is the last one pending. */
  lemma {:induction false} PendingAppend(segs: map<nat, seq<Entry>>, cp: Option<Checkpoint>, a: nat, e: Entry, n: nat)
    requires a in segs && a < n
    requires forall id :: id in segs && a < id ==> segs[id] == []
    ensures Pending(segs[a := segs[a] + [e]], cp, n)
         == Pending(segs, cp, n) + if Behind(cp, a, e) then [] else [e]
  {
    hide Pending, Part;
    var segs' := segs[a := segs[a] + [e]];
    var tail := if Behind(cp, a, e) then [] else [e];
    PendingLast(segs, cp, n - 1);
    PendingLast(segs', cp, n - 1);
    PartAppend(segs, cp, a, e, n - 1);
    if n - 1 == a {
      forall id: nat | id < a ensures Part(segs, cp, id) == Part(segs', cp, id) { PartAppend(segs, cp, a, e, id); }
      PendingSame(segs, segs', cp, cp, a);
      Associate(Pending(segs, cp, a), Part(segs, cp, a), tail);
    } else {
      PendingAppend(segs, cp, a, e, n - 1);
      assert Pending(segs, cp, n) == Pending(segs, cp, n - 1);
    }
  }

  lemma {:induction false} PartAppend(segs: map<nat, seq<Entry>>, cp: Option<Checkpoint>, a: nat, e: Entry, id: nat)
    requires a in segs && forall x :: x in segs && a < x ==> segs[x] == []
    ensures var p, p' := Part(segs, cp, id), Part(segs[a := segs[a] + [e]], cp, id);
            if id < a then p' == p
            else if id == a then p' == p + if Behind(cp, a, e) then [] else [e]
            else p == p' == []
  {
    if id == a { FreshAppend(cp, a, segs[a], e); }
  }

  lemma {:induction false} Associate(x: seq<Entry>, y: seq<Entry>, z: seq<Entry>)
    ensures x + (y + z) == x + y + z
  {}

  /** Moving the checkpoint over a delivered batch takes exactly that batch off the front. */
  lemma {:induction false} PendingAdvance(segs: map<nat, seq<Entry>>, cp: Option<Checkpoint>, cp': Option<Checkpoint>,
                                          at: nat, batch: seq<Entry>, n: nat)
    requires at < n && at in segs && cp'.Some? && cp'.value.segment == at
    requires cp.Some? ==> cp.value.segment <= at
    requires Pending(segs, cp, at) == []
    requires Part(segs, cp, at) == batch + Part(segs, cp', at)
    ensures Pending(segs, cp, n) == batch + Pending(segs, cp', n)
  {
    hide Pending, Part;
    if n - 1 == at {
      PendingBelow(segs, cp', at);
    } else {
      PendingAdvance(segs, cp, cp', at, batch, n - 1);
      PartAbove(segs, cp, cp', n - 1);
    }
    AdvanceStep(segs, cp, cp', at, batch, n);
  }

  /** In particular a batch that empties its segment. */
  lemma {:induction false} PendingTaken(segs: map<nat, seq<Entry>>, cp: Option<Checkpoint>, cp': Option<Checkpoint>,
                                        at: nat, n: nat)
    requires at < n && at in segs && cp'.Some? && cp'.value.segment == at
    requires cp.Some? ==> cp.value.segment <= at
    requires Pending(segs, cp, at) == [] && Part(segs, cp', at) == []
    ensures Pending(segs, cp, n) == Part(segs, cp, at) + Pending(segs, cp', n)
    ensures Pending(segs, cp', at + 1) == []
  {
    hide Pending, Part;
    assert Part(segs, cp, at) + [] == Part(segs, cp, at);
    PendingAdvance(segs, cp, cp', at, Part(segs, cp, at), n);
    PendingBelow(segs, cp', at);
    PendingLast(segs, cp', at);
  }

  lemma {:induction false} PartAbove(segs: map<nat, seq<Entry>>, cp: Option<Checkpoint>, cp': Option<Checkpoint>,
                                     id: nat)
    requires cp.Some? ==> cp.value.segment < id
    requires cp'.Some? ==> cp'.value.segment < id
    ensures Part(segs, cp, id) == Part(segs, cp', id)
  {
    if id in segs { FreshSame(cp, cp', id, segs[id]); }
  }

  lemma {:induction false} AdvanceStep(segs: map<nat, seq<Entry>>, cp: Option<Checkpoint>, cp': Option<Checkpoint>,
                    at: nat, batch: seq<Entry>, n: nat)
    requires at < n
    requires n - 1 == at ==>
      && Pending(segs, cp, at) == Pending(segs, cp', at) == []
      && Part(segs, cp, at) == batch + Part(segs, cp', at)
    requires n - 1 != at ==>
      && Pending(segs, cp, n - 1) == batch + Pending(segs, cp', n - 1)
      && Part(segs, cp, n - 1) == Part(segs, cp', n - 1)
    ensures Pending(segs, cp, n) == batch + Pending(segs, cp', n)
  {
    hide Pending, Part;
    PendingLast(segs, cp, n - 1);
    PendingLast(segs, cp', n - 1);
    var p' := Part(segs, cp', n - 1);
    if n - 1 == at {
      assert Pending(segs, cp, n) == [] + (batch + p') == batch + ([] + p');
    } else {
      Associate(batch, Pending(segs, cp', n - 1), Part(segs, cp', n - 1));
    }
  }

  /** Nothing below the checkpoint's segment is pending. */
  lemma {:induction false} PendingBelow(segs: map<nat, seq<Entry>>, cp: Option<Checkpoint>, n: nat)
    requires cp.Some? && n <= cp.value.segment
    ensures Pending(segs, cp, n) == []
  {
    if n > 0 {
      PendingBelow(segs, cp, n - 1);
      if n - 1 in segs { FreshNone(cp, n - 1, segs[n - 1]); }
    }
  }

  /** Membership in the queue: the record sits in a live segment, ahead of the checkpoint. */
  lemma {:induction false} PendingMember(segs: map<nat, seq<Entry>>, cp: Option<Checkpoint>, n: nat, e: Entry)
    ensures e in Pending(segs, cp, n) <==> exists id :: id in segs && id < n && e in segs[id] && !Behind(cp, id, e)
  {
    if n > 0 {
      PendingMember(segs, cp, n - 1, e);
      if e in Pending(segs, cp, n) && e !in Pending(segs, cp, n - 1) {
        assert e in Part(segs, cp, n - 1);
        FreshMember(cp, n - 1, segs[n - 1]);
      }
      if id :| id in segs && id < n && e in segs[id] && !Behind(cp, id, e) {
        if id == n - 1 { FreshMember(cp, n - 1, segs[n - 1]); }
      }
    }
  }
}
