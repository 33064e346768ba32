/**
  The write-ahead log as a state machine: what is on disk, what the writer, the flusher and the
  janitor hold in memory, and what the sink has accepted.  Every action is one indivisible effect of
  the source; runs are arbitrary sequences of actions, so the appender, the flusher and the janitor
  interleave freely and the process may stop between any two of their effects.
*/
module WalModel {
  import opened Prelude

  /** One completely written record. `id` names the append call, `size` is its payload length. */
  datatype Entry = Entry(id: nat, offset: nat, size: nat)

  datatype Checkpoint = Checkpoint(segment: nat, offset: nat)

  /** Where a flush pass stands. `floor` is the checkpoint it loaded, `listed` the directory listing. */
  datatype Pass =
    | Idle
    | Listed(floor: Option<Checkpoint>, listed: set<nat>)
    | Scanning(floor: Option<Checkpoint>, listed: set<nat>, seen: nat, at: nat)
    | Holding(floor: Option<Checkpoint>, listed: set<nat>, seen: nat, at: nat, batch: seq<Entry>)
    | Sent(floor: Option<Checkpoint>, listed: set<nat>, seen: nat, at: nat, batch: seq<Entry>)
    | Done(floor: Option<Checkpoint>, listed: set<nat>, seen: nat, at: nat)

  /** What the janitor read before it starts to remove files. */
  datatype JanitorView = JanitorView(segment: nat, active: nat)

  datatype Wal = Wal(
    up: bool,
    segs: map<nat, seq<Entry>>,       // segment files, as the whole records they hold
    synced: map<nat, nat>,            // how many records of each file an fsync has covered
    active: nat,                      // segment of the writer
    rotating: bool,                   // the writer lock is held between creating and switching to a new file
    next: nat,                        // offset counter
    reserved: set<nat>,               // offsets handed out whose record is not written yet
    cp: Option<Checkpoint>,           // checkpoint.json
    delivered: seq<Entry>,            // what the sink accepted, in order
    owed: seq<Entry>,                 // records completely written and not destroyed by a power loss
    count: nat,                       // append calls so far
    pass: Pass,
    janitor: Option<JanitorView>)

  const EMPTY: Wal :=
    Wal(false, map[], map[], 0, false, 0, {}, None, [], [], 0, Idle, None)

  // ---------------------------------------------------------------- reading a segment

  /** The recovery scan of a segment: the largest offset, starting from zero. */
  function MaxOffset(es: seq<Entry>): nat {
    if es == [] then 0 else Max(MaxOffset(es[..|es| - 1]), es[|es| - 1].offset)
  }

  /** The resume test of flusher and replay: is this record of segment `id` behind the checkpoint? */
  predicate Behind(cp: Option<Checkpoint>, id: nat, e: Entry) {
    cp.Some? && (id < cp.value.segment || (id == cp.value.segment && e.offset <= cp.value.offset))
  }

  /** What a pass that loaded `cp` keeps of segment `id`, in file order. */
  function Fresh(cp: Option<Checkpoint>, id: nat, es: seq<Entry>): seq<Entry> {
    if es == [] then [] else
      var last := es[|es| - 1];
      Fresh(cp, id, es[..|es| - 1]) + if Behind(cp, id, last) then [] else [last]
  }

  function Part(segs: map<nat, seq<Entry>>, cp: Option<Checkpoint>, id: nat): seq<Entry> {
    if id in segs then Fresh(cp, id, segs[id]) else []
  }

  /** All records ahead of the checkpoint in the segments below `n`, in file order. */
  function Pending(segs: map<nat, seq<Entry>>, cp: Option<Checkpoint>, n: nat): seq<Entry> {
    if n == 0 then [] else Pending(segs, cp, n - 1) + Part(segs, cp, n - 1)
  }

  /** No segment id reaches `active + 2`, so this is everything the next pass has to deliver. */
  function Unflushed(w: Wal): seq<Entry> {
    Pending(w.segs, w.cp, w.active + 2)
  }

  // ---------------------------------------------------------------- actions

  datatype Action =
    | Create                          // open on an empty directory
    | Open(last: nat, roll: bool)     // open on segment `last`; `roll`: it is full, start a new one
    | Append(size: nat)               // reserve an offset and write, with nothing in between
    | Reserve                         // the two halves of an append, as the source orders them
    | Write(offset: nat, size: nat)
    | RotateCreate | RotateSwap | RotateFail
    | Fsync(segment: nat, upto: nat)  // the records below `upto` are on disk
    | Load | See(first: nat) | Read | Deliver | Save | Next(to: nat) | Stop | Refuse(accepted: nat)
    | JanitorLoad | JanitorRemove(id: nat) | JanitorDone
    | Replay(segment: nat, tail: nat) // a whole replay; `tail` records in its last batch
    | ReplayFail(accepted: nat)
    | Crash                           // the process dies, the page cache survives
    | PowerLoss                       // every record no fsync covered is gone

  predicate Positioned(p: Pass) {
    p.Scanning? || p.Holding? || p.Sent? || p.Done?
  }

  predicate LastSegment(w: Wal, id: nat) {
    id in w.segs && forall x :: x in w.segs ==> x <= id
  }

  predicate Enabled(w: Wal, a: Action) {
    match a
    case Create => !w.up && w.segs == map[]
    case Open(last, _) => !w.up && LastSegment(w, last)
    case Append(_) => w.up && !w.rotating && w.active in w.segs
    case Reserve => w.up
    case Write(o, _) => w.up && !w.rotating && w.active in w.segs && o in w.reserved
    case RotateCreate => w.up && !w.rotating && w.active in w.segs
    case RotateSwap => w.up && w.rotating
    case RotateFail => w.up && w.rotating
    case Fsync(id, upto) => w.up && id in w.segs && id in w.synced && w.synced[id] <= upto <= |w.segs[id]|
    case Load => w.up && w.pass.Idle? && w.segs != map[]
    case See(first) =>
      && w.up && !w.rotating && w.pass.Listed? && first in w.pass.listed
      && Start(w.pass.floor) <= first
      && forall x :: x in w.pass.listed ==> x < Start(w.pass.floor) || first <= x
    case Read => w.up && w.pass.Scanning? && w.pass.at in w.segs
    case Deliver => w.up && w.pass.Holding? && w.pass.batch != []
    case Save => w.up && w.pass.Sent?
    case Next(to) =>
      && w.up && (w.pass.Done? || (w.pass.Holding? && w.pass.batch == []))
      && w.pass.at != w.pass.seen && w.pass.at < to && to in w.pass.listed
      && forall x :: x in w.pass.listed ==> x <= w.pass.at || to <= x
    case Stop => w.up && !w.pass.Idle?
    case Refuse(n) => w.up && w.pass.Holding? && n <= |w.pass.batch|
    case JanitorLoad => w.up && !w.rotating && w.cp.Some?
    case JanitorRemove(id) =>
      w.up && w.janitor.Some? && id in w.segs && id < w.janitor.value.active && id < w.janitor.value.segment
    case JanitorDone => w.up && w.janitor.Some?
    case Replay(s, tail) =>
      && Quiescent(w)
      && 0 < tail <= |Part(w.segs, w.cp, s)|
      && forall id :: id in w.segs && s < id ==> Part(w.segs, w.cp, id) == []
    case ReplayFail(n) => Quiescent(w) && n <= |Unflushed(w)|
    case Crash => w.up
    case PowerLoss => w.synced.Keys == w.segs.Keys
  }

  /** Replay runs after open and before the listener, the flusher and the janitor start. */
  predicate Quiescent(w: Wal) {
    w.up && !w.rotating && w.pass.Idle? && w.janitor.None? && w.reserved == {}
  }

  function Start(floor: Option<Checkpoint>): nat {
    if floor.Some? then floor.value.segment else 0
  }

  function Down(w: Wal): Wal {
    w.(up := false, rotating := false, reserved := {}, pass := Idle, janitor := None)
  }

  /** The record lies behind what the last fsync of its file covered. */
  predicate Unsynced(w: Wal, e: Entry)
    requires w.synced.Keys == w.segs.Keys
  {
    exists id :: id in w.segs && e in w.segs[id][Min(w.synced[id], |w.segs[id]|)..]
  }

  function Spared(w: Wal, es: seq<Entry>): seq<Entry>
    requires w.synced.Keys == w.segs.Keys
  {
    if es == [] then [] else
      var last := es[|es| - 1];
      Spared(w, es[..|es| - 1]) + if Unsynced(w, last) then [] else [last]
  }

  /** The files as an fsync left them. */
  function Survivors(w: Wal): map<nat, seq<Entry>>
    requires w.synced.Keys == w.segs.Keys
  {
    map id | id in w.segs :: w.segs[id][..Min(w.synced[id], |w.segs[id]|)]
  }

  function Put(w: Wal, offset: nat, size: nat): Wal
    requires w.active in w.segs
  {
    var e := Entry(w.count, offset, size);
    w.(segs := w.segs[w.active := w.segs[w.active] + [e]], owed := w.owed + [e], count := w.count + 1)
  }

  function ReplayedCheckpoint(w: Wal, s: nat, tail: nat): Checkpoint
    requires tail <= |Part(w.segs, w.cp, s)|
  {
    var kept := Part(w.segs, w.cp, s);
    Checkpoint(s, MaxOffset(kept[|kept| - tail..]))
  }

  function Apply(w: Wal, a: Action): Wal
    requires Enabled(w, a)
  {
    match a
    case Create => w.(up := true, segs := map[0 := []], synced := map[0 := 0], active := 0, next := 0)
    case Open(last, roll) =>
      var next := MaxOffset(w.segs[last]) + 1;
      if roll then
        w.(up := true, segs := w.segs[last + 1 := []], synced := w.synced[last + 1 := 0], active := last + 1,
           next := next)
      else
        w.(up := true, active := last, next := next)
    case Append(size) => Put(w, w.next, size).(next := w.next + 1)
    case Reserve => w.(reserved := w.reserved + {w.next}, next := w.next + 1)
    case Write(o, size) => Put(w, o, size).(reserved := w.reserved - {o})
    case RotateCreate =>
      w.(segs := w.segs[w.active + 1 := []],
         synced := w.synced[w.active := |w.segs[w.active]|][w.active + 1 := 0],
         rotating := true)
    case RotateSwap => w.(active := w.active + 1, rotating := false)
    case RotateFail => w.(rotating := false)
    case Fsync(id, upto) => w.(synced := w.synced[id := upto])
    case Load => w.(pass := Listed(w.cp, w.segs.Keys))
    case See(first) => w.(pass := Scanning(w.pass.floor, w.pass.listed, w.active, first))
    case Read =>
      var p := w.pass;
      w.(pass := Holding(p.floor, p.listed, p.seen, p.at, Fresh(p.floor, p.at, w.segs[p.at])))
    case Deliver =>
      var p := w.pass;
      w.(delivered := w.delivered + p.batch, pass := Sent(p.floor, p.listed, p.seen, p.at, p.batch))
    case Save =>
      var p := w.pass;
      w.(cp := Some(Checkpoint(p.at, MaxOffset(p.batch))), pass := Done(p.floor, p.listed, p.seen, p.at))
    case Next(to) =>
      var p := w.pass;
      w.(pass := Scanning(p.floor, p.listed, p.seen, to))
    case Stop => w.(pass := Idle)
    case Refuse(n) => w.(delivered := w.delivered + w.pass.batch[..n], pass := Idle)
    case JanitorLoad => w.(janitor := Some(JanitorView(w.cp.value.segment, w.active)))
    case JanitorRemove(id) => w.(segs := w.segs - {id}, synced := w.synced - {id})
    case JanitorDone => w.(janitor := None)
    case Replay(s, tail) =>
      w.(delivered := w.delivered + Unflushed(w), cp := Some(ReplayedCheckpoint(w, s, tail)))
    case ReplayFail(n) => Down(w.(delivered := w.delivered + Unflushed(w)[..n]))
    case Crash => Down(w)
    case PowerLoss =>
      var left := Survivors(w);
      Down(w.(segs := left, synced := map id | id in w.segs :: |left[id]|, owed := Spared(w, w.owed)))
  }

  // ---------------------------------------------------------------- runs

  predicate Possible(w: Wal, acts: seq<Action>)
    decreases |acts|
  {
    acts == [] || (Enabled(w, acts[0]) && Possible(Apply(w, acts[0]), acts[1..]))
  }

  function Final(w: Wal, acts: seq<Action>): Wal
    requires Possible(w, acts)
    decreases |acts|
  {
    if acts == [] then w else Final(Apply(w, acts[0]), acts[1..])
  }
}
