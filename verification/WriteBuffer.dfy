/**
  The in-memory write buffer: rows accumulate in one slot per workspace, signal, stream and hour, and
  whole slots are removed by the flush worker.  A drain first collects keys and then removes the slots
  one by one; pushes may come in between.
*/
module WriteBuffer {
  import opened Prelude

  datatype Signal = Spans | Metrics | Logs | Scores

  datatype BufferKey = BufferKey(workspace: string, signalType: string, stream: string, hour: string)

  /** `kind` is the variant of the batch the slot was created with. */
  datatype Slot = Slot(kind: Signal, rows: seq<nat>, sizeBytes: nat, createdAt: nat)

  type Slots = map<BufferKey, Slot>

  /** The slots, with everything pushed so far and everything drained so far for each key. */
  datatype Buffer = Buffer(slots: Slots, pushed: map<BufferKey, seq<nat>>, drained: map<BufferKey, seq<nat>>)

  const EMPTY: Buffer := Buffer(map[], map[], map[])

  function NameOf(kind: Signal): string {
    match kind
    case Spans => "traces"
    case Metrics => "metrics"
    case Logs => "logs"
    case Scores => "scores"
  }

  /** Rough bytes per record. */
  function Weight(kind: Signal): nat {
    match kind
    case Spans => 512
    case Metrics => 256
    case Logs => 384
    case Scores => 256
  }

  function Rows(m: map<BufferKey, seq<nat>>, key: BufferKey): seq<nat> {
    if key in m then m[key] else []
  }

  function Held(slots: Slots, key: BufferKey): seq<nat> {
    if key in slots then slots[key].rows else []
  }

  // ---------------------------------------------------------------- steps

  datatype Op =
    | Push(kind: Signal, key: BufferKey, rows: seq<nat>, now: nat)
    | Remove(key: BufferKey)

  /** The slot after a push; rows of another variant than the slot's are not taken, but counted in its size. */
  function Filled(slots: Slots, kind: Signal, key: BufferKey, rows: seq<nat>, now: nat): Slot {
    var slot := if key in slots then slots[key] else Slot(kind, [], 0, now);
    Slot(slot.kind, if slot.kind == kind then slot.rows + rows else slot.rows,
         slot.sizeBytes + |rows| * Weight(kind), slot.createdAt)
  }

  function Apply(b: Buffer, op: Op): Buffer {
    match op
    case Push(kind, key, rows, now) =>
      Buffer(b.slots[key := Filled(b.slots, kind, key, rows, now)], b.pushed[key := Rows(b.pushed, key) + rows],
        b.drained)
    case Remove(key) =>
      if key in b.slots then Buffer(b.slots - {key}, b.pushed,
        b.drained[key := Rows(b.drained, key) + b.slots[key].rows])
      else b
  }

  function Run(b: Buffer, ops: seq<Op>): Buffer
    decreases |ops|
  {
    if ops == [] then b else Run(Apply(b, ops[0]), ops[1..])
  }

  // ---------------------------------------------------------------- conservation

  /** For every key: what was drained, then what is held, is what was pushed, in order. */
  ghost predicate Conserved(b: Buffer) {
    forall key :: Rows(b.drained, key) + Held(b.slots, key) == Rows(b.pushed, key)
  }

  /** Each slot's variant is the one its key names, and its size estimate is exact. */
  ghost predicate Matched(slots: Slots) {
    forall key :: key in slots ==>
      NameOf(slots[key].kind) == key.signalType && slots[key].sizeBytes == |slots[key].rows| * Weight(slots[key].kind)
  }

  predicate WellKeyed(op: Op) {
    op.Push? ==> op.key.signalType == NameOf(op.kind)
  }

  lemma {:induction false} SizeAdds(m: nat, n: nat, w: nat)
    ensures m * w + n * w == (m + n) * w
  {}

  lemma {:induction false} NamesDistinct(x: Signal, y: Signal)
    requires NameOf(x) == NameOf(y)
    ensures x == y
  {}

  lemma {:induction false} MatchedKept(b: Buffer, op: Op)
    requires Matched(b.slots) && WellKeyed(op)
    ensures Matched(Apply(b, op).slots)
  {
    if op.Push? {
      if op.key in b.slots { NamesDistinct(b.slots[op.key].kind, op.kind); }
      SizeAdds(|Held(b.slots, op.key)|, |op.rows|, Weight(op.kind));
    }
  }

  /** What a push into no slot, or one of its variant, does at each key. */
  lemma {:induction false} PushAt(b: Buffer, op: Op, key: BufferKey)
    requires op.Push? && (op.key !in b.slots || b.slots[op.key].kind == op.kind)
    ensures var b' := Apply(b, op); var added := if key == op.key then op.rows else [];
            && Rows(b'.drained, key) == Rows(b.drained, key)
            && Held(b'.slots, key) == Held(b.slots, key) + added
            && Rows(b'.pushed, key) == Rows(b.pushed, key) + added
  {
    hide NameOf, Weight;
    assert Held(b.slots, key) + [] == Held(b.slots, key) && Rows(b.pushed, key) + [] == Rows(b.pushed, key);
  }

  lemma {:induction false} PushConserves(b: Buffer, op: Op)
    requires Conserved(b) && op.Push? && (op.key !in b.slots || b.slots[op.key].kind == op.kind)
    ensures Conserved(Apply(b, op))
  {
    hide Apply, Rows, Held;
    var b' := Apply(b, op);
    forall key ensures Rows(b'.drained, key) + Held(b'.slots, key) == Rows(b'.pushed, key) {
      PushAt(b, op, key);
      Regroup(Rows(b.drained, key), Held(b.slots, key), if key == op.key then op.rows else []);
    }
  }

  lemma {:induction false} Regroup(x: seq<nat>, y: seq<nat>, z: seq<nat>)
    ensures x + (y + z) == x + y + z
  {}

  lemma {:induction false} RemoveConserves(b: Buffer, key: BufferKey)
    requires Conserved(b)
    ensures Conserved(Apply(b, Remove(key)))
  {
    var b' := Apply(b, Remove(key));
    forall k ensures Rows(b'.drained, k) + Held(b'.slots, k) == Rows(b'.pushed, k) {
      assert Rows(b.drained, k) + Held(b.slots, k) == Rows(b.pushed, k);
    }
  }

  lemma {:induction false} StepConserves(b: Buffer, op: Op)
    requires Conserved(b) && Matched(b.slots) && WellKeyed(op)
    ensures Conserved(Apply(b, op)) && Matched(Apply(b, op).slots)
  {
    hide Conserved, Apply;
    MatchedKept(b, op);
    match op {
      case Remove(key) => RemoveConserves(b, key);
      case Push(kind, key, _, _) =>
        if key in b.slots { NamesDistinct(b.slots[key].kind, kind); }
        PushConserves(b, op);
    }
  }

  /** Under every interleaving of pushes with the removals of any number of drains. */
  lemma {:induction false} RunConserves(b: Buffer, ops: seq<Op>)
    requires Conserved(b) && Matched(b.slots) && forall op :: op in ops ==> WellKeyed(op)
    ensures Conserved(Run(b, ops)) && Matched(Run(b, ops).slots)
    decreases |ops|
  {
    if ops != [] {
      assert ops[0] in ops && forall op :: op in ops[1..] ==> op in ops;
      StepConserves(b, ops[0]);
      RunConserves(Apply(b, ops[0]), ops[1..]);
    }
  }

  /** A push loses rows exactly when its key already holds a slot of another variant. */
  lemma {:induction false} PushExact(b: Buffer, op: Op)
    requires Conserved(b) && op.Push? && op.rows != []
    ensures Conserved(Apply(b, op)) <==> op.key !in b.slots || b.slots[op.key].kind == op.kind
  {
    hide NameOf, Weight;
    if op.key !in b.slots || b.slots[op.key].kind == op.kind {
      PushConserves(b, op);
    } else {
      var b' := Apply(b, op);
      assert Rows(b.drained, op.key) + Held(b.slots, op.key) == Rows(b.pushed, op.key);
      assert |Rows(b'.drained, op.key) + Held(b'.slots, op.key)| < |Rows(b'.pushed, op.key)|;
    }
  }

  // ---------------------------------------------------------------- the age of a slot

  /** The time of the first push to a key since its slot was last removed. */
  function Since(ops: seq<Op>, key: BufferKey): Option<nat> {
    if ops == [] then None else
      var before, last := Since(ops[..|ops| - 1], key), ops[|ops| - 1];
      if last.key != key then before else if last.Remove? then None else if before.Some? then before else Some(last.now)
  }

  lemma {:induction false} AgeAfter(b: Buffer, op: Op, key: BufferKey)
    ensures var slots := Apply(b, op).slots;
            && (key in slots <==> if op.key != key then key in b.slots else op.Push?)
            && (key in slots ==>
                 slots[key].createdAt == if key in b.slots then b.slots[key].createdAt else op.now)
  {
    hide NameOf, Weight, Rows;
  }

  /** Over any run a slot is there and as old as the first push since its last removal. */
  lemma {:induction false} AgesFromFirstPush(ops: seq<Op>, key: BufferKey)
    ensures var slots := Run(EMPTY, ops).slots;
            && (key in slots <==> Since(ops, key).Some?)
            && (key in slots ==> slots[key].createdAt == Since(ops, key).value)
  {
    hide Apply, Run;
    if ops == [] {
      RunNothing(EMPTY);
    } else {
      var init, last := ops[..|ops| - 1], ops[|ops| - 1];
      AgesFromFirstPush(init, key);
      AgeAfter(Run(EMPTY, init), last, key);
      assert ops == init + [last];
      RunNext(EMPTY, init, last);
    }
  }

  // ---------------------------------------------------------------- the buffer as an object

  /** Zero for a slot created after `now`. */
  function Age(slot: Slot, now: nat): nat {
    if now < slot.createdAt then 0 else now - slot.createdAt
  }

  predicate Eligible(slot: Slot, now: nat, ttl: nat, maxSlotBytes: nat) {
    slot.sizeBytes >= maxSlotBytes || Age(slot, now) >= ttl
  }

  datatype Drained = Drained(key: BufferKey, slot: Slot)

  /** The buffer without the slots of these keys. */
  function RemoveAll(b: Buffer, keys: seq<BufferKey>): Buffer {
    if keys == [] then b else Apply(RemoveAll(b, keys[..|keys| - 1]), Remove(keys[|keys| - 1]))
  }

  /** The slots of these keys, in the order the keys are in, as far as there are any. */
  function Taken(slots: Slots, keys: seq<BufferKey>): seq<Drained> {
    if keys == [] then [] else
      var last := keys[|keys| - 1];
      Taken(slots, keys[..|keys| - 1]) + if last in slots then [Drained(last, slots[last])] else []
  }

  ghost predicate Distinct(keys: seq<BufferKey>) {
    forall i, j :: 0 <= i < j < |keys| ==> keys[i] != keys[j]
  }

  lemma {:induction false} RemoveAllSlots(b: Buffer, keys: seq<BufferKey>)
    ensures forall key :: key in RemoveAll(b, keys).slots <==> key in b.slots && key !in keys
    ensures forall key :: key in RemoveAll(b, keys).slots ==> RemoveAll(b, keys).slots[key] == b.slots[key]
  {
    if keys != [] {
      RemoveAllSlots(b, keys[..|keys| - 1]);
      assert forall key :: key in keys <==> key in keys[..|keys| - 1] || key == keys[|keys| - 1];
    }
  }

  /** The steps of a drain of these keys, with what others do before each removal. */
  function DrainOps(keys: seq<BufferKey>, others: nat -> seq<Op>): seq<Op> {
    if keys == [] then [] else
      var n := |keys| - 1;
      DrainOps(keys[..n], others) + others(n) + [Remove(keys[n])]
  }

  /** The slots a drain returns: of each key, what its slot holds when its turn comes. */
  function Results(b: Buffer, keys: seq<BufferKey>, others: nat -> seq<Op>): seq<Drained> {
    if keys == [] then [] else
      var n := |keys| - 1;
      var reached := Run(b, DrainOps(keys[..n], others) + others(n));
      Results(b, keys[..n], others) + if keys[n] in reached.slots then [Drained(keys[n], reached.slots[keys[n]])]
        else []
  }

  lemma {:induction false} RunNothing(b: Buffer)
    ensures Run(b, []) == b
  {}

  lemma {:induction false} RunConcat(b: Buffer, ops: seq<Op>, more: seq<Op>)
    ensures Run(b, ops + more) == Run(Run(b, ops), more)
    decreases |ops|
  {
    if ops == [] {
      assert ops + more == more;
    } else {
      assert (ops + more)[1..] == ops[1..] + more;
      RunConcat(Apply(b, ops[0]), ops[1..], more);
    }
  }

  lemma {:induction false} RunNext(b: Buffer, ops: seq<Op>, op: Op)
    ensures Run(b, ops + [op]) == Apply(Run(b, ops), op)
  {
    RunConcat(b, ops, [op]);
    assert [op][1..] == [];
  }

  lemma {:induction false} NothingDrained(b: Buffer, others: nat -> seq<Op>)
    ensures Run(b, DrainOps([], others)) == b && Results(b, [], others) == []
  {}

  lemma {:induction false} DrainNext(b: Buffer, keys: seq<BufferKey>, i: nat, others: nat -> seq<Op>)
    requires i < |keys|
    ensures var reached := Run(Run(b, DrainOps(keys[..i], others)), others(i));
            && Run(b, DrainOps(keys[..i + 1], others)) == Apply(reached, Remove(keys[i]))
            && Results(b, keys[..i + 1], others) == Results(b, keys[..i], others) +
                 if keys[i] in reached.slots then [Drained(keys[i], reached.slots[keys[i]])] else []
  {
    assert keys[..i + 1][..i] == keys[..i];
    var ops := DrainOps(keys[..i], others) + others(i);
    RunNext(b, ops, Remove(keys[i]));
    RunConcat(b, DrainOps(keys[..i], others), others(i));
  }

  class WriteBuffer {
    const maxSlotBytes: nat
    var slots: Slots
    ghost var pushed: map<BufferKey, seq<nat>>
    ghost var drained: map<BufferKey, seq<nat>>

    ghost function View(): Buffer
      reads this
    {
      Buffer(slots, pushed, drained)
    }

    constructor (maxSlotBytes: nat)
      ensures View() == EMPTY && this.maxSlotBytes == maxSlotBytes
    {
      this.maxSlotBytes, slots, pushed, drained := maxSlotBytes, map[], map[], map[];
    }

    /** Append a borrowed slice; `notify` asks for an immediate flush. */
    method Push(kind: Signal, key: BufferKey, rows: seq<nat>, now: nat) returns (notify: bool)
      modifies this
      ensures View() == Apply(old(View()), Op.Push(kind, key, rows, now))
      ensures key in slots && (notify <==> slots[key].sizeBytes >= maxSlotBytes)
      ensures slots[key].createdAt == if key in old(slots) then old(slots)[key].createdAt else now
      ensures slots[key].sizeBytes == (if key in old(slots) then old(slots)[key].sizeBytes else 0) +
        |rows| * (match kind case Spans => 512 case Metrics => 256 case Logs => 384 case Scores => 256)
    {
      var added := |rows| * Weight(kind);
      if key !in slots { slots := slots[key := Slot(kind, [], 0, now)]; }
      var slot := slots[key];
      if slot.kind == kind { slot := slot.(rows := slot.rows + rows); }
      slot := slot.(sizeBytes := slot.sizeBytes + added);
      slots := slots[key := slot];
      pushed := pushed[key := Rows(pushed, key) + rows];
      notify := slot.sizeBytes >= maxSlotBytes;
    }

    /** Move an owned batch: into an empty slot as it is, behind the rows of a warm one. The slots end up equal. */
    method PushOwned(kind: Signal, key: BufferKey, rows: seq<nat>, now: nat) returns (notify: bool)
      modifies this
      ensures View() == Apply(old(View()), Op.Push(kind, key, rows, now))
      ensures key in slots && (notify <==> slots[key].sizeBytes >= maxSlotBytes)
      ensures slots[key].createdAt == if key in old(slots) then old(slots)[key].createdAt else now
      ensures slots[key].sizeBytes == (if key in old(slots) then old(slots)[key].sizeBytes else 0) +
        |rows| * (match kind case Spans => 512 case Metrics => 256 case Logs => 384 case Scores => 256)
    {
      var added := |rows| * Weight(kind);
      if key !in slots { slots := slots[key := Slot(kind, [], 0, now)]; }
      var slot := slots[key];
      if slot.kind == kind {
        if slot.rows == [] {
          assert slot.rows + rows == rows;
          slot := slot.(rows := rows);
        } else {
          slot := slot.(rows := slot.rows + rows);
        }
      }
      slot := slot.(sizeBytes := slot.sizeBytes + added);
      slots := slots[key := slot];
      pushed := pushed[key := Rows(pushed, key) + rows];
      notify := slot.sizeBytes >= maxSlotBytes;
    }

    /** The second step of a drain, for one key; the slot may be gone by now. */
    method RemoveSlot(key: BufferKey) returns (found: Option<Slot>)
      modifies this
      ensures View() == Apply(old(View()), Remove(key))
      ensures found == if key in old(slots) then Some(old(slots)[key]) else None
    {
      if key !in slots { return None; }
      found := Some(slots[key]);
      drained := drained[key := Rows(drained, key) + slots[key].rows];
      slots := slots - {key};
    }

    /** The first step of a drain: the keys of all slots that are too large or too old. */
    method EligibleKeys(now: nat, ttl: nat) returns (keys: seq<BufferKey>)
      ensures Distinct(keys)
      ensures forall key :: key in keys <==>
        key in slots && (slots[key].sizeBytes >= maxSlotBytes || now >= slots[key].createdAt + ttl || ttl == 0)
    {
      keys := [];
      var rest := slots.Keys;
      while rest != {}
        invariant rest <= slots.Keys && Distinct(keys)
        invariant forall key :: key in keys <==>
          key in slots && key !in rest && Eligible(slots[key], now, ttl, maxSlotBytes)
        decreases rest
      {
        var key :| key in rest;
        if Eligible(slots[key], now, ttl, maxSlotBytes) {
          assert key !in keys;
          keys := keys + [key];
        }
        rest := rest - {key};
      }
    }

    /** What other threads push, or remove, in the meantime. */
    method Others(ops: seq<Op>)
      modifies this
      ensures View() == Run(old(View()), ops)
    {
      RunNothing(View());
      assert ops[..0] == [];
      for i := 0 to |ops|
        invariant View() == Run(old(View()), ops[..i])
      {
        assert ops[..i + 1] == ops[..i] + [ops[i]];
        RunNext(old(View()), ops[..i], ops[i]);
        match ops[i]
        case Push(kind, key, rows, now) => var _ := Push(kind, key, rows, now);
        case Remove(key) => var _ := RemoveSlot(key);
      }
      assert ops[..|ops|] == ops;
    }

    /** The second half of a drain; before each removal others get in between. */
    method RemoveKeys(keys: seq<BufferKey>, others: nat -> seq<Op>) returns (result: seq<Drained>)
      modifies this
      ensures View() == Run(old(View()), DrainOps(keys, others))
      ensures result == Results(old(View()), keys, others)
    {
      hide DrainOps, Results, Apply, Run;
      result := [];
      NothingDrained(View(), others);
      assert keys[..0] == [];
      for i := 0 to |keys|
        invariant View() == Run(old(View()), DrainOps(keys[..i], others))
        invariant result == Results(old(View()), keys[..i], others)
      {
        DrainNext(old(View()), keys, i, others);
        Others(others(i));
        var found := RemoveSlot(keys[i]);
        if found.Some? { result := result + [Drained(keys[i], found.value)]; }
      }
      assert keys[..|keys|] == keys;
    }

    /** Collect the keys of the slots that are too large or too old, then remove these slots. */
    method DrainEligible(now: nat, ttl: nat, others: nat -> seq<Op>)
      returns (result: seq<Drained>, keys: seq<BufferKey>)
      modifies this
      ensures Distinct(keys)
      ensures forall key :: key in keys <==>
        key in old(slots) &&
        (old(slots)[key].sizeBytes >= maxSlotBytes || now >= old(slots)[key].createdAt + ttl || ttl == 0)
      ensures View() == Run(old(View()), DrainOps(keys, others))
      ensures result == Results(old(View()), keys, others)
    {
      keys := EligibleKeys(now, ttl);
      result := RemoveKeys(keys, others);
    }

    /** Shutdown: the same for every slot. */
    method DrainAll(others: nat -> seq<Op>) returns (result: seq<Drained>, keys: seq<BufferKey>)
      modifies this
      ensures Distinct(keys)
      ensures forall key :: key in keys <==> key in old(slots)
      ensures View() == Run(old(View()), DrainOps(keys, others))
      ensures result == Results(old(View()), keys, others)
    {
      keys := [];
      var rest := slots.Keys;
      while rest != {}
        invariant rest <= slots.Keys && Distinct(keys) && View() == old(View())
        invariant forall key :: key in keys <==> key in slots && key !in rest
        decreases rest
      {
        var key :| key in rest;
        keys, rest := keys + [key], rest - {key};
      }
      result := RemoveKeys(keys, others);
    }

    /** The number of rows held, whatever their kind. */
    method RecordCount() returns (n: nat)
      ensures n == CountRows(slots)
    {
      n := 0;
      var rest := slots;
      while rest != map[]
        invariant n + CountRows(rest) == CountRows(slots)
        decreases |rest|
      {
        var key :| key in rest;
        CountOne(rest, key);
        n := n + |rest[key].rows|;
        assert (rest - {key}).Keys == rest.Keys - {key};
        rest := rest - {key};
      }
    }
  }

  lemma {:induction false} TakenMembers(slots: Slots, keys: seq<BufferKey>)
    ensures forall d :: d in Taken(slots, keys) <==> d.key in keys && d.key in slots && d.slot == slots[d.key]
  {
    if keys != [] {
      TakenMembers(slots, keys[..|keys| - 1]);
      assert forall key :: key in keys <==> key in keys[..|keys| - 1] || key == keys[|keys| - 1];
    }
  }

  lemma {:induction false} DrainWellKeyed(keys: seq<BufferKey>, others: nat -> seq<Op>)
    requires forall i, op :: 0 <= i < |keys| && op in others(i) ==> WellKeyed(op)
    ensures forall op :: op in DrainOps(keys, others) ==> WellKeyed(op)
  {
    if keys != [] { DrainWellKeyed(keys[..|keys| - 1], others); }
  }

  /** A drain conserves what was pushed, whatever others push and remove between its steps. */
  lemma {:induction false} DrainConserves(b: Buffer, keys: seq<BufferKey>, others: nat -> seq<Op>)
    requires Conserved(b) && Matched(b.slots)
    requires forall i, op :: 0 <= i < |keys| && op in others(i) ==> WellKeyed(op)
    ensures Conserved(Run(b, DrainOps(keys, others))) && Matched(Run(b, DrainOps(keys, others)).slots)
  {
    DrainWellKeyed(keys, others);
    RunConserves(b, DrainOps(keys, others));
  }

  /** Undisturbed, a drain returns and removes exactly the slots of its keys, and leaves the others alone. */
  lemma {:induction false} DrainAlone(b: Buffer, keys: seq<BufferKey>, others: nat -> seq<Op>)
    requires Distinct(keys) && forall i: nat :: others(i) == []
    ensures var after := Run(b, DrainOps(keys, others));
            && (forall key :: key in after.slots <==> key in b.slots && key !in keys)
            && (forall key :: key in after.slots ==> after.slots[key] == b.slots[key])
            && (forall d :: d in Results(b, keys, others) <==>
              d.key in keys && d.key in b.slots && d.slot == b.slots[d.key])
  {
    RemovesAlone(b, keys, others);
    RemoveAllSlots(b, keys);
    TakenMembers(b.slots, keys);
  }

  lemma {:induction false} RemovesAlone(b: Buffer, keys: seq<BufferKey>, others: nat -> seq<Op>)
    requires Distinct(keys) && forall i: nat :: others(i) == []
    ensures Run(b, DrainOps(keys, others)) == RemoveAll(b, keys) && Results(b, keys, others) == Taken(b.slots, keys)
  {
    hide Apply;
    if keys == [] {
      RunNothing(b);
    } else {
      var n := |keys| - 1;
      RemovesAlone(b, keys[..n], others);
      assert others(n) == [] && keys[..n + 1] == keys;
      RunNothing(Run(b, DrainOps(keys[..n], others)));
      DrainNext(b, keys, n, others);
      RemoveAllSlots(b, keys[..n]);
    }
  }

  // ---------------------------------------------------------------- counting rows

  ghost function CountRows(slots: Slots): nat
    decreases |slots|
  {
    if slots == map[] then 0 else
      var key :| key in slots;
      assert (slots - {key}).Keys == slots.Keys - {key};
      |slots[key].rows| + CountRows(slots - {key})
  }

  /** The count does not depend on the order the slots are visited in. */
  lemma {:induction false} CountOne(slots: Slots, key: BufferKey)
    requires key in slots
    ensures CountRows(slots) == |slots[key].rows| + CountRows(slots - {key})
    decreases |slots|
  {
    var first :| first in slots && CountRows(slots) == |slots[first].rows| + CountRows(slots - {first});
    if first != key {
      assert (slots - {first}).Keys == slots.Keys - {first} && (slots - {key}).Keys == slots.Keys - {key};
      CountOne(slots - {first}, key);
      CountOne(slots - {key}, first);
      assert slots - {first} - {key} == slots - {key} - {first};
    }
  }
}
