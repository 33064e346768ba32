/** Splitting a batch of rows into storage partitions, one per workspace, stream and hour. */
module Partition {
  import opened Bytes

  const NANOS_PER_HOUR := 3_600_000_000_000
  const NANOS_PER_SECOND := 1_000_000_000

  datatype Row = Row(workspace: string, service: string, timestamp: I64, id: nat)

  /** `hour` is the number of the UTC hour whose path the partition is stored under. */
  datatype Key = Key(workspace: string, stream: string, hour: int)

  function StreamOf(service: string): string {
    if service == "" then "default" else service
  }

  /** Division that rounds toward zero, as the source divides signed integers. */
  function Truncated(x: int, y: int): int
    requires y > 0
  {
    if x >= 0 then x / y else -((-x) / y)
  }

  /** The hour of the path: seconds are cut off toward zero before the hour is taken. */
  function HourOf(ts: I64): int {
    Truncated(ts, NANOS_PER_SECOND) / 3600
  }

  /** The integer the fast path compares instead. */
  function HourBucket(ts: I64): int {
    ts / NANOS_PER_HOUR
  }

  function KeyOf(r: Row): Key {
    Key(r.workspace, StreamOf(r.service), HourOf(r.timestamp))
  }

  // ---------------------------------------------------------------- hours

  /** Bucket and path hour agree except for negative timestamps inside the last second of an hour. */
  lemma {:induction false} HoursAgreeExactly(ts: I64)
    ensures HourOf(ts) == HourBucket(ts) <==> ts >= 0 || ts % NANOS_PER_HOUR <= 3599 * NANOS_PER_SECOND
  {}

  /** The timestamps of each hour; before 1970 an hour begins and ends one second early, its end included. */
  lemma {:induction false} HourExact(ts: I64, hour: int)
    ensures HourOf(ts) == hour <==>
              if ts >= 0 then hour * NANOS_PER_HOUR <= ts < (hour + 1) * NANOS_PER_HOUR
              else hour * NANOS_PER_HOUR - NANOS_PER_SECOND < ts <= (hour + 1) * NANOS_PER_HOUR - NANOS_PER_SECOND
  {
    var x: int := ts;
    if x < 0 {
      var s := -((-x) / NANOS_PER_SECOND);
      assert (s - 1) * NANOS_PER_SECOND < x <= s * NANOS_PER_SECOND;
      assert s / 3600 == hour <==> hour * 3600 <= s < (hour + 1) * 3600;
    }
  }

  // ---------------------------------------------------------------- grouping, declaratively

  /** The rows of one key, in arrival order. */
  function Only(rows: seq<Row>, key: Key): seq<Row> {
    if rows == [] then [] else
      var last := rows[|rows| - 1];
      Only(rows[..|rows| - 1], key) + if KeyOf(last) == key then [last] else []
  }

  /** The keys in the order they are first seen. */
  function Keys(rows: seq<Row>): seq<Key> {
    if rows == [] then [] else
      var keys, key := Keys(rows[..|rows| - 1]), KeyOf(rows[|rows| - 1]);
      if key in keys then keys else keys + [key]
  }

  datatype Group = Group(key: Key, rows: seq<Row>)

  function Groups(rows: seq<Row>): seq<Group> {
    var keys := Keys(rows);
    seq(|keys|, i requires 0 <= i < |keys| => Group(keys[i], Only(rows, keys[i])))
  }

  predicate Distinct(keys: seq<Key>) {
    forall i, j :: 0 <= i < j < |keys| ==> keys[i] != keys[j]
  }

  lemma {:induction false} KeysDistinct(rows: seq<Row>)
    ensures Distinct(Keys(rows))
    ensures forall i :: 0 <= i < |rows| ==> KeyOf(rows[i]) in Keys(rows)
  {
    if rows != [] {
      var init, last := rows[..|rows| - 1], rows[|rows| - 1];
      KeysDistinct(init);
      assert rows == init + [last];
      GroupsNext(init, last);
      hide Keys, KeyOf;
      forall i | 0 <= i < |rows| ensures KeyOf(rows[i]) in Keys(rows) {
        if i < |init| { assert rows[i] == init[i]; }
      }
    }
  }

  lemma {:induction false} OnlyUnseen(rows: seq<Row>, key: Key)
    requires key !in Keys(rows)
    ensures Only(rows, key) == []
  {
    if rows != [] { OnlyUnseen(rows[..|rows| - 1], key); }
  }

  lemma {:induction false} OnlyCount(rows: seq<Row>, key: Key, x: Row)
    ensures multiset(Only(rows, key))[x] == if KeyOf(x) == key then multiset(rows)[x] else 0
  {
    if rows != [] {
      OnlyCount(rows[..|rows| - 1], key, x);
      assert rows == rows[..|rows| - 1] + [rows[|rows| - 1]];
    }
  }

  function Flatten(groups: seq<Group>): seq<Row> {
    if groups == [] then [] else Flatten(groups[..|groups| - 1]) + groups[|groups| - 1].rows
  }

  lemma {:induction false} FlattenCount(rows: seq<Row>, n: nat, x: Row)
    requires n <= |Keys(rows)|
    ensures multiset(Flatten(Groups(rows)[..n]))[x] ==
              if KeyOf(x) in Keys(rows)[..n] then multiset(rows)[x] else 0
  {
    hide Only, Keys;
    if n > 0 {
      var groups, keys := Groups(rows), Keys(rows);
      var key := keys[n - 1];
      assert groups[..n][..n - 1] == groups[..n - 1];
      assert groups[..n][n - 1] == Group(key, Only(rows, key));
      FlattenCount(rows, n - 1, x);
      OnlyCount(rows, key, x);
      KeysDistinct(rows);
      assert keys[..n] == keys[..n - 1] + [key];
      assert key !in keys[..n - 1];
    }
  }

  lemma {:induction false} KeySeen(rows: seq<Row>, x: Row)
    requires x in rows
    ensures KeyOf(x) in Keys(rows)
  {
    var i :| 0 <= i < |rows| && rows[i] == x;
    KeysDistinct(rows);
  }

  /** The groups together are the rows again: nothing lost, nothing doubled. */
  lemma {:induction false} GroupsPermute(rows: seq<Row>)
    ensures multiset(Flatten(Groups(rows))) == multiset(rows)
  {
    var n := |Keys(rows)|;
    assert Groups(rows)[..n] == Groups(rows);
    forall x ensures multiset(Flatten(Groups(rows)))[x] == multiset(rows)[x] {
      FlattenCount(rows, n, x);
      assert Keys(rows)[..n] == Keys(rows);
      if x in rows { KeySeen(rows, x); }
    }
  }

  // ---------------------------------------------------------------- grouping, as the code does it

  ghost predicate Indexed(keys: seq<Key>, index: map<Key, nat>) {
    && (forall key :: key in index <==> key in keys)
    && forall key :: key in index ==> index[key] < |keys| && keys[index[key]] == key
  }

  /** One more row changes the group of its key and no other. */
  lemma {:induction false} GroupsNext(rows: seq<Row>, r: Row)
    ensures Keys(rows + [r]) == if KeyOf(r) in Keys(rows) then Keys(rows) else Keys(rows) + [KeyOf(r)]
    ensures forall key :: Only(rows + [r], key) == Only(rows, key) + if KeyOf(r) == key then [r] else []
    ensures KeyOf(r) !in Keys(rows) ==> Only(rows, KeyOf(r)) == []
  {
    assert (rows + [r])[..|rows|] == rows;
    if KeyOf(r) !in Keys(rows) { OnlyUnseen(rows, KeyOf(r)); }
  }

  /** Look the key up in the index, start a group if it is new, put the row into its group. */
  method Place(ghost rows: seq<Row>, r: Row, index: map<Key, nat>, groups: seq<Group>)
    returns (index': map<Key, nat>, groups': seq<Group>)
    requires groups == Groups(rows) && Indexed(Keys(rows), index)
    ensures groups' == Groups(rows + [r]) && Indexed(Keys(rows + [r]), index')
  {
    hide Keys, Only;
    var key := KeyOf(r);
    GroupsNext(rows, r);
    KeysDistinct(rows);
    index', groups' := index, groups;
    if key !in index' {
      groups' := groups' + [Group(key, [])];
      index' := index'[key := |groups'| - 1];
    }
    var at := index'[key];
    groups' := groups'[at := Group(key, groups'[at].rows + [r])];
    var keys' := Keys(rows + [r]);
    forall i | 0 <= i < |keys'| ensures groups'[i] == Group(keys'[i], Only(rows + [r], keys'[i])) {}
  }

  lemma {:induction false} NothingGrouped()
    ensures Groups([]) == [] && Keys([]) == []
  {}

  /** Every row maps to the same workspace, stream and hour bucket as the first. */
  predicate IsHomogeneous(rows: seq<Row>)
    requires rows != []
  {
    forall i :: 0 <= i < |rows| ==>
      && rows[i].workspace == rows[0].workspace
      && StreamOf(rows[i].service) == StreamOf(rows[0].service)
      && HourBucket(rows[i].timestamp) == HourBucket(rows[0].timestamp)
  }

  datatype Partitioned = Homogeneous(key: Key, rows: seq<Row>) | Grouped(groups: seq<Group>)

  function AsGroups(p: Partitioned): seq<Group> {
    if p.Homogeneous? then [Group(p.key, p.rows)] else p.groups
  }

  function PartitionOf(rows: seq<Row>): Partitioned
    requires rows != []
  {
    if IsHomogeneous(rows) then Homogeneous(KeyOf(rows[0]), rows) else Grouped(Groups(rows))
  }

  /**
    What the partitions mean, by the fields of the rows: distinct keys, in the order they are first seen;
    workspace and stream of every row are those of its partition, and from 1970 on so is its hour; and the
    rows are those of the batch, in its order.
  */
  ghost predicate StoredByKey(rows: seq<Row>, groups: seq<Group>) {
    && (forall i, j :: 0 <= i < j < |groups| ==> groups[i].key != groups[j].key)
    && (forall i, r :: 0 <= i < |groups| && r in groups[i].rows ==> Stored(r, groups[i].key))
    && multiset(Flatten(groups)) == multiset(rows)
    && (forall i :: 0 <= i < |groups| ==> Within(groups[i].rows, rows))
    && forall i, j :: 0 <= i < j < |groups| ==> SeenBefore(rows, groups[i].key, groups[j].key)
  }

  /** The rows of a partition in the order of the batch. */
  predicate Within(some: seq<Row>, rows: seq<Row>)
    decreases |rows|
  {
    some == [] ||
      (rows != [] && Within(if some[|some| - 1] == rows[|rows| - 1] then some[..|some| - 1] else some,
                            rows[..|rows| - 1]))
  }

  /** The batch has a row of the first key before all rows of the second. */
  predicate SeenBefore(rows: seq<Row>, key: Key, later: Key) {
    exists m :: 0 <= m < |rows| && KeyOf(rows[m]) == key && forall n :: 0 <= n < m ==> KeyOf(rows[n]) != later
  }

  lemma {:induction false} OnlyWithin(rows: seq<Row>, key: Key)
    ensures Within(Only(rows, key), rows)
  {
    if rows != [] {
      var init, last := rows[..|rows| - 1], rows[|rows| - 1];
      OnlyWithin(init, key);
      OnlyHasKey(rows, key);
      if KeyOf(last) == key {
        assert (Only(init, key) + [last])[..|Only(init, key)|] == Only(init, key);
      } else {
        assert Only(init, key) + [] == Only(init, key);
      }
    }
  }

  lemma {:induction false} AllWithin(rows: seq<Row>)
    ensures Within(rows, rows)
  {
    if rows != [] { AllWithin(rows[..|rows| - 1]); }
  }

  lemma {:induction false} SeenStill(rows: seq<Row>, r: Row, key: Key, later: Key)
    requires SeenBefore(rows, key, later)
    ensures SeenBefore(rows + [r], key, later)
  {
    var m :| 0 <= m < |rows| && KeyOf(rows[m]) == key && forall n :: 0 <= n < m ==> KeyOf(rows[n]) != later;
    assert forall n :: 0 <= n <= m ==> (rows + [r])[n] == rows[n];
  }

  lemma {:induction false} SeenFirst(rows: seq<Row>, key: Key, later: Key)
    requires key in Keys(rows) && later !in Keys(rows)
    ensures SeenBefore(rows, key, later)
  {
    KeysDistinct(rows);
    KeyOccurs(rows, key);
    hide Keys, KeyOf;
    var m :| 0 <= m < |rows| && KeyOf(rows[m]) == key;
    forall n | 0 <= n < m ensures KeyOf(rows[n]) != later { assert KeyOf(rows[n]) in Keys(rows); }
  }

  lemma {:induction false} KeysInOrder(rows: seq<Row>, i: nat, j: nat)
    requires i < j < |Keys(rows)|
    ensures SeenBefore(rows, Keys(rows)[i], Keys(rows)[j])
  {
    if rows == [] {
      NothingGrouped();
    } else {
      var init, last := rows[..|rows| - 1], rows[|rows| - 1];
      assert rows == init + [last];
      GroupsNext(init, last);
      hide Keys, KeyOf, SeenBefore;
      if j < |Keys(init)| { KeysInOrder(init, i, j); } else { SeenFirst(init, Keys(init)[i], KeyOf(last)); }
      SeenStill(init, last, Keys(rows)[i], Keys(rows)[j]);
    }
  }

  lemma {:induction false} KeyOccurs(rows: seq<Row>, key: Key)
    requires key in Keys(rows)
    ensures exists m :: 0 <= m < |rows| && KeyOf(rows[m]) == key
  {
    var n := |rows| - 1;
    if key in Keys(rows[..n]) {
      KeyOccurs(rows[..n], key);
      var m :| 0 <= m < n && KeyOf(rows[..n][m]) == key;
      assert rows[m] == rows[..n][m];
    } else {
      assert KeyOf(rows[n]) == key;
    }
  }

  predicate Stored(r: Row, key: Key) {
    && r.workspace == key.workspace && key.stream == (if r.service == "" then "default" else r.service)
    && (r.timestamp >= 0 ==> key.hour * NANOS_PER_HOUR <= r.timestamp < (key.hour + 1) * NANOS_PER_HOUR)
  }

  lemma {:induction false} StoredUnder(r: Row, key: Key)
    requires KeyOf(r) == key
    ensures Stored(r, key)
  {
    HourExact(r.timestamp, key.hour);
  }

  lemma {:induction false} SameBucket(rows: seq<Row>, i: nat)
    requires rows != [] && IsHomogeneous(rows) && i < |rows|
    ensures Stored(rows[i], KeyOf(rows[0]))
  {
    HoursAgreeExactly(rows[i].timestamp);
    HoursAgreeExactly(rows[0].timestamp);
    HourExact(rows[i].timestamp, HourOf(rows[0].timestamp));
  }

  lemma {:induction false} GroupsStored(rows: seq<Row>)
    ensures StoredByKey(rows, Groups(rows))
  {
    var groups := Groups(rows);
    KeysDistinct(rows);
    GroupsPermute(rows);
    hide Keys, Only, Stored, Within, SeenBefore, KeyOf;
    forall i, r | 0 <= i < |groups| && r in groups[i].rows ensures Stored(r, groups[i].key) {
      OnlyHasKey(rows, groups[i].key);
      StoredUnder(r, groups[i].key);
    }
    forall i | 0 <= i < |groups| ensures Within(groups[i].rows, rows) { OnlyWithin(rows, groups[i].key); }
    forall i, j | 0 <= i < j < |groups| ensures SeenBefore(rows, groups[i].key, groups[j].key) {
      KeysInOrder(rows, i, j);
    }
  }

  lemma {:induction false} AloneStored(rows: seq<Row>, key: Key)
    requires forall i :: 0 <= i < |rows| ==> Stored(rows[i], key)
    ensures StoredByKey(rows, [Group(key, rows)])
  {
    hide Stored, Within, SeenBefore;
    assert [Group(key, rows)][..0] == [] && Flatten([Group(key, rows)]) == rows;
    AllWithin(rows);
  }

  lemma {:induction false} PartitionMeans(rows: seq<Row>)
    requires rows != []
    ensures StoredByKey(rows, AsGroups(PartitionOf(rows)))
  {
    if IsHomogeneous(rows) {
      hide StoredByKey, Stored, KeyOf;
      forall i | 0 <= i < |rows| ensures Stored(rows[i], KeyOf(rows[0])) { SameBucket(rows, i); }
      AloneStored(rows, KeyOf(rows[0]));
    } else {
      GroupsStored(rows);
      hide StoredByKey, Groups;
    }
  }

  method PartitionByStorageKey(rows: seq<Row>) returns (p: Partitioned)
    requires rows != []
    ensures p == PartitionOf(rows)
  {
    if IsHomogeneous(rows) { return Homogeneous(KeyOf(rows[0]), rows); }
    hide Keys, Only, Groups, KeyOf;
    NothingGrouped();
    assert rows[..0] == [];
    var index: map<Key, nat>, groups: seq<Group> := map[], [];
    for i := 0 to |rows|
      invariant groups == Groups(rows[..i]) && Indexed(Keys(rows[..i]), index)
    {
      assert rows[..i + 1] == rows[..i] + [rows[i]];
      index, groups := Place(rows[..i], rows[i], index, groups);
    }
    assert rows[..|rows|] == rows;
    return Grouped(groups);
  }

  /** The same, moving the rows out of the batch one by one. */
  method PartitionOwned(batch: seq<Row>) returns (p: Partitioned)
    requires batch != []
    ensures p == PartitionOf(batch)
  {
    if IsHomogeneous(batch) { return Homogeneous(KeyOf(batch[0]), batch); }
    hide Keys, Only, Groups, KeyOf;
    NothingGrouped();
    var index: map<Key, nat>, groups: seq<Group> := map[], [];
    var rows := batch;
    ghost var taken: seq<Row> := [];
    while rows != []
      invariant taken + rows == batch
      invariant groups == Groups(taken) && Indexed(Keys(taken), index)
      decreases |rows|
    {
      assert taken + [rows[0]] + rows[1..] == taken + rows;
      index, groups := Place(taken, rows[0], index, groups);
      taken := taken + [rows[0]];
      rows := rows[1..];
    }
    assert taken == batch;
    return Grouped(groups);
  }

  // ---------------------------------------------------------------- the fast path

  lemma {:induction false} NoKeys(key: Key)
    ensures Keys([]) == [] && Only([], key) == []
  {}

  lemma {:induction false} OneKey(rows: seq<Row>, key: Key)
    requires rows != [] && forall i :: 0 <= i < |rows| ==> KeyOf(rows[i]) == key
    ensures Keys(rows) == [key] && Only(rows, key) == rows
  {
    hide Keys, Only;
    var init, last := rows[..|rows| - 1], rows[|rows| - 1];
    assert rows == init + [last] && KeyOf(last) == key;
    GroupsNext(init, last);
    if init == [] {
      NoKeys(key);
      assert [] + [key] == [key] && [] + [last] == [last];
    } else {
      OneKey(init, key);
    }
  }

  lemma {:induction false} OnlyHasKey(rows: seq<Row>, key: Key)
    ensures forall i :: 0 <= i < |Only(rows, key)| ==> KeyOf(Only(rows, key)[i]) == key
  {
    if rows != [] { OnlyHasKey(rows[..|rows| - 1], key); }
  }

  /**
    The partition is the stable grouping by key exactly when it did not take the fast path on rows of
    different hours.
  */
  lemma {:induction false} FastPathExact(rows: seq<Row>)
    requires rows != []
    ensures AsGroups(PartitionOf(rows)) == Groups(rows) <==>
              (IsHomogeneous(rows) ==> forall i :: 0 <= i < |rows| ==>
                HourOf(rows[i].timestamp) == HourOf(rows[0].timestamp))
  {
    if IsHomogeneous(rows) {
      var key := KeyOf(rows[0]);
      if forall i :: 0 <= i < |rows| ==> HourOf(rows[i].timestamp) == HourOf(rows[0].timestamp) {
        OneKey(rows, key);
      } else {
        OnlyHasKey(rows, key);
        var i :| 0 <= i < |rows| && HourOf(rows[i].timestamp) != HourOf(rows[0].timestamp);
        assert KeyOf(rows[i]) != key;
        assert Only(rows, key) != rows;
        assert AsGroups(PartitionOf(rows))[0] == Group(key, rows);
      }
    }
  }

  /** For timestamps from 1970 on the partition is always the stable grouping by key. */
  lemma {:induction false} PartitionIsStableGrouping(rows: seq<Row>)
    requires rows != [] && forall i :: 0 <= i < |rows| ==> rows[i].timestamp >= 0
    ensures AsGroups(PartitionOf(rows)) == Groups(rows)
  {
    FastPathExact(rows);
    forall i | 0 <= i < |rows| && HourBucket(rows[i].timestamp) == HourBucket(rows[0].timestamp)
      ensures HourOf(rows[i].timestamp) == HourOf(rows[0].timestamp)
    {
      HoursAgreeExactly(rows[i].timestamp);
      HoursAgreeExactly(rows[0].timestamp);
    }
  }

  /** Before 1970 two rows of one bucket can belong under different hours. */
  lemma {:induction false} FastPathMisplaces()
    ensures var rows := [Row("w", "s", -NANOS_PER_HOUR, 0), Row("w", "s", -1, 1)];
            IsHomogeneous(rows) && AsGroups(PartitionOf(rows)) != Groups(rows)
  {
    var rows := [Row("w", "s", -NANOS_PER_HOUR, 0), Row("w", "s", -1, 1)];
    assert HourOf(rows[1].timestamp) == 0 && HourOf(rows[0].timestamp) == -1;
    FastPathExact(rows);
  }
}
