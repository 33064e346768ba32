/**
  The batch envelope inside a record's payload: magic (4) | encoding tag (1) | row count (4), then each
  row behind its length (4).  A payload without the magic is one legacy row.
*/
module Envelope {
  import opened Bytes

  const BATCH_MAGIC: seq<Byte> := [90, 87, 66, 49]
  const JSON_ROWS_V1: Byte := 1

  type Row = seq<Byte>

  datatype Decoded =
    | Legacy
    | Batch(rows: seq<Row>)
    | TooShort(length: nat)
    | UnknownEncoding(tag: Byte)
    | RowTruncated(index: nat, needed: nat, remaining: nat)
    | CountMismatch(declared: nat, decoded: nat)

  // ---------------------------------------------------------------- layout

  function Framed(row: Row): (s: seq<Byte>)
    ensures |s| == 4 + |row|
  {
    PutU32(AsU32(|row|)) + row
  }

  function AllFramed(rows: seq<Row>): seq<Byte> {
    if rows == [] then [] else AllFramed(rows[..|rows| - 1]) + Framed(rows[|rows| - 1])
  }

  function Prefix(count: nat): (s: seq<Byte>)
    ensures |s| == 9
  {
    BATCH_MAGIC + [JSON_ROWS_V1] + PutU32(AsU32(count))
  }

  function Envelope(rows: seq<Row>): seq<Byte> {
    Prefix(|rows|) + AllFramed(rows)
  }

  lemma {:induction false} FramedAt(rows: seq<Row>, i: nat)
    requires i < |rows|
    ensures var at := |AllFramed(rows[..i])|;
            at + 4 + |rows[i]| <= |AllFramed(rows)| && AllFramed(rows)[at..at + 4 + |rows[i]|] == Framed(rows[i])
  {
    var init := rows[..|rows| - 1];
    if i < |init| {
      FramedAt(init, i);
      assert init[..i] == rows[..i];
    }
  }

  /** Where the count, each length and each row are, numbers with their highest byte first. */
  lemma {:induction false} Layout(rows: seq<Row>, i: nat)
    requires i < |rows|
    ensures var s, at := Envelope(rows), 9 + |AllFramed(rows[..i])|;
            && s[..4] == [90, 87, 66, 49] && s[4] == 1 && BigEndian(s[5..9]) == |rows| % U32_LIMIT
            && at + 4 + |rows[i]| <= |s| && BigEndian(s[at..at + 4]) == |rows[i]| % U32_LIMIT
            && s[at + 4..at + 4 + |rows[i]|] == rows[i]
  {
    hide AllFramed, PutU32, BigEndian;
    var s, at := Envelope(rows), 9 + |AllFramed(rows[..i])|;
    FramedAt(rows, i);
    PutU32Digits(AsU32(|rows|));
    PutU32Digits(AsU32(|rows[i]|));
    assert s[5..9] == PutU32(AsU32(|rows|));
    assert s[at..at + 4 + |rows[i]|] == Framed(rows[i]);
    assert s[at..at + 4] == Framed(rows[i])[..4] && s[at + 4..at + 4 + |rows[i]|] == Framed(rows[i])[4..];
  }

  /** The count and every row length fit their fields. */
  predicate Fits(rows: seq<Row>) {
    |rows| < U32_LIMIT && forall row :: row in rows ==> |row| < U32_LIMIT
  }

  method EncodeJsonRows(rows: seq<Row>) returns (buf: seq<Byte>)
    ensures buf == Envelope(rows)
  {
    buf := BATCH_MAGIC;
    buf := buf + [JSON_ROWS_V1];
    buf := buf + PutU32(AsU32(|rows|));
    for i := 0 to |rows|
      invariant buf == Prefix(|rows|) + AllFramed(rows[..i])
    {
      assert rows[..i + 1][..i] == rows[..i];
      ghost var before := buf;
      buf := buf + PutU32(AsU32(|rows[i]|));
      buf := buf + rows[i];
      assert buf == before + Framed(rows[i]);
    }
    assert rows[..|rows|] == rows;
  }

  // ---------------------------------------------------------------- decoding

  /** Rows `i` to `count` from the front of `data`. */
  function TakeRows(data: seq<Byte>, i: nat, count: nat): Decoded
    requires i <= count
    decreases count - i
  {
    if i == count then Batch([])
    else if |data| < 4 then CountMismatch(count, i)
    else
      var n := GetU32(data[..4]);
      if |data| - 4 < n then RowTruncated(i, n, |data| - 4)
      else Prepend(data[4..4 + n], TakeRows(data[4 + n..], i + 1, count))
  }

  function Prepend(row: Row, d: Decoded): Decoded {
    if d.Batch? then Batch([row] + d.rows) else d
  }

  function DecodeOf(payload: seq<Byte>): Decoded {
    if !(BATCH_MAGIC <= payload) then Legacy
    else if |payload| < 9 then TooShort(|payload|)
    else if payload[4] != JSON_ROWS_V1 then UnknownEncoding(payload[4])
    else TakeRows(payload[9..], 0, GetU32(payload[5..9]))
  }

  /** The rows taken so far, followed by what the rest gives. */
  function After(taken: seq<Row>, d: Decoded): Decoded {
    if d.Batch? then Batch(taken + d.rows) else d
  }

  lemma {:induction false} TakeNext(data: seq<Byte>, i: nat, count: nat, taken: seq<Row>)
    requires i < count && |data| >= 4 && GetU32(data[..4]) <= |data| - 4
    ensures var n := GetU32(data[..4]);
            After(taken, TakeRows(data, i, count)) ==
              After(taken + [data[4..4 + n]], TakeRows(data[4 + n..], i + 1, count))
  {}

  /** The cursor moves over one row at a time; the count decides when to stop. */
  method Decode(payload: seq<Byte>) returns (d: Decoded)
    ensures d == DecodeOf(payload)
  {
    if |payload| < |BATCH_MAGIC| || payload[..|BATCH_MAGIC|] != BATCH_MAGIC { return Legacy; }
    if |payload| < |BATCH_MAGIC| + 1 + 4 { return TooShort(|payload|); }
    var cursor := payload[|BATCH_MAGIC|..];
    if cursor[0] != JSON_ROWS_V1 { return UnknownEncoding(cursor[0]); }
    cursor := cursor[1..];
    assert cursor[..4] == payload[5..9];
    var count: nat := GetU32(cursor[..4]);
    cursor := cursor[4..];
    assert cursor == payload[9..];
    var rows: seq<Row> := [];
    ghost var all := TakeRows(cursor, 0, count);
    for i := 0 to count
      invariant all == After(rows, TakeRows(cursor, i, count))
    {
      if |cursor| < 4 { return CountMismatch(count, i); }
      TakeNextOrFail(cursor, i, count, rows);
      var rowLen: nat := GetU32(cursor[..4]);
      ghost var before := cursor;
      cursor := cursor[4..];
      if |cursor| < rowLen { return RowTruncated(i, rowLen, |cursor|); }
      var row := cursor[..rowLen];
      cursor := cursor[rowLen..];
      assert row == before[4..4 + rowLen] && cursor == before[4 + rowLen..];
      rows := rows + [row];
    }
    assert rows + [] == rows;
    return Batch(rows);
  }

  lemma {:induction false} TakeNextOrFail(data: seq<Byte>, i: nat, count: nat, taken: seq<Row>)
    requires i < count && |data| >= 4
    ensures var n := GetU32(data[..4]);
            if |data| - 4 < n then After(taken, TakeRows(data, i, count)) == RowTruncated(i, n, |data| - 4)
            else
              After(taken, TakeRows(data, i, count)) ==
              After(taken + [data[4..4 + n]], TakeRows(data[4 + n..], i + 1, count))
  {
    if GetU32(data[..4]) <= |data| - 4 { TakeNext(data, i, count, taken); }
  }

  // ---------------------------------------------------------------- round trip

  lemma {:induction false} FramedFront(rows: seq<Row>)
    requires rows != []
    ensures AllFramed(rows) == Framed(rows[0]) + AllFramed(rows[1..])
  {
    var n := |rows| - 1;
    if n == 0 {
      assert rows[..0] == [] && rows[1..] == [];
    } else {
      FramedFront(rows[..n]);
      assert rows[..n][1..] == rows[1..][..n - 1];
      assert rows[1..][n - 1] == rows[n];
      assert Framed(rows[0]) + AllFramed(rows[1..n]) + Framed(rows[n]) ==
               Framed(rows[0]) + (AllFramed(rows[1..n]) + Framed(rows[n]));
    }
  }

  lemma {:induction false} NothingFramed()
    ensures AllFramed([]) == []
  {}

  lemma {:induction false} TakeNone(data: seq<Byte>, count: nat)
    ensures TakeRows(data, count, count) == Batch([])
  {}

  lemma {:induction false} TakeOne(row: Row, back: seq<Byte>, i: nat, count: nat)
    requires i < count && |row| < U32_LIMIT
    ensures TakeRows(Framed(row) + back, i, count) == Prepend(row, TakeRows(back, i + 1, count))
  {
    hide PutU32, GetU32;
    var data := Framed(row) + back;
    assert data[..4] == PutU32(|row|) && data[4..4 + |row|] == row && data[4 + |row|..] == back;
    GetPutU32(|row|);
  }

  lemma {:induction false} TakeFramed(rows: seq<Row>, rest: seq<Byte>, i: nat, count: nat)
    requires forall row :: row in rows ==> |row| < U32_LIMIT
    requires i + |rows| == count
    ensures TakeRows(AllFramed(rows) + rest, i, count) == Batch(rows)
    decreases |rows|
  {
    hide PutU32, GetU32, AllFramed, TakeRows;
    if rows == [] {
      TakeNone(AllFramed(rows) + rest, count);
      assert i == count;
    } else {
      FramedFront(rows);
      assert AllFramed(rows) + rest == Framed(rows[0]) + (AllFramed(rows[1..]) + rest);
      TakeOne(rows[0], AllFramed(rows[1..]) + rest, i, count);
      TakeFramed(rows[1..], rest, i + 1, count);
      assert rows == [rows[0]] + rows[1..];
    }
  }

  lemma {:induction false} FramedMore(row: Row, rows: seq<Row>, back: seq<Byte>)
    requires AllFramed(rows) <= back
    ensures AllFramed([row] + rows) <= Framed(row) + back
  {
    FramedFront([row] + rows);
    assert ([row] + rows)[1..] == rows;
  }

  lemma {:induction false} TakeSound(data: seq<Byte>, i: nat, count: nat)
    requires i <= count && TakeRows(data, i, count).Batch?
    ensures var rows := TakeRows(data, i, count).rows;
            && |rows| == count - i
            && (forall row :: row in rows ==> |row| < U32_LIMIT)
            && AllFramed(rows) <= data
    decreases count - i
  {
    hide PutU32, GetU32, AllFramed;
    if i == count {
      assert AllFramed([]) == [] by { NothingFramed(); }
    } else {
      var n := GetU32(data[..4]);
      var row, back := data[4..4 + n], data[4 + n..];
      assert TakeRows(data, i, count) == Prepend(row, TakeRows(back, i + 1, count));
      TakeSound(back, i + 1, count);
      PutGetU32(data[..4]);
      assert data == Framed(row) + back;
      FramedMore(row, TakeRows(back, i + 1, count).rows, back);
    }
  }

  /** What decoding ended with, where it stopped: at the last row, or at a rest too short for a length or a row. */
  predicate Ended(d: Decoded, rows: seq<Row>, rest: seq<Byte>, i: nat, count: nat) {
    match d
    case Batch(found) => found == rows && i + |rows| == count
    case RowTruncated(index, needed, remaining) =>
      index == i + |rows| < count && |rest| >= 4 && needed == GetU32(rest[..4]) > remaining == |rest| - 4
    case CountMismatch(declared, decoded) => declared == count && decoded == i + |rows| < count && |rest| < 4
    case _ => false
  }

  lemma {:induction false} EndedMore(d: Decoded, rows: seq<Row>, rest: seq<Byte>, i: nat, count: nat, row: Row)
    requires Ended(d, rows, rest, i + 1, count)
    ensures Ended(Prepend(row, d), [row] + rows, rest, i, count)
  {}

  predicate OneMore(data: seq<Byte>, i: nat, count: nat) {
    i < count && |data| >= 4 && GetU32(data[..4]) <= |data| - 4
  }

  lemma {:induction false} EndedHere(data: seq<Byte>, i: nat, count: nat)
    requires i <= count && !OneMore(data, i, count)
    ensures data == AllFramed([]) + data && Ended(TakeRows(data, i, count), [], data, i, count)
  {}

  lemma {:induction false} TakeStep(data: seq<Byte>, i: nat, count: nat) returns (row: Row, back: seq<Byte>)
    requires OneMore(data, i, count)
    ensures data == Framed(row) + back && |back| < |data|
    ensures TakeRows(data, i, count) == Prepend(row, TakeRows(back, i + 1, count))
  {
    hide PutU32;
    var n := GetU32(data[..4]);
    row, back := data[4..4 + n], data[4 + n..];
    PutGetU32(data[..4]);
    hide GetU32;
  }

  lemma {:induction false} TakeEnds(data: seq<Byte>, i: nat, count: nat) returns (rows: seq<Row>, rest: seq<Byte>)
    requires i <= count
    ensures data == AllFramed(rows) + rest && Ended(TakeRows(data, i, count), rows, rest, i, count)
    decreases count - i
  {
    if OneMore(data, i, count) {
      hide TakeRows, Ended, Prepend, AllFramed, Framed, GetU32;
      var row, back := TakeStep(data, i, count);
      var more;
      more, rest := TakeEnds(back, i + 1, count);
      EndedMore(TakeRows(back, i + 1, count), more, rest, i, count, row);
      rows := [row] + more;
      FramedFront(rows);
      assert rows[1..] == more;
    } else {
      hide GetU32;
      EndedHere(data, i, count);
      rows, rest := [], data;
    }
  }

  /** Each failure, by the bytes of the payload. */
  lemma {:induction false} FailsExactly(payload: seq<Byte>) returns (rows: seq<Row>, rest: seq<Byte>)
    ensures var d := DecodeOf(payload);
            if !([90, 87, 66, 49] <= payload) then d == Legacy
            else if |payload| < 9 then d == TooShort(|payload|)
            else if payload[4] != 1 then d == UnknownEncoding(payload[4])
            else
              var count := BigEndian(payload[5..9]);
              && payload[9..] == AllFramed(rows) + rest && |rows| <= count
              && d == (if |rows| == count then Batch(rows)
                       else if |rest| < 4 then CountMismatch(count, |rows|)
                       else RowTruncated(|rows|, BigEndian(rest[..4]), |rest| - 4))
              && (|rows| < count && |rest| >= 4 ==> BigEndian(rest[..4]) > |rest| - 4)
  {
    rows, rest := [], [];
    if BATCH_MAGIC <= payload && |payload| >= 9 && payload[4] == JSON_ROWS_V1 {
      FourDigits(payload[5..9]);
      rows, rest := TakeEnds(payload[9..], 0, GetU32(payload[5..9]));
      if |rest| >= 4 { FourDigits(rest[..4]); }
    }
    hide BigEndian, GetU32, AllFramed, TakeRows;
  }

  lemma {:induction false} PrefixParts(count: nat, rest: seq<Byte>)
    ensures var p := Prefix(count) + rest;
            BATCH_MAGIC <= p && p[4] == JSON_ROWS_V1 && p[5..9] == PutU32(AsU32(count)) && p[9..] == rest
  {}

  /** Whatever decodes to a batch begins with the encoding of its rows, and their lengths fit. */
  lemma {:induction false} Sound(payload: seq<Byte>)
    requires DecodeOf(payload).Batch?
    ensures var rows := DecodeOf(payload).rows; Fits(rows) && Envelope(rows) <= payload
  {
    hide PutU32, GetU32, TakeRows, AllFramed;
    var rows := DecodeOf(payload).rows;
    TakeSound(payload[9..], 0, GetU32(payload[5..9]));
    PutGetU32(payload[5..9]);
    assert payload[..9] == Prefix(|rows|);
    assert payload == payload[..9] + payload[9..];
  }

  /** Encoding then decoding gives the rows back, whatever follows, exactly when the lengths fit their fields. */
  lemma {:induction false} RoundTrip(rows: seq<Row>, rest: seq<Byte>)
    ensures DecodeOf(Envelope(rows) + rest) == Batch(rows) <==> Fits(rows)
  {
    hide PutU32, GetU32, TakeRows, AllFramed;
    if Fits(rows) {
      var p := Envelope(rows) + rest;
      assert p == Prefix(|rows|) + (AllFramed(rows) + rest);
      PrefixParts(|rows|, AllFramed(rows) + rest);
      GetPutU32(|rows|);
      TakeFramed(rows, rest, 0, |rows|);
    } else if DecodeOf(Envelope(rows) + rest) == Batch(rows) {
      Sound(Envelope(rows) + rest);
    }
  }

  /** An envelope cut short is never taken for a batch; the legacy reading needs a cut inside the magic. */
  lemma {:induction false} CutShort(rows: seq<Row>, k: nat)
    requires Fits(rows) && k < |Envelope(rows)|
    ensures !DecodeOf(Envelope(rows)[..k]).Batch?
    ensures DecodeOf(Envelope(rows)[..k]).Legacy? <==> k < 4
  {
    hide PutU32, GetU32, TakeRows, AllFramed, DecodeOf, Prefix;
    var whole := Envelope(rows);
    var cut := whole[..k];
    PrefixParts(|rows|, AllFramed(rows));
    LegacyExactly(cut);
    RoundTrip(rows, []);
    assert whole + [] == whole;
    if DecodeOf(cut).Batch? {
      var found := DecodeOf(cut).rows;
      Sound(cut);
      assert whole == Envelope(found) + whole[|Envelope(found)|..];
      RoundTrip(found, whole[|Envelope(found)|..]);
    }
  }

  lemma {:induction false} TakeNeverLegacy(data: seq<Byte>, i: nat, count: nat)
    requires i <= count
    ensures !TakeRows(data, i, count).Legacy?
    decreases count - i
  {
    if i < count && |data| >= 4 && GetU32(data[..4]) <= |data| - 4 {
      TakeNeverLegacy(data[4 + GetU32(data[..4])..], i + 1, count);
    }
  }

  /** A payload is read as one legacy row exactly when it does not begin with the magic. */
  lemma {:induction false} LegacyExactly(payload: seq<Byte>)
    ensures DecodeOf(payload).Legacy? <==> !(BATCH_MAGIC <= payload)
  {
    if |payload| >= 9 { TakeNeverLegacy(payload[9..], 0, GetU32(payload[5..9])); }
  }
}
