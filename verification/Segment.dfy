/**
  A segment file: magic (4) | version (1) | segment id (8) | records.  Reading stops at the first
  record that cannot be read; recovery truncates the file there.
*/
module Segment {
  import opened Prelude
  import opened Bytes
  import opened Record
  import WalModel
  import WalSpec

  const MAGIC: seq<Byte> := [90, 87, 65, 76]
  const VERSION: Byte := 1
  const HEADER_SIZE: nat := 13

  datatype HeaderError = TooSmall | InvalidMagic | UnsupportedVersion(version: Byte)

  // ---------------------------------------------------------------- layout

  function Header(id: U64): (s: seq<Byte>)
    ensures |s| == HEADER_SIZE
  {
    MAGIC + [VERSION] + PutU64(id)
  }

  function Encodings(crc: Crc, rs: seq<WalRecord>): seq<Byte> {
    if rs == [] then [] else Encode(crc, rs[0]) + Encodings(crc, rs[1..])
  }

  function Image(crc: Crc, id: U64, rs: seq<WalRecord>): seq<Byte> {
    Header(id) + Encodings(crc, rs)
  }

  predicate AllFit(rs: seq<WalRecord>) {
    forall r :: r in rs ==> Fits(r)
  }

  // ---------------------------------------------------------------- reading

  function OpenHeader(data: seq<Byte>): (h: Result<U64, HeaderError>)
    ensures h.Success? ==> |data| >= HEADER_SIZE
  {
    if |data| < HEADER_SIZE then Failure(TooSmall)
    else if data[..4] != MAGIC then Failure(InvalidMagic)
    else if data[4] != VERSION then Failure(UnsupportedVersion(data[4]))
    else Success(GetU64(data[5..13]))
  }

  datatype Stop = Clean | Failed(outcome: Outcome)

  datatype Scan = Scan(records: seq<WalRecord>, consumed: nat, stop: Stop)

  /** All records up to the end or to the first that cannot be read. */
  function ReadAll(crc: Crc, data: seq<Byte>): (s: Scan)
    ensures s.consumed <= |data|
    decreases |data|
  {
    if data == [] then Scan([], 0, Clean) else
      match Parse(crc, data)
      case Done(r, n) =>
        var s := ReadAll(crc, data[n..]);
        Scan([r] + s.records, n + s.consumed, s.stop)
      case o => Scan([], 0, Failed(o))
  }

  lemma {:induction false} EncodingsConcat(crc: Crc, rs: seq<WalRecord>, more: seq<WalRecord>)
    ensures Encodings(crc, rs + more) == Encodings(crc, rs) + Encodings(crc, more)
  {
    if rs == [] {
      assert rs + more == more;
    } else {
      assert (rs + more)[1..] == rs[1..] + more;
      EncodingsConcat(crc, rs[1..], more);
    }
  }

  lemma {:induction false} ReadOne(crc: Crc, r: WalRecord, rest: seq<Byte>)
    requires Fits(r)
    ensures var s := ReadAll(crc, rest);
            ReadAll(crc, Encode(crc, r) + rest) == Scan([r] + s.records, |Encode(crc, r)| + s.consumed, s.stop)
  {
    hide Encode, Parse;
    RoundTrip(crc, r, rest);
    assert (Encode(crc, r) + rest)[|Encode(crc, r)|..] == rest;
  }

  /** Printed records are read back, and reading goes on with whatever follows them. */
  lemma {:induction false} ReadEncodings(crc: Crc, rs: seq<WalRecord>, rest: seq<Byte>)
    requires AllFit(rs)
    ensures var s := ReadAll(crc, rest);
            ReadAll(crc, Encodings(crc, rs) + rest) == Scan(rs + s.records, |Encodings(crc, rs)| + s.consumed, s.stop)
  {
    hide Encode, Parse, ReadAll;
    if rs == [] {
      assert Encodings(crc, rs) + rest == rest && rs + ReadAll(crc, rest).records == ReadAll(crc, rest).records;
    } else {
      var front, back := Encode(crc, rs[0]), Encodings(crc, rs[1..]) + rest;
      var s := ReadAll(crc, rest);
      assert Encodings(crc, rs) + rest == front + back;
      ReadOne(crc, rs[0], back);
      ReadEncodings(crc, rs[1..], rest);
      assert [rs[0]] + (rs[1..] + s.records) == rs + s.records;
    }
  }

  /** On any bytes: what was consumed is the print of the records read, and reading ends clean exactly at the end. */
  lemma {:induction false} ReadSound(crc: Crc, data: seq<Byte>)
    ensures var s := ReadAll(crc, data);
            && AllFit(s.records)
            && data[..s.consumed] == Encodings(crc, s.records)
            && (s.stop == Clean <==> s.consumed == |data|)
    decreases |data|
  {
    hide Encode, Parse;
    if data != [] && Parse(crc, data).Done? {
      var r, n := Parse(crc, data).record, Parse(crc, data).consumed;
      Sound(crc, data);
      var s := ReadAll(crc, data[n..]);
      assert ReadAll(crc, data) == Scan([r] + s.records, n + s.consumed, s.stop);
      ReadSound(crc, data[n..]);
      hide ReadAll;
      assert data[..n + s.consumed] == data[..n] + data[n..][..s.consumed];
      assert ([r] + s.records)[1..] == s.records;
    }
  }

  // ---------------------------------------------------------------- the torn tail

  predicate Torn(o: Outcome) {
    o.TornIncomplete? || o.TornTruncated? || o.CrcMismatch?
  }

  /**
    Whole records followed by a strict prefix of one more: exactly the whole records are read, and the
    reader stops at the end of the last of them, clean only if nothing follows.
  */
  lemma {:induction false} TornTail(crc: Crc, rs: seq<WalRecord>, r: WalRecord, k: nat)
    requires AllFit(rs) && Fits(r) && k < |Encode(crc, r)|
    ensures var s := ReadAll(crc, Encodings(crc, rs) + Encode(crc, r)[..k]);
            && s.records == rs && s.consumed == |Encodings(crc, rs)|
            && (if k == 0 then s.stop == Clean else s.stop.Failed? && Torn(s.stop.outcome))
  {
    ReadEncodings(crc, rs, Encode(crc, r)[..k]);
    if k > 0 { CutShort(crc, r, k); }
    assert rs + [] == rs;
  }

  /** Any file, cut where reading stopped and then appended to, reads cleanly as the old records and the new. */
  lemma {:induction false} TruncateThenAppend(crc: Crc, data: seq<Byte>, more: seq<WalRecord>)
    requires AllFit(more)
    ensures var s := ReadAll(crc, data);
            ReadAll(crc, data[..s.consumed] + Encodings(crc, more)) ==
              Scan(s.records + more, s.consumed + |Encodings(crc, more)|, Clean)
  {
    var s := ReadAll(crc, data);
    ReadSound(crc, data);
    EncodingsConcat(crc, s.records, more);
    ReadEncodings(crc, s.records + more, []);
    assert Encodings(crc, s.records + more) + [] == data[..s.consumed] + Encodings(crc, more);
    assert s.records + more + [] == s.records + more;
  }

  lemma {:induction false} ReadTruncated(crc: Crc, data: seq<Byte>)
    ensures var s := ReadAll(crc, data);
            ReadAll(crc, data[..s.consumed]) == Scan(s.records, s.consumed, Clean)
  {
    var s := ReadAll(crc, data);
    TruncateThenAppend(crc, data, []);
    assert data[..s.consumed] + Encodings(crc, []) == data[..s.consumed] && s.records + [] == s.records;
  }

  // ---------------------------------------------------------------- header

  /** The four letters of the magic, the version, and the id with its highest byte first. */
  lemma {:induction false} HeaderLayout(id: U64)
    ensures Header(id)[..4] == [90, 87, 65, 76] && Header(id)[4] == 1 && BigEndian(Header(id)[5..]) == id
  {
    hide PutU64, BigEndian;
    assert Header(id)[5..] == PutU64(id);
    PutU64Digits(id);
  }

  lemma {:induction false} HeaderRoundTrip(id: U64, rest: seq<Byte>)
    ensures OpenHeader(Header(id) + rest) == Success(id)
    ensures (Header(id) + rest)[HEADER_SIZE..] == rest
  {
    var data := Header(id) + rest;
    assert data[..4] == MAGIC && data[5..13] == PutU64(id);
    GetPutU64(id);
  }

  lemma {:induction false} HeaderSound(data: seq<Byte>)
    requires OpenHeader(data).Success?
    ensures data[..HEADER_SIZE] == Header(OpenHeader(data).value)
  {
    PutGetU64(data[5..13]);
    assert data[..13] == data[..4] + [data[4]] + data[5..13];
  }

  // ---------------------------------------------------------------- the file and its reader

  class SegmentFile {
    var data: seq<Byte>

    /** A new file holds its header. */
    constructor (id: U64)
      ensures data == Header(id)
    {
      data := MAGIC + [VERSION] + PutU64(id);
    }

    /** Write a serialized record at the end; the result is where it starts. */
    method Append(record: seq<Byte>) returns (at: nat)
      modifies this
      ensures at == |old(data)| && data == old(data) + record
    {
      at := |data|;
      data := data + record;
    }

    method SetLen(length: nat)
      requires length <= |data|
      modifies this
      ensures data == old(data)[..length]
    {
      data := data[..length];
    }
  }

  datatype Step = End | Next(record: WalRecord) | Error(outcome: Outcome)

  /** A reader over the bytes a file held when it was opened. */
  class SegmentReader {
    const data: seq<Byte>
    const segmentId: U64
    var pos: nat

    ghost predicate Valid()
      reads this
    {
      OpenHeader(data) == Success(segmentId) && HEADER_SIZE <= pos <= |data|
    }

    constructor (data: seq<Byte>)
      requires OpenHeader(data).Success?
      ensures Valid() && this.data == data && pos == HEADER_SIZE
    {
      this.data := data;
      segmentId := GetU64(data[5..13]);
      pos := HEADER_SIZE;
    }

    /** One step of the scan; the position moves over whole records only. */
    method NextRecord(crc: Crc) returns (step: Step)
      requires Valid()
      modifies this
      ensures Valid() && old(pos) <= pos <= |data|
      ensures var rest := ReadAll(crc, data[pos..]);
              ReadAll(crc, old(data[pos..])) ==
                match step
                case End => Scan([], 0, Clean)
                case Next(r) => Scan([r] + rest.records, pos - old(pos) + rest.consumed, rest.stop)
                case Error(o) => Scan([], 0, Failed(o))
      ensures if step.Next? then old(pos) < pos else pos == old(pos)
    {
      hide Parse;
      if pos >= |data| { return End; }
      var remaining := data[pos..];
      var o := Deserialize(crc, remaining);
      match o
      case Done(record, consumed) =>
        assert data[pos + consumed..] == remaining[consumed..];
        pos := pos + consumed;
        return Next(record);
      case _ => return Error(o);
    }
  }

  /** Validate the header before reading. */
  method OpenReader(data: seq<Byte>) returns (r: Result<SegmentReader, HeaderError>)
    ensures r.Success? <==> OpenHeader(data).Success?
    ensures r.Success? ==> fresh(r.value) && r.value.Valid() && r.value.data == data && r.value.pos == HEADER_SIZE
    ensures r.Failure? ==> OpenHeader(data) == Failure(r.error)
    ensures r == Failure(TooSmall) <==> |data| < 13
    ensures r == Failure(InvalidMagic) <==> |data| >= 13 && data[..4] != [90, 87, 65, 76]
    ensures r.Failure? && r.error.UnsupportedVersion? <==> |data| >= 13 && data[..4] == [90, 87, 65, 76] && data[4] != 1
    ensures r.Failure? && r.error.UnsupportedVersion? ==> r.error.version == data[4]
  {
    if |data| < HEADER_SIZE { return Failure(TooSmall); }
    if data[0..4] != MAGIC { return Failure(InvalidMagic); }
    if data[4] != VERSION { return Failure(UnsupportedVersion(data[4])); }
    var reader := new SegmentReader(data);
    return Success(reader);
  }

  // ---------------------------------------------------------------- recovery

  datatype Recovery = Recovered(maxOffset: nat) | BadHeader(error: HeaderError) | Unreadable(outcome: Outcome)

  function LargestOffset(rs: seq<WalRecord>): nat {
    if rs == [] then 0 else Max(rs[0].offset, LargestOffset(rs[1..]))
  }

  lemma {:induction false} LargestOffsetAppend(rs: seq<WalRecord>, r: WalRecord)
    ensures LargestOffset(rs + [r]) == Max(LargestOffset(rs), r.offset)
  {
    if rs == [] {
      assert rs + [r] == [r] && [r][1..] == [];
    } else {
      assert (rs + [r])[1..] == rs[1..] + [r];
      LargestOffsetAppend(rs[1..], r);
    }
  }

  function RecoveryOf(crc: Crc, data: seq<Byte>): Recovery {
    var h := OpenHeader(data);
    if h.Failure? then BadHeader(h.error) else
      var s := ReadAll(crc, data[HEADER_SIZE..]);
      if s.stop == Clean || Torn(s.stop.outcome) then Recovered(LargestOffset(s.records))
      else Unreadable(s.stop.outcome)
  }

  function RecoveredBytes(crc: Crc, data: seq<Byte>): seq<Byte> {
    if RecoveryOf(crc, data).Recovered? then
      data[..HEADER_SIZE + ReadAll(crc, data[HEADER_SIZE..]).consumed]
    else data
  }

  /** Recovery gives up exactly at a record with an unknown tag or a body too short for its fields. */
  lemma {:induction false} GivesUpExactly(crc: Crc, data: seq<Byte>)
    requires OpenHeader(data).Success?
    ensures var s := ReadAll(crc, data[13..]);
            RecoveryOf(crc, data).Unreadable? <==>
              s.stop.Failed? && (s.stop.outcome.InvalidSignal? || s.stop.outcome.Panics?)
    ensures RecoveryOf(crc, data).Unreadable? ==> RecoveredBytes(crc, data) == data
  {
    ReadStops(crc, data[13..]);
  }

  lemma {:induction false} ReadStops(crc: Crc, data: seq<Byte>)
    ensures var s := ReadAll(crc, data); s.stop.Failed? ==> !s.stop.outcome.Done?
    decreases |data|
  {
    hide Parse;
    if data != [] && Parse(crc, data).Done? { ReadStops(crc, data[Parse(crc, data).consumed..]); }
  }

  /** The scan of `data` has read these records and stands at `pos`. */
  ghost predicate ScanAt(crc: Crc, data: seq<Byte>, read: seq<WalRecord>, pos: nat) {
    && OpenHeader(data).Success? && HEADER_SIZE <= pos <= |data|
    && var s := ReadAll(crc, data[pos..]);
       ReadAll(crc, data[HEADER_SIZE..]) == Scan(read + s.records, pos - HEADER_SIZE + s.consumed, s.stop)
  }

  lemma {:induction false} ScanStart(crc: Crc, data: seq<Byte>)
    requires OpenHeader(data).Success?
    ensures ScanAt(crc, data, [], HEADER_SIZE) && LargestOffset([]) == 0
  {
    assert [] + ReadAll(crc, data[HEADER_SIZE..]).records == ReadAll(crc, data[HEADER_SIZE..]).records;
  }

  lemma {:induction false} ScanNext(crc: Crc, data: seq<Byte>, read: seq<WalRecord>, pos: nat, pos': nat, r: WalRecord)
    requires ScanAt(crc, data, read, pos) && pos <= pos' <= |data|
    requires var s := ReadAll(crc, data[pos'..]);
             ReadAll(crc, data[pos..]) == Scan([r] + s.records, pos' - pos + s.consumed, s.stop)
    ensures ScanAt(crc, data, read + [r], pos') && LargestOffset(read + [r]) == Max(LargestOffset(read), r.offset)
  {
    hide ReadAll, OpenHeader, LargestOffset;
    var more := ReadAll(crc, data[pos'..]).records;
    assert read + ([r] + more) == read + [r] + more;
    LargestOffsetAppend(read, r);
  }

  lemma {:induction false} ScanStop(crc: Crc, data: seq<Byte>, read: seq<WalRecord>, pos: nat, stop: Stop)
    requires ScanAt(crc, data, read, pos) && ReadAll(crc, data[pos..]) == Scan([], 0, stop)
    ensures RecoveryOf(crc, data) ==
              if stop == Clean || Torn(stop.outcome) then Recovered(LargestOffset(read)) else Unreadable(stop.outcome)
    ensures RecoveredBytes(crc, data) == if stop == Clean || Torn(stop.outcome) then data[..pos] else data
    ensures stop == Clean ==> data[..pos] == data
  {
    hide ReadAll, OpenHeader, LargestOffset, Encodings;
    assert read + [] == read;
    ReadSound(crc, data[HEADER_SIZE..]);
  }

  /** The scan at startup: find the largest offset, cut off a torn tail, give up on anything else. */
  method Recover(crc: Crc, file: SegmentFile) returns (outcome: Recovery)
    modifies file
    ensures outcome == RecoveryOf(crc, old(file.data))
    ensures file.data == RecoveredBytes(crc, old(file.data))
  {
    var header := OpenReader(file.data);
    if header.Failure? { return BadHeader(header.error); }
    hide *;
    var reader := header.value;
    var maxOffset: nat := 0;
    ghost var read: seq<WalRecord> := [];
    ScanStart(crc, reader.data);
    while true
      invariant reader.Valid() && reader.data == old(file.data) == file.data && fresh(reader)
      invariant maxOffset == LargestOffset(read) && ScanAt(crc, reader.data, read, reader.pos)
      decreases |reader.data| - reader.pos
    {
      ghost var pos := reader.pos;
      var step := reader.NextRecord(crc);
      match step
      case Next(record) =>
        ScanNext(crc, reader.data, read, pos, reader.pos, record);
        maxOffset := Max(maxOffset, record.offset);
        read := read + [record];
      case End =>
        ScanStop(crc, reader.data, read, pos, Clean);
        return Recovered(maxOffset);
      case Error(o) =>
        ScanStop(crc, reader.data, read, pos, Failed(o));
        TornTest(o);
        match o
        case TornIncomplete => file.SetLen(reader.pos); return Recovered(maxOffset);
        case TornTruncated(_, _) => file.SetLen(reader.pos); return Recovered(maxOffset);
        case CrcMismatch(_, _) => file.SetLen(reader.pos); return Recovered(maxOffset);
        case _ => return Unreadable(o);
    }
  }

  lemma {:induction false} TornTest(o: Outcome)
    ensures Torn(o) <==> o.TornIncomplete? || o.TornTruncated? || o.CrcMismatch?
  {}

  /** After a crash in the middle of an append, recovery restores the file to its whole records. */
  lemma {:induction false} CrashRecovery(crc: Crc, id: U64, rs: seq<WalRecord>, r: WalRecord, k: nat)
    requires AllFit(rs) && Fits(r) && k < |Encode(crc, r)|
    ensures var torn := Image(crc, id, rs) + Encode(crc, r)[..k];
            && RecoveryOf(crc, torn) == Recovered(LargestOffset(rs))
            && RecoveredBytes(crc, torn) == Image(crc, id, rs)
  {
    var rest := Encodings(crc, rs) + Encode(crc, r)[..k];
    assert Image(crc, id, rs) + Encode(crc, r)[..k] == Header(id) + rest;
    HeaderRoundTrip(id, rest);
    TornTail(crc, rs, r, k);
  }

  /** Whatever the file held, recovery leaves the image of the records it read, and recovering again changes nothing. */
  lemma {:induction false} RecoveryIsClean(crc: Crc, data: seq<Byte>)
    requires RecoveryOf(crc, data).Recovered?
    ensures var id, rs := OpenHeader(data).value, ReadAll(crc, data[HEADER_SIZE..]).records;
            && RecoveredBytes(crc, data) == Image(crc, id, rs) && AllFit(rs)
            && RecoveryOf(crc, Image(crc, id, rs)) == RecoveryOf(crc, data)
            && RecoveredBytes(crc, Image(crc, id, rs)) == Image(crc, id, rs)
  {
    hide Encode, Parse, ReadAll, OpenHeader, Encodings, Header;
    var id, body := OpenHeader(data).value, data[HEADER_SIZE..];
    var s := ReadAll(crc, body);
    HeaderSound(data);
    ReadSound(crc, body);
    assert data[..HEADER_SIZE + s.consumed] == data[..HEADER_SIZE] + body[..s.consumed];
    HeaderRoundTrip(id, Encodings(crc, s.records));
    ReadTruncated(crc, body);
  }

  // ---------------------------------------------------------------- the state machine's view of a file

  /** The entries of the state machine that stand for these records. */
  ghost predicate Represents(es: seq<WalModel.Entry>, rs: seq<WalRecord>) {
    |es| == |rs| && forall i :: 0 <= i < |rs| ==> es[i].offset == rs[i].offset && es[i].size == |rs[i].payload|
  }

  /** The sizes and offsets the state machine works with are those of the file. */
  lemma {:induction false} RepresentsFile(crc: Crc, id: U64, es: seq<WalModel.Entry>, rs: seq<WalRecord>)
    requires Represents(es, rs)
    ensures |Image(crc, id, rs)| == WalSpec.SegmentSize(es)
    ensures LargestOffset(rs) == WalModel.MaxOffset(es)
  {
    if rs != [] {
      var n := |rs| - 1;
      RepresentsFile(crc, id, es[..n], rs[..n]);
      assert rs == rs[..n] + [rs[n]];
      EncodingsConcat(crc, rs[..n], [rs[n]]);
      assert [rs[n]][1..] == [];
      LargestOffsetAppend(rs[..n], rs[n]);
    }
  }
}
