/**
  One record of a segment file:
  length (4) | CRC-32 (4) | signal (1) | workspace (16) | timestamp (8) | offset (8) | payload.
  The length counts everything after itself.  The CRC is a parameter: any function will do.
*/
module Record {
  import opened Prelude
  import opened Bytes

  type Crc = seq<Byte> -> U32

  datatype Signal = Trace | Metric | Log | Score

  datatype RecordFields = Record(signal: Signal, workspace: seq<Byte>, timestamp: I64, offset: U64, payload: seq<Byte>)

  type WalRecord = r: RecordFields | |r.workspace| == 16 witness Record(Trace, seq(16, _ => 0), 0, 0, [])

  /** Bytes after the length field of a record without payload. */
  const MIN_BODY: nat := 37

  function Tag(s: Signal): Byte {
    match s
    case Trace => 0
    case Metric => 1
    case Log => 2
    case Score => 3
  }

  function FromTag(b: Byte): Option<Signal> {
    if b == 0 then Some(Trace)
    else if b == 1 then Some(Metric)
    else if b == 2 then Some(Log)
    else if b == 3 then Some(Score)
    else None
  }

  // ---------------------------------------------------------------- layout

  /** What the CRC covers. */
  function Covered(r: WalRecord): seq<Byte> {
    [Tag(r.signal)] + r.workspace + PutI64(r.timestamp) + PutU64(r.offset) + r.payload
  }

  function Encode(crc: Crc, r: WalRecord): (s: seq<Byte>)
    ensures |s| == 4 + MIN_BODY + |r.payload|
  {
    PutU32(AsU32(MIN_BODY + |r.payload|)) + PutU32(crc(Covered(r))) + Covered(r)
  }

  /** The length field can hold the length. */
  predicate Fits(r: WalRecord) {
    MIN_BODY + |r.payload| < U32_LIMIT
  }

  /** Fill a buffer with a zero CRC, then overwrite the CRC in place. */
  method Serialize(crc: Crc, r: WalRecord) returns (buf: seq<Byte>)
    ensures buf == Encode(crc, r)
  {
    var bodyLen := 4 + 1 + 16 + 8 + 8 + |r.payload|;
    buf := PutU32(AsU32(bodyLen));
    var crcPos := |buf|;
    buf := buf + PutU32(0);
    buf := buf + [Tag(r.signal)];
    buf := buf + r.workspace;
    buf := buf + PutI64(r.timestamp);
    buf := buf + PutU64(r.offset);
    buf := buf + r.payload;
    assert buf[crcPos + 4..] == Covered(r);
    var c := crc(buf[crcPos + 4..]);
    buf := buf[..crcPos] + PutU32(c) + buf[crcPos + 4..];
  }

  // ---------------------------------------------------------------- reading

  /** `Panics` is a slice or cursor access out of bounds. */
  datatype Outcome =
    | Done(record: WalRecord, consumed: nat)
    | TornIncomplete
    | TornTruncated(need: nat, have: nat)
    | CrcMismatch(expected: U32, actual: U32)
    | InvalidSignal(value: Byte)
    | Panics

  function Parse(crc: Crc, data: seq<Byte>): (o: Outcome)
    ensures o.Done? ==> 4 + MIN_BODY <= o.consumed <= |data|
  {
    if |data| < 4 then TornIncomplete else
      var n := GetU32(data[..4]);
      if |data| < 4 + n then TornTruncated(4 + n, |data|)
      else if n < 4 then Panics
      else
        var covered := data[8..4 + n];
        if GetU32(data[4..8]) != crc(covered) then CrcMismatch(GetU32(data[4..8]), crc(covered))
        else if covered == [] then Panics
        else if FromTag(covered[0]).None? then InvalidSignal(covered[0])
        else if |covered| < 33 then Panics
        else Done(Fields(covered), 4 + n)
  }

  function Fields(covered: seq<Byte>): WalRecord
    requires |covered| >= 33 && FromTag(covered[0]).Some?
  {
    Record(FromTag(covered[0]).value, covered[1..17], GetI64(covered[17..25]), GetU64(covered[25..33]), covered[33..])
  }

  /** One record from the front of `data`, with a cursor that moves over the fields. */
  method Deserialize(crc: Crc, data: seq<Byte>) returns (o: Outcome)
    ensures o == Parse(crc, data)
  {
    if |data| < 4 { return TornIncomplete; }
    var bodyLen: nat := GetU32(data[..4]);
    if |data| < 4 + bodyLen { return TornTruncated(4 + bodyLen, |data|); }
    var body := data[4..4 + bodyLen];
    if bodyLen < 4 { return Panics; }
    assert body[..4] == data[4..8] && body[4..] == data[8..4 + bodyLen];
    var stored := GetU32(body[..4]);
    var cursor := body[4..];
    ghost var covered := cursor;
    var actual := crc(cursor);
    if stored != actual { return CrcMismatch(stored, actual); }
    if cursor == [] { return Panics; }
    var signal := FromTag(cursor[0]);
    if signal.None? { return InvalidSignal(cursor[0]); }
    cursor := cursor[1..];
    if |cursor| < 16 { return Panics; }
    var workspace := cursor[..16];
    assert |workspace| == 16;
    cursor := cursor[16..];
    if |cursor| < 8 { return Panics; }
    assert cursor == covered[17..] && cursor[..8] == covered[17..25];
    var timestamp := GetI64(cursor[..8]);
    cursor := cursor[8..];
    if |cursor| < 8 { return Panics; }
    assert cursor == covered[25..] && cursor[..8] == covered[25..33];
    var offset := GetU64(cursor[..8]);
    cursor := cursor[8..];
    assert cursor == covered[33..] && workspace == covered[1..17] && |workspace| == 16;
    var fields := Record(signal.value, workspace, timestamp, offset, cursor);
    assert fields == Fields(covered);
    return Done(fields, 4 + bodyLen);
  }

  // ---------------------------------------------------------------- print and parse

  lemma {:induction false} FieldsOfCovered(r: WalRecord)
    ensures |Covered(r)| == 33 + |r.payload| && FromTag(Covered(r)[0]) == Some(r.signal)
    ensures Fields(Covered(r)) == r
  {
    var c := Covered(r);
    assert c[1..17] == r.workspace && c[17..25] == PutI64(r.timestamp);
    assert c[25..33] == PutU64(r.offset) && c[33..] == r.payload;
    GetPutI64(r.timestamp);
    GetPutU64(r.offset);
  }

  lemma {:induction false} CoveredOfFields(c: seq<Byte>)
    requires |c| >= 33 && FromTag(c[0]).Some?
    ensures Covered(Fields(c)) == c
  {
    PutGetI64(c[17..25]);
    PutGetU64(c[25..33]);
    assert c == [c[0]] + c[1..17] + c[17..25] + c[25..33] + c[33..];
  }

  lemma {:induction false} EncodeParts(crc: Crc, r: WalRecord, rest: seq<Byte>)
    ensures var data := Encode(crc, r) + rest;
            && data[..4] == PutU32(AsU32(MIN_BODY + |r.payload|))
            && data[4..8] == PutU32(crc(Covered(r)))
            && data[8..4 + MIN_BODY + |r.payload|] == Covered(r)
  {
    FieldsOfCovered(r);
  }

  /** Where each field is, and that numbers are printed with their highest byte first. */
  lemma {:induction false} Layout(crc: Crc, r: WalRecord)
    ensures var s := Encode(crc, r);
            && |s| == 41 + |r.payload|
            && BigEndian(s[..4]) == (|s| - 4) % U32_LIMIT && BigEndian(s[4..8]) == crc(s[8..])
            && s[8] == (match r.signal case Trace => 0 case Metric => 1 case Log => 2 case Score => 3)
            && s[9..25] == r.workspace && s[41..] == r.payload
            && BigEndian(s[25..33]) == (if r.timestamp < 0 then r.timestamp + U64_LIMIT else r.timestamp)
            && BigEndian(s[33..41]) == r.offset
  {
    var s, c := Encode(crc, r), Covered(r);
    hide PutU32, PutU64, BigEndian;
    EncodeParts(crc, r, []);
    assert s + [] == s && s[8..] == c;
    assert s[9..25] == c[1..17] && s[25..33] == c[17..25] && s[33..41] == c[25..33] && s[41..] == c[33..];
    assert c[17..25] == PutI64(r.timestamp) && c[25..33] == PutU64(r.offset);
    PutU32Digits(AsU32(MIN_BODY + |r.payload|));
    PutU32Digits(crc(c));
    PutU64Digits(if r.timestamp < 0 then r.timestamp + U64_LIMIT else r.timestamp);
    PutU64Digits(r.offset);
  }

  /** A record is read back, whatever follows it, exactly when its length fits the length field. */
  lemma {:induction false} RoundTrip(crc: Crc, r: WalRecord, rest: seq<Byte>)
    ensures Parse(crc, Encode(crc, r) + rest) == Done(r, |Encode(crc, r)|) <==> Fits(r)
  {
    hide PutU32, GetU32, Encode, Covered, Fields;
    EncodeParts(crc, r, rest);
    GetPutU32(AsU32(MIN_BODY + |r.payload|));
    GetPutU32(crc(Covered(r)));
    FieldsOfCovered(r);
  }

  lemma {:induction false} FieldsSize(c: seq<Byte>)
    requires |c| >= 33 && FromTag(c[0]).Some?
    ensures 33 + |Fields(c).payload| == |c|
  {}

  /** Whatever is read was printed: the bytes consumed are the record's own. */
  lemma {:induction false} Sound(crc: Crc, data: seq<Byte>)
    requires Parse(crc, data).Done?
    ensures var o := Parse(crc, data);
            Fits(o.record) && data[..o.consumed] == Encode(crc, o.record)
  {
    hide PutU32, GetU32, Covered, Fields;
    var n := GetU32(data[..4]);
    PutGetU32(data[..4]);
    PutGetU32(data[4..8]);
    CoveredOfFields(data[8..4 + n]);
    FieldsSize(data[8..4 + n]);
    assert data[..4 + n] == data[..4] + data[4..8] + data[8..4 + n];
  }

  /** Reading succeeds exactly on the inputs that begin with a printed record, and that record is unique. */
  lemma {:induction false} DoneExactly(crc: Crc, data: seq<Byte>)
    ensures Parse(crc, data).Done? <==> exists r: WalRecord :: Fits(r) && Encode(crc, r) <= data
    ensures forall r: WalRecord, s: WalRecord ::
              Fits(r) && Fits(s) && Encode(crc, r) <= data && Encode(crc, s) <= data ==> r == s
  {
    if Parse(crc, data).Done? { Sound(crc, data); }
    forall r: WalRecord | Fits(r) && Encode(crc, r) <= data ensures Parse(crc, data) == Done(r, |Encode(crc, r)|) {
      assert data == Encode(crc, r) + data[|Encode(crc, r)|..];
      RoundTrip(crc, r, data[|Encode(crc, r)|..]);
    }
  }

  /** Each failure, by the bytes: what is too short, a wrong checksum, an unknown tag, and what indexes past its end. */
  lemma {:induction false} FailsExactly(crc: Crc, data: seq<Byte>)
    ensures var o := Parse(crc, data);
            && (o.TornIncomplete? <==> |data| < 4)
            && (|data| >= 4 ==>
              var n := BigEndian(data[..4]);
              && (o.TornTruncated? <==> |data| < 4 + n)
              && (o.TornTruncated? ==> o.need == 4 + n && o.have == |data|)
              && (8 <= 4 + n <= |data| ==>
                var stored, covered := BigEndian(data[4..8]), data[8..4 + n];
                && (o.CrcMismatch? <==> stored != crc(covered))
                && (o.CrcMismatch? ==> o.expected == stored && o.actual == crc(covered))
                && (o.InvalidSignal? <==> stored == crc(covered) && n >= 5 && data[8] >= 4)
                && (o.InvalidSignal? ==> o.value == data[8])
                && (o.Panics? <==> stored == crc(covered) && (n == 4 || (data[8] < 4 && n < 37))))
              && (4 + n <= |data| && n < 4 ==> o.Panics?))
  {
    if |data| >= 4 {
      FourDigits(data[..4]);
      if |data| >= 8 { FourDigits(data[4..8]); }
    }
    hide BigEndian, GetU32, Fields;
  }

  /** A record cut short is recognised by its length alone; nothing is decoded from it and nothing panics. */
  lemma {:induction false} CutShort(crc: Crc, r: WalRecord, k: nat)
    requires Fits(r) && k < |Encode(crc, r)|
    ensures Parse(crc, Encode(crc, r)[..k]) ==
              if k < 4 then TornIncomplete else TornTruncated(|Encode(crc, r)|, k)
  {
    hide PutU32, GetU32, Encode, Covered, Fields;
    if k >= 4 {
      EncodeParts(crc, r, []);
      assert Encode(crc, r)[..k][..4] == (Encode(crc, r) + [])[..4];
      GetPutU32(AsU32(MIN_BODY + |r.payload|));
    }
  }

  /** The declared length of a record's body. */
  function Declared(data: seq<Byte>): nat
    requires |data| >= 4
  {
    GetU32(data[..4])
  }

  /** The reader checks no lower bound of the length: 37 is the least length it can never panic on. */
  lemma {:induction false} PanicBound(crc: Crc, n: nat)
    requires n < U32_LIMIT
    ensures (exists data :: |data| >= 4 && Declared(data) == n && Parse(crc, data).Panics?) <==> n < MIN_BODY
  {
    if n < MIN_BODY {
      var zeros: seq<Byte> := seq(if n < 4 then 0 else n - 4, _ => 0);
      var head: seq<Byte> := if n < 4 then seq(n, _ => 0) else PutU32(crc(zeros));
      var data := PutU32(n) + head + zeros;
      assert data[..4] == PutU32(n);
      GetPutU32(n);
      if n >= 4 {
        assert data[4..8] == PutU32(crc(zeros)) && data[8..4 + n] == zeros;
        GetPutU32(crc(zeros));
      }
      assert Declared(data) == n && Parse(crc, data).Panics?;
    }
  }
}
