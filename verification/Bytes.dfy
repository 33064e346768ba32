/** Big-endian integers as byte sequences. */
module Bytes {

  type Byte = b: int | 0 <= b < 256

  const U32_LIMIT := 0x1_0000_0000
  const U64_LIMIT := 0x1_0000_0000_0000_0000
  const I64_LIMIT := 0x8000_0000_0000_0000

  type U32 = n: int | 0 <= n < U32_LIMIT
  type U64 = n: int | 0 <= n < U64_LIMIT
  type I64 = n: int | -I64_LIMIT <= n < I64_LIMIT

  function PutU32(n: U32): (s: seq<Byte>)
    ensures |s| == 4
  {
    [n / 0x100_0000, n / 0x1_0000 % 256, n / 256 % 256, n % 256]
  }

  function GetU32(s: seq<Byte>): U32
    requires |s| == 4
  {
    var a: int, b: int, c: int, d: int := s[0], s[1], s[2], s[3];
    a * 0x100_0000 + b * 0x1_0000 + c * 256 + d
  }

  function PutU64(n: U64): (s: seq<Byte>)
    ensures |s| == 8
  {
    PutU32(n / U32_LIMIT) + PutU32(n % U32_LIMIT)
  }

  function GetU64(s: seq<Byte>): U64
    requires |s| == 8
  {
    GetU32(s[..4]) * U32_LIMIT + GetU32(s[4..])
  }

  /** Two's complement. */
  function PutI64(n: I64): (s: seq<Byte>)
    ensures |s| == 8
  {
    PutU64(if n < 0 then n + U64_LIMIT else n)
  }

  function GetI64(s: seq<Byte>): I64
    requires |s| == 8
  {
    var n := GetU64(s);
    if n < I64_LIMIT then n else n - U64_LIMIT
  }

  /** The low 32 bits, as a cast to `u32` keeps them. */
  function AsU32(n: nat): U32 {
    n % U32_LIMIT
  }

  lemma {:induction false} GetPutU32(n: U32)
    ensures GetU32(PutU32(n)) == n
  {
    assert n / 256 == n / 0x1_0000 * 256 + n / 256 % 256;
    assert n / 0x1_0000 == n / 0x100_0000 * 256 + n / 0x1_0000 % 256;
  }

  lemma {:induction false} Digits(a: Byte, b: Byte, c: Byte, d: Byte)
    ensures var a': int, b': int, c': int, d': int := a, b, c, d;
            var n := a' * 0x100_0000 + b' * 0x1_0000 + c' * 256 + d';
            n / 0x100_0000 == a' && n / 0x1_0000 % 256 == b' && n / 256 % 256 == c' && n % 256 == d'
  {
    var x: int, y: int, z: int, u: int := a, b, c, d;
    var n := x * 0x100_0000 + y * 0x1_0000 + z * 256 + u;
    assert n / 256 == x * 0x1_0000 + y * 256 + z;
    assert n / 0x1_0000 == x * 256 + y;
  }

  lemma {:induction false} PutGetU32(s: seq<Byte>)
    requires |s| == 4
    ensures PutU32(GetU32(s)) == s
  {
    Digits(s[0], s[1], s[2], s[3]);
  }

  /** The number whose digits to base 256 these are, the highest first. */
  function BigEndian(s: seq<Byte>): nat {
    if s == [] then 0 else
      var last: int := s[|s| - 1];
      BigEndian(s[..|s| - 1]) * 256 + last
  }

  lemma {:induction false} LastDigit(s: seq<Byte>, b: Byte)
    ensures var d: int := b; BigEndian(s + [b]) == BigEndian(s) * 256 + d
  {
    assert (s + [b])[..|s|] == s;
  }

  lemma {:induction false} MoreDigits(s: seq<Byte>, t: seq<Byte>)
    requires |t| == 4
    ensures BigEndian(s + t) == BigEndian(s) * U32_LIMIT + GetU32(t)
  {
    hide BigEndian;
    var a, b, c, d := t[0], t[1], t[2], t[3];
    LastDigit(s, a);
    LastDigit(s + [a], b);
    LastDigit(s + [a] + [b], c);
    LastDigit(s + [a] + [b] + [c], d);
    assert s + t == s + [a] + [b] + [c] + [d];
  }

  lemma {:induction false} FourDigits(t: seq<Byte>)
    requires |t| == 4
    ensures BigEndian(t) == GetU32(t)
  {
    MoreDigits([], t);
    assert [] + t == t;
  }

  /** Integers are printed with their highest byte first. */
  lemma {:induction false} PutU32Digits(n: U32)
    ensures BigEndian(PutU32(n)) == n
  {
    GetPutU32(n);
    FourDigits(PutU32(n));
  }

  lemma {:induction false} PutU64Digits(n: U64)
    ensures BigEndian(PutU64(n)) == n
  {
    MoreDigits(PutU32(n / U32_LIMIT), PutU32(n % U32_LIMIT));
    PutU32Digits(n / U32_LIMIT);
    GetPutU32(n % U32_LIMIT);
  }

  lemma {:induction false} GetPutU64(n: U64)
    ensures GetU64(PutU64(n)) == n
  {
    var s := PutU64(n);
    assert s[..4] == PutU32(n / U32_LIMIT) && s[4..] == PutU32(n % U32_LIMIT);
    GetPutU32(n / U32_LIMIT);
    GetPutU32(n % U32_LIMIT);
  }

  lemma {:induction false} PutGetU64(s: seq<Byte>)
    requires |s| == 8
    ensures PutU64(GetU64(s)) == s
  {
    var hi, lo := GetU32(s[..4]), GetU32(s[4..]);
    assert GetU64(s) / U32_LIMIT == hi && GetU64(s) % U32_LIMIT == lo;
    PutGetU32(s[..4]);
    PutGetU32(s[4..]);
    assert s == s[..4] + s[4..];
  }

  lemma {:induction false} GetPutI64(n: I64)
    ensures GetI64(PutI64(n)) == n
  {
    GetPutU64(if n < 0 then n + U64_LIMIT else n);
  }

  lemma {:induction false} PutGetI64(s: seq<Byte>)
    requires |s| == 8
    ensures PutI64(GetI64(s)) == s
  {
    PutGetU64(s);
  }
}
