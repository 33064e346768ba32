/**
  The policy enforcer: usage is compared with limits in saturating 64-bit arithmetic, and an ingest
  request gets the first decision that any of its limits produces.
*/
module Policy {
  import opened Prelude
  import opened Bytes

  type U8 = n: int | 0 <= n < 256

  const I64_MAX := I64_LIMIT - 1
  const DAY_MICROS := 86_400_000_000

  datatype Code = ProjectBlocked | RateLimitExceeded | QuotaExceeded | SizeExceeded

  datatype Decision =
    | Allow
    | AllowWithGrace
    | Throttle
    | Block(code: Code)

  function Severity(d: Option<Decision>): nat {
    match d
    case None => 0
    case Some(Allow) => 0
    case Some(AllowWithGrace) => 1
    case Some(Throttle) => 2
    case Some(Block(_)) => 3
  }

  // ---------------------------------------------------------------- saturating arithmetic

  function Saturated(x: int): I64 {
    if x < -I64_LIMIT then -I64_LIMIT else if x > I64_MAX then I64_MAX else x
  }

  function SatMul(x: I64, y: I64): I64 {
    var a: int, b: int := x, y;
    Saturated(a * b)
  }

  function SatAdd(x: I64, y: I64): I64 {
    var a: int, b: int := x, y;
    Saturated(a + b)
  }

  function SatSub(x: I64, y: I64): I64 {
    var a: int, b: int := x, y;
    Saturated(a - b)
  }

  function SatAddU64(x: U64, y: U64): U64 {
    var a: int, b: int := x, y;
    if a + b >= U64_LIMIT then U64_LIMIT - 1 else a + b
  }

  // ---------------------------------------------------------------- one limit

  function CompareLimitI64(observed: I64, limit: I64, grace: U8, hard: U8, code: Code): Option<Decision> {
    if limit <= 0 then Some(Block(code))
    else if SatMul(observed, 100) >= SatMul(limit, hard) then Some(Block(code))
    else if SatMul(observed, 100) > SatMul(limit, grace) then Some(Throttle)
    else if observed > limit then Some(AllowWithGrace)
    else None
  }

  function CompareLimit(observed: U64, limit: U64, grace: U8, hard: U8, code: Code): Option<Decision> {
    CompareLimitI64(Saturated(observed), Saturated(limit), grace, hard, code)
  }

  /** The same decision without any bound on the numbers. */
  function Ideal(observed: int, limit: int, grace: U8, hard: U8, code: Code): Option<Decision> {
    var g: int, h: int := grace, hard;
    if limit <= 0 then Some(Block(code))
    else if observed * 100 >= limit * h then Some(Block(code))
    else if observed * 100 > limit * g then Some(Throttle)
    else if observed > limit then Some(AllowWithGrace)
    else None
  }

  lemma {:induction false} ScaleMonotone(x: int, y: int, p: int)
    requires x <= y && p >= 0
    ensures x * p <= y * p
  {
    assert y * p - x * p == (y - x) * p;
  }

  /** Severity is monotone in what was observed and antitone in the limit. */
  lemma {:induction false} SeverityMonotone(o: I64, o': I64, l: I64, l': I64, grace: U8, hard: U8, code: Code)
    requires o <= o' && l' <= l
    ensures Severity(CompareLimitI64(o, l, grace, hard, code)) <= Severity(CompareLimitI64(o', l', grace, hard, code))
  {
    var x: int, x': int, y: int, y': int, g: int, h: int := o, o', l, l', grace, hard;
    ScaleMonotone(x, x', 100);
    ScaleMonotone(y', y, g);
    ScaleMonotone(y', y, h);
  }

  lemma {:induction false} IdealMonotone(o: int, o': int, l: int, l': int, grace: U8, hard: U8, code: Code)
    requires o <= o' && l' <= l
    ensures Severity(Ideal(o, l, grace, hard, code)) <= Severity(Ideal(o', l', grace, hard, code))
  {
    var g: int, h: int := grace, hard;
    ScaleMonotone(o, o', 100);
    ScaleMonotone(l', l, g);
    ScaleMonotone(l', l, h);
  }

  lemma {:induction false} SaturatedAtLeast(x: int, y: int)
    requires 0 <= y && x != I64_MAX
    ensures Saturated(x) >= Saturated(y) <==> x >= y || x > I64_MAX
  {
    if x > I64_MAX { assert Saturated(x) == I64_MAX; }
  }

  lemma {:induction false} SaturatedOrder(x: int, y: int)
    requires 0 <= y
    ensures Saturated(x) > Saturated(y) <==> x > y && !(x > I64_MAX && y >= I64_MAX)
  {
    if x > I64_MAX {
      assert Saturated(x) == I64_MAX;
    } else if y > I64_MAX {
      assert Saturated(y) == I64_MAX;
    }
  }

  /**
    Saturation never makes a decision milder, and changes it exactly when the scaled usage does not fit
    and the ideal decision is not already to block.
  */
  lemma {:induction false} SaturationExact(observed: I64, limit: I64, grace: U8, hard: U8, code: Code)
    ensures var d, ideal := CompareLimitI64(observed, limit, grace, hard, code),
              Ideal(observed, limit, grace, hard, code);
            var o: int := observed;
            && Severity(d) >= Severity(ideal)
            && (d == ideal <==> o * 100 <= I64_MAX || ideal == Some(Block(code)))
  {
    var o: int, l: int, g: int, h: int := observed, limit, grace, hard;
    if l > 0 {
      var x, y, z := o * 100, l * h, l * g;
      Products(observed, limit, grace, hard);
      SaturatedAtLeast(x, y);
      SaturatedOrder(x, z);
      hide SatMul, Saturated;
      Judged(x, y, z, o, l, SatMul(observed, 100), SatMul(limit, hard), SatMul(limit, grace));
    }
  }

  /** The products the comparison makes, saturated; none of them is negative for a positive limit. */
  lemma {:induction false} Products(observed: I64, limit: I64, grace: U8, hard: U8)
    requires limit > 0
    ensures var o: int, l: int, g: int, h: int := observed, limit, grace, hard;
            && SatMul(observed, 100) == Saturated(o * 100)
            && SatMul(limit, hard) == Saturated(l * h) && SatMul(limit, grace) == Saturated(l * g)
            && 0 <= l * h && 0 <= l * g
  {
    hide Saturated;
    var l: int, g: int, h: int := limit, grace, hard;
    ScaleMonotone(0, l, g);
    ScaleMonotone(0, l, h);
  }

  /** Which of the four outcomes, from the scaled usage `x` and the scaled limits `y` (hard) and `z` (grace). */
  function Outcome(x: int, y: int, z: int, o: int, l: int): nat {
    if x >= y then 3 else if x > z then 2 else if o > l then 1 else 0
  }

  lemma {:induction false} Judged(x: int, y: int, z: int, o: int, l: int, x': int, y': int, z': int)
    requires x' >= y' <==> x >= y || x > I64_MAX
    requires x' > z' <==> x > z && !(x > I64_MAX && z >= I64_MAX)
    ensures Outcome(x', y', z', o, l) >= Outcome(x, y, z, o, l)
    ensures Outcome(x', y', z', o, l) == Outcome(x, y, z, o, l) <==> x <= I64_MAX || Outcome(x, y, z, o, l) == 3
  {}

  function QuotaUsage(used: I64, estimated: U64): I64 {
    SatAdd(used, Saturated(estimated))
  }

  /** The quota's sum of reading and estimate does not make a decision milder, whatever the limit. */
  ghost predicate SumFailsClosed(used: I64, estimated: U64) {
    forall limit: I64, grace: U8, hard: U8, code: Code ::
      var u: int, e: int := used, estimated;
      Severity(CompareLimitI64(QuotaUsage(used, estimated), limit, grace, hard, code)) >=
      Severity(Ideal(u + e, limit, grace, hard, code))
  }

  lemma {:induction false} QuotaFailsClosed(used: I64, estimated: U64, limit: I64, grace: U8, hard: U8, code: Code)
    requires used >= 0 || estimated <= I64_MAX || (var q: int := QuotaUsage(used, estimated); q * 100 > I64_MAX)
    ensures var u: int, e: int := used, estimated;
            Severity(CompareLimitI64(QuotaUsage(used, estimated), limit, grace, hard, code)) >=
            Severity(Ideal(u + e, limit, grace, hard, code))
  {
    var u: int, e: int := used, estimated;
    var observed := QuotaUsage(used, estimated);
    var o: int := observed;
    if o * 100 > I64_MAX {
      assert CompareLimitI64(observed, limit, grace, hard, code) == Some(Block(code));
    } else {
      assert u + e <= o;
      SaturationExact(observed, limit, grace, hard, code);
      IdealMonotone(u + e, o, limit, limit, grace, hard, code);
    }
  }

  /**
    The estimate is cut to 63 bits before the reading is added, so a negative reading can hide usage: this
    is harmless exactly if the reading is not negative, the estimate fits, or the sum still saturates.
  */
  lemma {:induction false} SumFailsClosedExactly(used: I64, estimated: U64)
    ensures SumFailsClosed(used, estimated) <==>
              used >= 0 || estimated <= I64_MAX || (var q: int := QuotaUsage(used, estimated); q * 100 > I64_MAX)
  {
    var u: int, e: int, q: int := used, estimated, QuotaUsage(used, estimated);
    if used >= 0 || estimated <= I64_MAX || q * 100 > I64_MAX {
      forall limit: I64, grace: U8, hard: U8, code: Code
        ensures Severity(CompareLimitI64(QuotaUsage(used, estimated), limit, grace, hard, code)) >=
                Severity(Ideal(u + e, limit, grace, hard, code))
      {
        QuotaFailsClosed(used, estimated, limit, grace, hard, code);
      }
    } else {
      assert q == u + I64_MAX < u + e && u + e >= 0;
      var limit: I64, hard: U8 := if q < 0 then 1 else q + 1, if q < 0 then 0 else 100;
      SaturationExact(QuotaUsage(used, estimated), limit, 0, hard, QuotaExceeded);
      assert Severity(Ideal(u + e, limit, 0, hard, QuotaExceeded)) == 3;
      assert Severity(Ideal(q, limit, 0, hard, QuotaExceeded)) < 3;
    }
  }

  lemma {:induction false} TooLargeBlocks(limit: I64, grace: U8, hard: U8, code: Code)
    ensures CompareLimitI64(I64_MAX, limit, grace, hard, code) == Some(Block(code))
  {}

  /** Unsigned readings and limits beyond 63 bits included. */
  lemma {:induction false} RateFailsClosed(sample: U64, added: U64, limit: U64, grace: U8, hard: U8, code: Code)
    ensures var s: int, a: int := sample, added;
            Severity(CompareLimit(SatAddU64(sample, added), limit, grace, hard, code)) >=
            Severity(Ideal(s + a, limit, grace, hard, code))
  {
    var s: int, a: int, l: int := sample, added, limit;
    var observed := Saturated(SatAddU64(sample, added));
    if observed < I64_MAX {
      assert observed == s + a;
      SaturationExact(observed, Saturated(limit), grace, hard, code);
      IdealMonotone(s + a, s + a, l, Saturated(limit), grace, hard, code);
    } else {
      TooLargeBlocks(Saturated(limit), grace, hard, code);
    }
  }

  /** No decision at all means the limit is positive and not exceeded. */
  lemma {:induction false} NoneMeansWithin(observed: I64, limit: I64, grace: U8, hard: U8, code: Code)
    requires CompareLimitI64(observed, limit, grace, hard, code).None?
    ensures 0 < limit && observed <= limit && observed < I64_MAX
  {
    if observed == I64_MAX { TooLargeBlocks(limit, grace, hard, code); }
  }

  /** The sums a quota judges rightly when it makes no decision. */
  predicate SumJudged(used: I64, estimated: U64) {
    var u: int, e: int, q: int := used, estimated, QuotaUsage(used, estimated);
    used >= 0 || estimated <= I64_MAX || q * 100 > I64_MAX || u + e <= 1
  }

  lemma {:induction false} JudgedMeansWithin(used: I64, estimated: U64, limit: I64, grace: U8, hard: U8, code: Code)
    requires SumJudged(used, estimated) && CompareLimitI64(QuotaUsage(used, estimated), limit, grace, hard, code).None?
    ensures var u: int, e: int := used, estimated; u + e <= limit
  {
    NoneMeansWithin(QuotaUsage(used, estimated), limit, grace, hard, code);
  }

  /** No decision means that the exact sum is within the limit, for every limit, exactly for these sums. */
  lemma {:induction false} NoneMeansWithinExactly(used: I64, estimated: U64)
    ensures (forall limit: I64, grace: U8, hard: U8, code: Code ::
               CompareLimitI64(QuotaUsage(used, estimated), limit, grace, hard, code).None? ==>
                 var u: int, e: int := used, estimated; u + e <= limit) <==>
            SumJudged(used, estimated)
  {
    if SumJudged(used, estimated) {
      forall limit: I64, grace: U8, hard: U8, code: Code |
        CompareLimitI64(QuotaUsage(used, estimated), limit, grace, hard, code).None?
        ensures var u: int, e: int := used, estimated; u + e <= limit
      {
        JudgedMeansWithin(used, estimated, limit, grace, hard, code);
      }
    } else {
      var u: int, e: int, q: int := used, estimated, QuotaUsage(used, estimated);
      assert q == u + I64_MAX < u + e;
      var limit: I64 := if q <= 0 then 1 else q;
      assert CompareLimitI64(QuotaUsage(used, estimated), limit, 101, 103, QuotaExceeded).None?;
    }
  }

  // ---------------------------------------------------------------- limits and usage

  datatype Basis = CompressedBytes | ScannedBytes

  datatype Limit =
    | Rate(recordsPerSec: Option<U64>, bytesPerSec: Option<U64>)
    | Quota(maxBytes: I64, periodStart: I64, periodEnd: Option<I64>, basis: Basis)
    | Size(maxSize: I64, sizeBasis: Basis)

  datatype Resolved = Resolved(blocked: bool, rate: Option<Limit>, quotas: seq<Limit>, size: Option<Limit>,
                               grace: U8, hard: U8)

  datatype Sample = Sample(records: U64, bytes: U64)

  /** What the usage store answers; `None` where it fails. */
  datatype Usage = Usage(rate: Option<Sample>, periodUsed: (I64, Option<I64>) -> Option<I64>, stored: Option<I64>)

  datatype Request = Request(records: U64, estimatedBytes: Option<U64>)

  function Estimate(req: Request): U64 {
    if req.estimatedBytes.Some? then req.estimatedBytes.value else 0
  }

  function CheckRecords(p: Resolved, u: Usage, req: Request): Option<Decision> {
    if p.rate.Some? && p.rate.value.Rate? && u.rate.Some? && p.rate.value.recordsPerSec.Some? then
      CompareLimit(SatAddU64(u.rate.value.records, req.records), p.rate.value.recordsPerSec.value, p.grace, p.hard,
        RateLimitExceeded)
    else None
  }

  function CheckBytes(p: Resolved, u: Usage, req: Request): Option<Decision> {
    if p.rate.Some? && p.rate.value.Rate? && u.rate.Some? && p.rate.value.bytesPerSec.Some?
      && req.estimatedBytes.Some? then
      CompareLimit(SatAddU64(u.rate.value.bytes, req.estimatedBytes.value), p.rate.value.bytesPerSec.value,
                   p.grace, p.hard, RateLimitExceeded)
    else None
  }

  function CheckQuota(p: Resolved, u: Usage, req: Request, quota: Limit): Option<Decision> {
    if quota.Quota? && quota.basis == CompressedBytes && u.periodUsed(quota.periodStart, quota.periodEnd).Some? then
      CompareLimitI64(QuotaUsage(u.periodUsed(quota.periodStart, quota.periodEnd).value, Estimate(req)),
                      quota.maxBytes, p.grace, p.hard, QuotaExceeded)
    else None
  }

  function CheckSize(p: Resolved, u: Usage): Option<Decision> {
    if p.size.Some? && p.size.value.Size? && p.size.value.sizeBasis == CompressedBytes && u.stored.Some? then
      CompareLimitI64(u.stored.value, p.size.value.maxSize, p.grace, p.hard, SizeExceeded)
    else None
  }

  function CheckQuotas(p: Resolved, u: Usage, req: Request, quotas: seq<Limit>): seq<Option<Decision>> {
    seq(|quotas|, i requires 0 <= i < |quotas| => CheckQuota(p, u, req, quotas[i]))
  }

  /** All limits, in the order they are consulted. */
  function Checks(p: Resolved, u: Usage, req: Request): seq<Option<Decision>> {
    [CheckRecords(p, u, req), CheckBytes(p, u, req)] + CheckQuotas(p, u, req, p.quotas) + [CheckSize(p, u)]
  }

  function First(ds: seq<Option<Decision>>): Decision {
    if ds == [] then Allow else if ds[0].Some? then ds[0].value else First(ds[1..])
  }

  function IngestDecision(p: Resolved, u: Usage, req: Request): Decision {
    if p.blocked then Block(ProjectBlocked) else First(Checks(p, u, req))
  }

  lemma {:induction false} FirstSkips(ds: seq<Option<Decision>>, n: nat)
    requires n <= |ds| && forall i :: 0 <= i < n ==> ds[i].None?
    ensures First(ds) == First(ds[n..])
  {
    if n > 0 {
      FirstSkips(ds[1..], n - 1);
      assert ds[1..][n - 1..] == ds[n..];
    }
  }

  /** The checks one after the other; the first decision ends them. */
  method CheckIngest(p: Resolved, u: Usage, req: Request) returns (d: Decision)
    ensures d == IngestDecision(p, u, req)
  {
    if p.blocked { return Block(ProjectBlocked); }
    ghost var checks := Checks(p, u, req);
    hide CompareLimitI64, CompareLimit, CheckRecords, CheckBytes, CheckQuota, CheckSize;
    var rate := CheckRecords(p, u, req);
    if rate.Some? { return rate.value; }
    rate := CheckBytes(p, u, req);
    FirstSkips(checks, 1);
    if rate.Some? { return rate.value; }
    for i := 0 to |p.quotas|
      invariant forall j :: 0 <= j < i + 2 ==> checks[j].None?
    {
      var quota := CheckQuota(p, u, req, p.quotas[i]);
      FirstSkips(checks, i + 2);
      if quota.Some? { return quota.value; }
    }
    var size := CheckSize(p, u);
    FirstSkips(checks, |checks| - 1);
    if size.Some? { return size.value; }
    FirstSkips(checks, |checks|);
    return Allow;
  }

  lemma {:induction false} FirstAllow(ds: seq<Option<Decision>>)
    requires forall i :: 0 <= i < |ds| ==> ds[i] != Some(Allow)
    ensures First(ds) == Allow <==> forall i :: 0 <= i < |ds| ==> ds[i].None?
  {
    if ds != [] { FirstAllow(ds[1..]); }
  }

  lemma {:induction false} ChecksNeverAllow(p: Resolved, u: Usage, req: Request)
    ensures forall i :: 0 <= i < |Checks(p, u, req)| ==> Checks(p, u, req)[i] != Some(Allow)
  {}

  /** In exact arithmetic no limit whose usage could be read is exceeded. */
  ghost predicate WithinLimits(p: Resolved, u: Usage, req: Request) {
    && (p.rate.Some? && p.rate.value.Rate? && u.rate.Some? ==>
        && (p.rate.value.recordsPerSec.Some? ==>
            var s: int, r: int := u.rate.value.records, req.records; s + r <= p.rate.value.recordsPerSec.value)
        && (p.rate.value.bytesPerSec.Some? && req.estimatedBytes.Some? ==>
            var s: int, b: int := u.rate.value.bytes, req.estimatedBytes.value;
            s + b <= p.rate.value.bytesPerSec.value))
    && (forall i :: 0 <= i < |p.quotas| ==> QuotaKept(p.quotas[i], u, req))
    && (p.size.Some? && p.size.value.Size? && p.size.value.sizeBasis == CompressedBytes && u.stored.Some? ==>
        u.stored.value <= p.size.value.maxSize)
  }

  ghost predicate QuotaKept(quota: Limit, u: Usage, req: Request) {
    quota.Quota? && quota.basis == CompressedBytes && u.periodUsed(quota.periodStart, quota.periodEnd).Some? ==>
      var used: int, e: int := u.periodUsed(quota.periodStart, quota.periodEnd).value, Estimate(req);
      SumJudged(used, Estimate(req)) ==> used + e <= quota.maxBytes
  }

  lemma {:induction false} QuotaWithin(p: Resolved, u: Usage, req: Request, quota: Limit)
    requires CheckQuota(p, u, req, quota).None?
    ensures QuotaKept(quota, u, req)
  {}

  /** A negative reading hides a huge estimate: 2^63 bytes above a quota of 100, and the request is allowed. */
  lemma {:induction false} HiddenUsageAllowed()
    ensures var p := Resolved(false, None, [Quota(100, 0, None, CompressedBytes)], None, 101, 103);
            var u := Usage(None, (s, e) => Some(-I64_LIMIT + 51), None);
            && IngestDecision(p, u, Request(0, Some(U64_LIMIT - 1))) == Allow
            && -I64_LIMIT + 51 + (U64_LIMIT - 1) > 100
  {
    var p := Resolved(false, None, [Quota(100, 0, None, CompressedBytes)], None, 101, 103);
    var u := Usage(None, (s, e) => Some(-I64_LIMIT + 51), None);
    var checks := Checks(p, u, Request(0, Some(U64_LIMIT - 1)));
    assert checks[2].None?;
    FirstSkips(checks, |checks|);
  }

  lemma {:induction false} RateWithin(sample: U64, added: U64, limit: U64, grace: U8, hard: U8, code: Code)
    requires CompareLimit(SatAddU64(sample, added), limit, grace, hard, code).None?
    ensures var s: int, a: int := sample, added; s + a <= limit
  {
    NoneMeansWithin(Saturated(SatAddU64(sample, added)), Saturated(limit), grace, hard, code);
  }

  /** A request is allowed only if no limit with readable usage is exceeded. */
  lemma {:induction false} AllowMeansWithin(p: Resolved, u: Usage, req: Request)
    requires IngestDecision(p, u, req) == Allow
    ensures !p.blocked && WithinLimits(p, u, req)
  {
    var checks := Checks(p, u, req);
    ChecksNeverAllow(p, u, req);
    hide CompareLimitI64;
    FirstAllow(checks);
    assert checks[0].None? && checks[1].None? && checks[|checks| - 1].None?;
    if p.rate.Some? && p.rate.value.Rate? && u.rate.Some? {
      var rate, sample := p.rate.value, u.rate.value;
      if rate.recordsPerSec.Some? {
        RateWithin(sample.records, req.records, rate.recordsPerSec.value, p.grace, p.hard, RateLimitExceeded);
      }
      if rate.bytesPerSec.Some? && req.estimatedBytes.Some? {
        RateWithin(sample.bytes, req.estimatedBytes.value, rate.bytesPerSec.value, p.grace, p.hard, RateLimitExceeded);
      }
    }
    forall i | 0 <= i < |p.quotas| ensures QuotaKept(p.quotas[i], u, req) {
      assert checks[i + 2] == CheckQuota(p, u, req, p.quotas[i]);
      QuotaWithin(p, u, req, p.quotas[i]);
    }
    if p.size.Some? && p.size.value.Size? && p.size.value.sizeBasis == CompressedBytes && u.stored.Some? {
      NoneMeansWithin(u.stored.value, p.size.value.maxSize, p.grace, p.hard, SizeExceeded);
    }
  }

  // ---------------------------------------------------------------- the grace decision shadows later limits

  predicate Rejects(d: Decision) {
    d.Throttle? || d.Block?
  }

  /** Whenever one of the limits rejects the request, so does the decision. */
  ghost predicate FailsClosed(grace: U8, hard: U8) {
    forall p: Resolved, u: Usage, req: Request {:trigger Checks(p, u, req)} ::
      p.grace == grace && p.hard == hard &&
      (exists i :: 0 <= i < |Checks(p, u, req)| && Checks(p, u, req)[i].Some? && Rejects(Checks(p, u, req)[i].value))
      ==> Rejects(IngestDecision(p, u, req))
  }

  lemma {:induction false} GraceNeeds(observed: I64, limit: I64, grace: U8, hard: U8, code: Code)
    requires grace <= 100 || hard <= 100
    ensures CompareLimitI64(observed, limit, grace, hard, code) != Some(AllowWithGrace)
  {
    var o: int, l: int, g: int, h: int := observed, limit, grace, hard;
    if 0 < l < o {
      SaturationExact(observed, limit, grace, hard, code);
      if g <= 100 { assert l * g <= l * 100 by { MulRight(l, g, 100); } }
      if h <= 100 { assert l * h <= l * 100 by { MulRight(l, h, 100); } }
    }
  }

  lemma {:induction false} MulRight(l: int, x: int, y: int)
    requires l >= 0 && x <= y
    ensures l * x <= l * y
  {
    assert l * y - l * x == l * (y - x);
  }

  lemma {:induction false} FirstRejects(ds: seq<Option<Decision>>, i: nat)
    requires i < |ds| && ds[i].Some? && Rejects(ds[i].value)
    requires forall j :: 0 <= j < |ds| && ds[j].Some? ==> Rejects(ds[j].value)
    ensures Rejects(First(ds))
  {
    if ds[0].None? { FirstRejects(ds[1..], i - 1); }
  }

  lemma {:induction false} WithoutGrace(p: Resolved, u: Usage, req: Request)
    requires p.grace <= 100 || p.hard <= 100
    ensures forall j :: 0 <= j < |Checks(p, u, req)| && Checks(p, u, req)[j].Some? ==>
              Rejects(Checks(p, u, req)[j].value)
  {
    forall o: I64, l: I64, code: Code ensures CompareLimitI64(o, l, p.grace, p.hard, code) != Some(AllowWithGrace) {
      GraceNeeds(o, l, p.grace, p.hard, code);
    }
    ChecksNeverAllow(p, u, req);
    hide CompareLimitI64;
  }

  /** A quota of 1000 bytes at 1001 and a size limit of 0. */
  function Shadowed(grace: U8, hard: U8): Resolved {
    Resolved(false, None, [Quota(1000, 0, None, CompressedBytes)], Some(Size(0, CompressedBytes)), grace, hard)
  }

  const SHADOWED_USAGE: Usage := Usage(None, (s, e) => Some(1001), Some(0))

  lemma {:induction false} GraceShadows(grace: U8, hard: U8)
    requires grace > 100 && hard > 100
    ensures !FailsClosed(grace, hard)
  {
    var p, req := Shadowed(grace, hard), Request(0, None);
    var checks := Checks(p, SHADOWED_USAGE, req);
    var o: I64, l: I64 := 1001, 1000;
    assert SatMul(l, 101) <= SatMul(l, grace) && SatMul(l, 101) <= SatMul(l, hard);
    assert checks[2] == Some(AllowWithGrace);
    FirstSkips(checks, 2);
    assert checks[3] == Some(Block(SizeExceeded));
  }

  /**
    The first decision wins, so a limit that is exceeded within its grace lets a request through that a
    later limit would reject.  This can happen exactly if both percentages are above 100, as the
    defaults 101 and 103 are.
  */
  lemma {:induction false} FailsClosedExactly(grace: U8, hard: U8)
    ensures FailsClosed(grace, hard) <==> grace <= 100 || hard <= 100
  {
    if grace <= 100 || hard <= 100 {
      forall p: Resolved, u: Usage, req: Request |
        p.grace == grace && p.hard == hard &&
        exists i :: 0 <= i < |Checks(p, u, req)| && Checks(p, u, req)[i].Some? && Rejects(Checks(p, u, req)[i].value)
        ensures Rejects(IngestDecision(p, u, req))
      {
        var i :| 0 <= i < |Checks(p, u, req)| && Checks(p, u, req)[i].Some? && Rejects(Checks(p, u, req)[i].value);
        WithoutGrace(p, u, req);
        FirstRejects(Checks(p, u, req), i);
      }
    } else {
      GraceShadows(grace, hard);
    }
  }

  // ---------------------------------------------------------------- query range

  function RetentionViolated(start: I64, now: I64, maxDays: U32): bool {
    start < SatSub(now, SatMul(maxDays, DAY_MICROS))
  }

  /** Saturation can only reject more. */
  lemma {:induction false} RetentionFailsClosed(start: I64, now: I64, maxDays: U32)
    ensures var n: int, m: int := now, maxDays;
            start < n - m * DAY_MICROS ==> RetentionViolated(start, now, maxDays)
  {}

  /** Exactly the starts before the cutoff are rejected; a retention of more than 63 bits counts as 63 bits. */
  lemma {:induction false} RetentionExact(start: I64, now: I64, maxDays: U32)
    ensures var s: int, n: int, m: int := start, now, maxDays;
            RetentionViolated(start, now, maxDays) <==>
              s < n - m * DAY_MICROS || (m * DAY_MICROS > I64_MAX && s < n - I64_MAX)
  {}

  function WindowViolated(start: I64, end: I64, maxDays: U32): bool {
    SatSub(end, start) > SatMul(maxDays, DAY_MICROS)
  }

  /** A window is let through although it is too long exactly if neither its length nor the limit fits 64 bits. */
  lemma {:induction false} WindowExact(start: I64, end: I64, maxDays: U32)
    ensures var s: int, e: int, m: int := start, end, maxDays;
            WindowViolated(start, end, maxDays) <==>
              e - s > m * DAY_MICROS && !(e - s > I64_MAX && m * DAY_MICROS >= I64_MAX)
  {
    var s: int, e: int, m: int := start, end, maxDays;
    var length, limit := e - s, m * DAY_MICROS;
    assert SatSub(end, start) == Saturated(length) && SatMul(maxDays, DAY_MICROS) == Saturated(limit);
    SaturatedOrder(length, limit);
  }

  // ---------------------------------------------------------------- threshold events

  /** 70, 90, 100 and the hard limit, sorted and without duplicates. */
  method Thresholds(hard: U8) returns (ts: seq<I64>)
    ensures forall i, j :: 0 <= i < j < |ts| ==> ts[i] < ts[j]
    ensures forall t :: t in ts <==> t == 70 || t == 90 || t == 100 || t == hard
  {
    var h: I64 := hard;
    ts := [70, 90, 100];
    var k := 0;
    while k < |ts| && ts[k] < h
      invariant 0 <= k <= |ts|
      invariant forall i :: 0 <= i < k ==> ts[i] < h
    {
      k := k + 1;
    }
    if k == |ts| || ts[k] != h {
      ts := ts[..k] + [h] + ts[k..];
    }
  }

  /** One event for each threshold that usage has reached, lowest first. */
  method EmitThresholds(observed: I64, limit: I64, hard: U8) returns (events: seq<I64>)
    ensures forall i, j :: 0 <= i < j < |events| ==> events[i] < events[j]
    ensures forall t :: t in events <==>
              limit > 0 && (t == 70 || t == 90 || t == 100 || t == hard) && SatMul(observed, 100) >= SatMul(limit, t)
  {
    events := [];
    if limit <= 0 { return; }
    var ts := Thresholds(hard);
    for i := 0 to |ts|
      invariant forall a, b :: 0 <= a < b < |events| ==> events[a] < events[b]
      invariant forall t :: t in events <==> t in ts[..i] && SatMul(observed, 100) >= SatMul(limit, t)
    {
      assert ts[..i + 1] == ts[..i] + [ts[i]];
      assert forall t :: t in ts[..i] ==> t < ts[i];
      assert ts[i] in ts;
      if SatMul(observed, 100) >= SatMul(limit, ts[i]) {
        forall a | 0 <= a < |events| ensures events[a] < ts[i] {
          assert events[a] in events;
          assert events[a] in ts[..i];
        }
        events := events + [ts[i]];
      }
    }
    assert ts[..|ts|] == ts;
  }
}
