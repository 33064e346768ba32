/** The answer to an ingest request in exact arithmetic: which limit decides, and in which range its usage lies. */
module Verdicts {
  import opened Prelude
  import opened Bytes
  import opened Policy

  // ---------------------------------------------------------------- one limit

  /** Usage that is scaled beyond 63 bits blocks, as does a limit that is not positive. */
  predicate Over(x: int, limit: int) {
    limit <= 0 || 100 * x > I64_MAX
  }

  /** The usage `x` is below every threshold of the limit. */
  predicate Passes(x: int, limit: int, grace: U8, hard: U8) {
    var g: int, h: int := grace, hard;
    !Over(x, limit) && 100 * x < h * limit && 100 * x <= g * limit && x <= limit
  }

  /** The decision is the one of the range `x` lies in. */
  predicate Answers(x: int, limit: int, grace: U8, hard: U8, code: Code, d: Decision) {
    var g: int, h: int := grace, hard;
    && (d == Block(code) <==> Over(x, limit) || 100 * x >= h * limit)
    && (d == Throttle <==> !Over(x, limit) && g * limit < 100 * x < h * limit)
    && (d == AllowWithGrace <==>
         !Over(x, limit) && 100 * x < h * limit && 100 * x <= g * limit && limit < x)
    && (d == Allow <==> Passes(x, limit, grace, hard))
  }

  function OrAllow(d: Option<Decision>): Decision {
    if d.Some? then d.value else Allow
  }

  lemma {:induction false} CompareAnswers(observed: I64, limit: I64, grace: U8, hard: U8, code: Code)
    ensures Answers(observed, limit, grace, hard, code, OrAllow(CompareLimitI64(observed, limit, grace, hard, code)))
  {
    var o: int, l: int, g: int, h: int := observed, limit, grace, hard;
    if l > 0 {
      Products(observed, limit, grace, hard);
      SaturatedAtLeast(o * 100, l * h);
      SaturatedOrder(o * 100, l * g);
      assert l * h == h * l && l * g == g * l;
      hide SatMul, Saturated;
    }
  }

  /** A limit beyond 63 bits is as good as the largest of 63 bits. */
  lemma {:induction false} HugeLimit(x: int, limit: int, grace: U8, hard: U8, code: Code, d: Decision)
    requires 0 <= x && limit > I64_MAX && Answers(x, I64_MAX, grace, hard, code, d)
    ensures Answers(x, limit, grace, hard, code, d)
  {
    if 100 * x <= I64_MAX {
      HugeProduct(x, limit, grace);
      HugeProduct(x, limit, hard);
    }
  }

  lemma {:induction false} HugeProduct(x: int, limit: int, p: U8)
    requires 0 <= 100 * x <= I64_MAX < limit
    ensures var q: int := p; (100 * x >= q * limit <==> 100 * x >= q * I64_MAX)
                             && (100 * x > q * limit <==> 100 * x > q * I64_MAX)
  {
    var q: int := p;
    if q == 0 {
    } else {
      ScaleMonotone(I64_MAX, limit, q);
      ScaleMonotone(1, q, I64_MAX);
      assert q * limit >= q * I64_MAX >= I64_MAX;
      assert q * limit >= limit by { ScaleMonotone(1, q, limit); }
      assert 100 * x != I64_MAX;
    }
  }

  lemma {:induction false} RateAnswers(sample: U64, added: U64, limit: U64, grace: U8, hard: U8, code: Code)
    ensures var s: int, a: int := sample, added;
            Answers(s + a, limit, grace, hard, code,
                    OrAllow(CompareLimit(SatAddU64(sample, added), limit, grace, hard, code)))
  {
    var s: int, a: int, l: int := sample, added, limit;
    var observed := Saturated(SatAddU64(sample, added));
    var d := OrAllow(CompareLimit(SatAddU64(sample, added), limit, grace, hard, code));
    CompareAnswers(observed, Saturated(limit), grace, hard, code);
    if s + a < I64_MAX {
      assert observed == s + a;
      if l > I64_MAX { HugeLimit(s + a, l, grace, hard, code, d); }
    } else {
      BothOver(I64_MAX, s + a, Saturated(limit), limit, grace, hard, code, d);
    }
  }

  lemma {:induction false} BothOver(x: int, x': int, limit: int, limit': int, grace: U8, hard: U8, code: Code,
                                    d: Decision)
    requires Over(x, limit) && Over(x', limit') && Answers(x, limit, grace, hard, code, d)
    ensures Answers(x', limit', grace, hard, code, d)
  {}

  /** What a quota is compared with: the reading and as much of the estimate as fits 63 bits. */
  function QuotaSum(used: I64, estimated: U64): int {
    var u: int, e: int := used, estimated;
    u + if e > I64_MAX then I64_MAX else e
  }

  lemma {:induction false} QuotaAnswers(used: I64, estimated: U64, limit: I64, grace: U8, hard: U8, code: Code)
    ensures Answers(QuotaSum(used, estimated), limit, grace, hard, code,
                    OrAllow(CompareLimitI64(QuotaUsage(used, estimated), limit, grace, hard, code)))
  {
    var x, q := QuotaSum(used, estimated), QuotaUsage(used, estimated);
    var d := OrAllow(CompareLimitI64(q, limit, grace, hard, code));
    CompareAnswers(q, limit, grace, hard, code);
    if x > I64_MAX { BothOver(q, x, limit, limit, grace, hard, code, d); }
  }

  // ---------------------------------------------------------------- all limits

  predicate RecordsRead(p: Resolved, u: Usage) {
    p.rate.Some? && p.rate.value.Rate? && p.rate.value.recordsPerSec.Some? && u.rate.Some?
  }

  predicate BytesRead(p: Resolved, u: Usage, req: Request) {
    p.rate.Some? && p.rate.value.Rate? && p.rate.value.bytesPerSec.Some? && u.rate.Some? && req.estimatedBytes.Some?
  }

  predicate QuotaRead(quota: Limit, u: Usage) {
    quota.Quota? && quota.basis == CompressedBytes && u.periodUsed(quota.periodStart, quota.periodEnd).Some?
  }

  predicate SizeRead(p: Resolved, u: Usage) {
    p.size.Some? && p.size.value.Size? && p.size.value.sizeBasis == CompressedBytes && u.stored.Some?
  }

  /** The records of the last second with those of the request. */
  function RecordsOf(u: Usage, req: Request): int
    requires u.rate.Some?
  {
    var s: int, r: int := u.rate.value.records, req.records;
    s + r
  }

  function BytesOf(u: Usage, req: Request): int
    requires u.rate.Some? && req.estimatedBytes.Some?
  {
    var s: int, b: int := u.rate.value.bytes, req.estimatedBytes.value;
    s + b
  }

  function QuotaOf(quota: Limit, u: Usage, req: Request): int
    requires QuotaRead(quota, u)
  {
    QuotaSum(u.periodUsed(quota.periodStart, quota.periodEnd).value,
             if req.estimatedBytes.Some? then req.estimatedBytes.value else 0)
  }

  predicate RecordsPass(p: Resolved, u: Usage, req: Request) {
    RecordsRead(p, u) ==> Passes(RecordsOf(u, req), p.rate.value.recordsPerSec.value, p.grace, p.hard)
  }

  predicate BytesPass(p: Resolved, u: Usage, req: Request) {
    BytesRead(p, u, req) ==> Passes(BytesOf(u, req), p.rate.value.bytesPerSec.value, p.grace, p.hard)
  }

  predicate QuotaPass(p: Resolved, u: Usage, req: Request, quota: Limit) {
    QuotaRead(quota, u) ==> Passes(QuotaOf(quota, u, req), quota.maxBytes, p.grace, p.hard)
  }

  predicate SizePass(p: Resolved, u: Usage) {
    SizeRead(p, u) ==> Passes(u.stored.value, p.size.value.maxSize, p.grace, p.hard)
  }

  /** What each check answers, on its own. */
  lemma {:induction false} EachCheck(p: Resolved, u: Usage, req: Request)
    ensures CheckRecords(p, u, req).None? <==> RecordsPass(p, u, req)
    ensures CheckBytes(p, u, req).None? <==> BytesPass(p, u, req)
    ensures CheckSize(p, u).None? <==> SizePass(p, u)
    ensures RecordsRead(p, u) ==>
              Answers(RecordsOf(u, req), p.rate.value.recordsPerSec.value, p.grace, p.hard, RateLimitExceeded,
                      OrAllow(CheckRecords(p, u, req)))
    ensures BytesRead(p, u, req) ==>
              Answers(BytesOf(u, req), p.rate.value.bytesPerSec.value, p.grace, p.hard, RateLimitExceeded,
                      OrAllow(CheckBytes(p, u, req)))
    ensures SizeRead(p, u) ==>
              Answers(u.stored.value, p.size.value.maxSize, p.grace, p.hard, SizeExceeded, OrAllow(CheckSize(p, u)))
  {
    NeverAllow(p, u, req);
    if RecordsRead(p, u) {
      RateAnswers(u.rate.value.records, req.records, p.rate.value.recordsPerSec.value, p.grace, p.hard,
                  RateLimitExceeded);
    }
    if BytesRead(p, u, req) {
      RateAnswers(u.rate.value.bytes, req.estimatedBytes.value, p.rate.value.bytesPerSec.value, p.grace, p.hard,
                  RateLimitExceeded);
    }
    if SizeRead(p, u) { CompareAnswers(u.stored.value, p.size.value.maxSize, p.grace, p.hard, SizeExceeded); }
    hide CompareLimitI64, CompareLimit, Passes;
  }

  lemma {:induction false} NeverAllow(p: Resolved, u: Usage, req: Request)
    ensures CheckRecords(p, u, req) != Some(Allow) && CheckBytes(p, u, req) != Some(Allow)
    ensures CheckSize(p, u) != Some(Allow)
  {}

  lemma {:induction false} QuotaCheck(p: Resolved, u: Usage, req: Request, quota: Limit)
    ensures CheckQuota(p, u, req, quota).None? <==> QuotaPass(p, u, req, quota)
    ensures QuotaRead(quota, u) ==>
              Answers(QuotaOf(quota, u, req), quota.maxBytes, p.grace, p.hard, QuotaExceeded,
                      OrAllow(CheckQuota(p, u, req, quota)))
  {
    assert CheckQuota(p, u, req, quota) != Some(Allow);
    if QuotaRead(quota, u) {
      QuotaAnswers(u.periodUsed(quota.periodStart, quota.periodEnd).value, Estimate(req), quota.maxBytes, p.grace,
                   p.hard, QuotaExceeded);
    }
    hide CompareLimitI64, CompareLimit, Passes;
  }

  /** The first check that decides; of the quotas, the one at `i`. */
  lemma {:induction false} FirstCheck(p: Resolved, u: Usage, req: Request) returns (i: nat)
    requires !p.blocked
    ensures i <= |p.quotas| && forall j :: 0 <= j < i ==> CheckQuota(p, u, req, p.quotas[j]).None?
    ensures i < |p.quotas| ==> CheckQuota(p, u, req, p.quotas[i]).Some?
    ensures var records, bytes, size := CheckRecords(p, u, req), CheckBytes(p, u, req), CheckSize(p, u);
            IngestDecision(p, u, req) ==
              if records.Some? then records.value else if bytes.Some? then bytes.value
              else if i < |p.quotas| then CheckQuota(p, u, req, p.quotas[i]).value
              else if size.Some? then size.value else Allow
  {
    hide CheckRecords, CheckBytes, CheckQuota, CheckSize;
    var checks := Checks(p, u, req);
    i := 0;
    while i < |p.quotas| && CheckQuota(p, u, req, p.quotas[i]).None?
      invariant i <= |p.quotas|
      invariant forall j :: 0 <= j < i ==> CheckQuota(p, u, req, p.quotas[j]).None?
    {
      i := i + 1;
    }
    assert forall j :: 0 <= j < |p.quotas| ==> checks[j + 2] == CheckQuota(p, u, req, p.quotas[j]);
    if checks[0].None? {
      FirstSkips(checks, 1);
      if checks[1].None? {
        FirstSkips(checks, i + 2);
        if i == |p.quotas| && checks[i + 2].None? { FirstSkips(checks, i + 3); }
      }
    }
  }

  /**
    The answer to a request.  The limits are asked in order: records, bytes, each quota, size; the first whose
    thresholds the usage reaches decides, by the range the usage lies in, and with its own code.  A request
    below every threshold is allowed.
  */
  lemma {:induction false} DecisionExact(p: Resolved, u: Usage, req: Request) returns (i: nat)
    ensures i <= |p.quotas| && forall j :: 0 <= j < i ==> QuotaPass(p, u, req, p.quotas[j])
    ensures i < |p.quotas| ==> !QuotaPass(p, u, req, p.quotas[i])
    ensures var d := IngestDecision(p, u, req);
            if p.blocked then d == Block(ProjectBlocked)
            else if !RecordsPass(p, u, req) then
              Answers(RecordsOf(u, req), p.rate.value.recordsPerSec.value, p.grace, p.hard, RateLimitExceeded, d)
            else if !BytesPass(p, u, req) then
              Answers(BytesOf(u, req), p.rate.value.bytesPerSec.value, p.grace, p.hard, RateLimitExceeded, d)
            else if i < |p.quotas| then
              Answers(QuotaOf(p.quotas[i], u, req), p.quotas[i].maxBytes, p.grace, p.hard, QuotaExceeded, d)
            else if !SizePass(p, u) then
              Answers(u.stored.value, p.size.value.maxSize, p.grace, p.hard, SizeExceeded, d)
            else d == Allow
  {
    if p.blocked {
      i := 0;
      while i < |p.quotas| && QuotaPass(p, u, req, p.quotas[i])
        invariant i <= |p.quotas| && forall j :: 0 <= j < i ==> QuotaPass(p, u, req, p.quotas[j])
      {
        i := i + 1;
      }
    } else {
      i := FirstCheck(p, u, req);
      EachCheck(p, u, req);
      forall j | 0 <= j < |p.quotas| { QuotaCheck(p, u, req, p.quotas[j]); }
      hide CheckRecords, CheckBytes, CheckQuota, CheckSize, Answers, Passes, QuotaRead, QuotaOf, IngestDecision;
    }
  }

  // ---------------------------------------------------------------- one kind of limit alone

  /** Only records per second are limited. */
  lemma {:induction false} RecordsAlone(limit: U64, sample: Sample, u: Usage, req: Request, grace: U8, hard: U8)
    requires u.rate == Some(sample)
    ensures var p, s: int, r: int := Resolved(false, Some(Rate(Some(limit), None)), [], None, grace, hard),
              sample.records, req.records;
            Answers(s + r, limit, grace, hard, RateLimitExceeded, IngestDecision(p, u, req))
  {
    var p := Resolved(false, Some(Rate(Some(limit), None)), [], None, grace, hard);
    var i := DecisionExact(p, u, req);
  }

  /** Only bytes per second are limited; without an estimate they are not looked at. */
  lemma {:induction false} BytesAlone(limit: U64, sample: Sample, u: Usage, req: Request, grace: U8, hard: U8)
    requires u.rate == Some(sample)
    ensures var p := Resolved(false, Some(Rate(None, Some(limit))), [], None, grace, hard);
            var d, s: int := IngestDecision(p, u, req), sample.bytes;
            if req.estimatedBytes.None? then d == Allow else
              var b: int := req.estimatedBytes.value; Answers(s + b, limit, grace, hard, RateLimitExceeded, d)
  {
    var p := Resolved(false, Some(Rate(None, Some(limit))), [], None, grace, hard);
    var i := DecisionExact(p, u, req);
  }

  /** Only one quota is set; without an estimate the request counts as empty. */
  lemma {:induction false} QuotaAlone(limit: I64, start: I64, end: Option<I64>, used: I64, u: Usage, req: Request,
                                      grace: U8, hard: U8)
    requires u.periodUsed(start, end) == Some(used)
    ensures var p := Resolved(false, None, [Quota(limit, start, end, CompressedBytes)], None, grace, hard);
            var e: int := if req.estimatedBytes.Some? then req.estimatedBytes.value else 0;
            var x: int := used + if e > I64_MAX then I64_MAX else e;
            Answers(x, limit, grace, hard, QuotaExceeded, IngestDecision(p, u, req))
  {
    var quota := Quota(limit, start, end, CompressedBytes);
    var p := Resolved(false, None, [quota], None, grace, hard);
    var i := DecisionExact(p, u, req);
    assert QuotaRead(quota, u);
    var x := QuotaOf(quota, u, req);
    hide IngestDecision, QuotaOf, QuotaRead;
    assert i == 1 ==> QuotaPass(p, u, req, p.quotas[0]);
  }

  /** Only the size of what is stored is limited; the request does not count. */
  lemma {:induction false} SizeAlone(limit: I64, stored: I64, u: Usage, req: Request, grace: U8, hard: U8)
    requires u.stored == Some(stored)
    ensures var p := Resolved(false, None, [], Some(Size(limit, CompressedBytes)), grace, hard);
            Answers(stored, limit, grace, hard, SizeExceeded, IngestDecision(p, u, req))
  {
    var p := Resolved(false, None, [], Some(Size(limit, CompressedBytes)), grace, hard);
    var i := DecisionExact(p, u, req);
  }
}
