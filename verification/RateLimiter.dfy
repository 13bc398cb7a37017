/**
 The rate limiter as a module of the server: its rules, its shared table of buckets, and what it
 answers to a request.
 */
module RateLimiter {
  import opened Wrappers
  import opened Messages
  import opened RateLimit
  import opened RuleText
  import opened Text
  import Decimal

  type Buckets = map<string, Bucket>

  function StateKey(ruleIndex: nat, subject: string): string {
    Decimal.Digits(ruleIndex) + ":" + subject
  }

  /** No two (rule, subject) pairs share a key, whatever the subject contains. */
  lemma StateKeyInjective(i: nat, subject: string, j: nat, other: string)
    requires StateKey(i, subject) == StateKey(j, other)
    ensures i == j && subject == other
  {
    var a, b := Decimal.Digits(i), Decimal.Digits(j);
    Decimal.ValueOfDigits(i);
    Decimal.ValueOfDigits(j);
    var key := StateKey(i, subject);
    ConcatDivides(key, a, ':', subject);
    ConcatDivides(key, b, ':', other);
    FindAfterFree(key, a, ':', subject);
    FindAfterFree(key, b, ':', other);
    Decimal.DigitsInjective(i, j);
  }

  /** operator[]: an absent key reads as an unused bucket. */
  function BucketAt(buckets: Buckets, key: string): Bucket {
    if key in buckets then buckets[key] else UNUSED
  }

  // ----- Runs over the shared table -----

  datatype Call = Call(ruleIndex: nat, subject: string, now: real)

  ghost predicate CallsRules(rules: seq<Rule>, calls: seq<Call>) {
    forall k :: 0 <= k < |calls| ==> calls[k].ruleIndex < |rules|
  }

  function CallStep(rules: seq<Rule>, buckets: Buckets, call: Call): (Buckets, Verdict)
    requires call.ruleIndex < |rules|
  {
    var key := StateKey(call.ruleIndex, call.subject);
    var (after, verdict) := Check(rules[call.ruleIndex], BucketAt(buckets, key), call.now);
    (buckets[key := after], verdict)
  }

  ghost function TableAfter(rules: seq<Rule>, buckets: Buckets, calls: seq<Call>): Buckets
    requires CallsRules(rules, calls)
    decreases |calls|
  {
    if calls == [] then buckets else TableAfter(rules, CallStep(rules, buckets, calls[0]).0, calls[1..])
  }

  ghost function Verdicts(rules: seq<Rule>, buckets: Buckets, calls: seq<Call>): (v: seq<Verdict>)
    requires CallsRules(rules, calls)
    ensures |v| == |calls|
    decreases |calls|
  {
    if calls == [] then []
    else [CallStep(rules, buckets, calls[0]).1] + Verdicts(rules, CallStep(rules, buckets, calls[0]).0, calls[1..])
  }

  ghost predicate IsFor(call: Call, ruleIndex: nat, subject: string) {
    call.ruleIndex == ruleIndex && call.subject == subject
  }

  /** The timestamps of one pair's calls. */
  ghost function TimesOf(calls: seq<Call>, ruleIndex: nat, subject: string): seq<real> {
    if calls == [] then []
    else (if IsFor(calls[0], ruleIndex, subject) then [calls[0].now] else []) + TimesOf(calls[1..], ruleIndex, subject)
  }

  /** What one pair's calls were answered. */
  ghost function DecisionsOf(calls: seq<Call>, verdicts: seq<Verdict>, ruleIndex: nat, subject: string): seq<bool>
    requires |verdicts| == |calls|
  {
    if calls == [] then []
    else (if IsFor(calls[0], ruleIndex, subject) then [verdicts[0].Allowed?] else [])
         + DecisionsOf(calls[1..], verdicts[1..], ruleIndex, subject)
  }

  /**
   Isolation: what a (rule, subject) pair is answered in any interleaving over the shared table is
   what its own calls would be answered alone.
   */
  lemma {:induction false} BucketsAreIsolated(rules: seq<Rule>, buckets: Buckets, calls: seq<Call>, ruleIndex: nat, subject: string)
    requires CallsRules(rules, calls) && ruleIndex < |rules|
    ensures var g := BudgetOf(rules[ruleIndex]);
      var b := BucketAt(buckets, StateKey(ruleIndex, subject));
      var times := TimesOf(calls, ruleIndex, subject);
      && DecisionsOf(calls, Verdicts(rules, buckets, calls), ruleIndex, subject) == Decisions(g, b, times)
      && BucketAt(TableAfter(rules, buckets, calls), StateKey(ruleIndex, subject)) == After(g, b, times)
    decreases |calls|
  {
    if calls != [] {
      var call := calls[0];
      var (mid, verdict) := CallStep(rules, buckets, call);
      BucketsAreIsolated(rules, mid, calls[1..], ruleIndex, subject);
      var v := Verdicts(rules, buckets, calls);
      assert v[1..] == Verdicts(rules, mid, calls[1..]);
      if IsFor(call, ruleIndex, subject) {
        var rest := TimesOf(calls[1..], ruleIndex, subject);
        assert ([call.now] + rest)[1..] == rest;
      } else {
        if StateKey(call.ruleIndex, call.subject) == StateKey(ruleIndex, subject) {
          StateKeyInjective(call.ruleIndex, call.subject, ruleIndex, subject);
        }
        var rest := TimesOf(calls[1..], ruleIndex, subject);
        assert [] + rest == rest;
      }
    }
  }

  /** Deleting one pair's calls, or adding some, changes nothing another pair is answered. */
  lemma OtherPairsDoNotMatter(rules: seq<Rule>, calls: seq<Call>, others: seq<Call>, ruleIndex: nat, subject: string)
    requires CallsRules(rules, calls) && CallsRules(rules, others) && ruleIndex < |rules|
    requires TimesOf(calls, ruleIndex, subject) == TimesOf(others, ruleIndex, subject)
    ensures DecisionsOf(calls, Verdicts(rules, map[], calls), ruleIndex, subject)
         == DecisionsOf(others, Verdicts(rules, map[], others), ruleIndex, subject)
  {
    BucketsAreIsolated(rules, map[], calls, ruleIndex, subject);
    BucketsAreIsolated(rules, map[], others, ruleIndex, subject);
  }

  lemma {:induction false} TimesArePositive(calls: seq<Call>, ruleIndex: nat, subject: string)
    requires forall k :: 0 <= k < |calls| ==> calls[k].now > 0.0
    ensures Positive(TimesOf(calls, ruleIndex, subject))
  {
    if calls != [] {
      TimesArePositive(calls[1..], ruleIndex, subject);
    }
  }

  lemma AloneFromTheStart(rules: seq<Rule>, calls: seq<Call>, ruleIndex: nat, subject: string) returns (g: Budget)
    requires CallsRules(rules, calls) && ruleIndex < |rules| && RuleValid(rules[ruleIndex])
    ensures Follows(g, rules[ruleIndex])
    ensures var times := TimesOf(calls, ruleIndex, subject);
      && DecisionsOf(calls, Verdicts(rules, map[], calls), ruleIndex, subject) == Decisions(g, UNUSED, times)
      && BucketAt(TableAfter(rules, map[], calls), StateKey(ruleIndex, subject)) == After(g, UNUSED, times)
  {
    g := BudgetOf(rules[ruleIndex]);
    BudgetFollowsRule(rules[ruleIndex]);
    BucketsAreIsolated(rules, map[], calls, ruleIndex, subject);
  }

  lemma WholeRunBound(r: Rule, g: Budget, times: seq<real>) returns (growth: real)
    requires RuleValid(r) && Follows(g, r) && Positive(times) && times != []
    ensures growth == After(g, UNUSED, times).lastRefill - times[0]
    ensures Admissions(Decisions(g, UNUSED, times)) as real
         <= r.burst as real + r.limit as real * growth / r.windowSeconds as real
  {
    growth := SegmentRateBound(r, g, times, 0, |times|);
    assert times[..|times|] == times;
    assert Decisions(g, UNUSED, times)[0..|times|] == Decisions(g, UNUSED, times);
  }

  /** The rate bound for one pair in any interleaved run over the shared table. */
  lemma PairRateBound(rules: seq<Rule>, calls: seq<Call>, ruleIndex: nat, subject: string) returns (growth: real)
    requires CallsRules(rules, calls) && ruleIndex < |rules| && RuleValid(rules[ruleIndex])
    requires forall k :: 0 <= k < |calls| ==> calls[k].now > 0.0
    requires TimesOf(calls, ruleIndex, subject) != []
    ensures growth == BucketAt(TableAfter(rules, map[], calls), StateKey(ruleIndex, subject)).lastRefill
                    - TimesOf(calls, ruleIndex, subject)[0]
    ensures Admissions(DecisionsOf(calls, Verdicts(rules, map[], calls), ruleIndex, subject)) as real
         <= rules[ruleIndex].burst as real
            + rules[ruleIndex].limit as real * growth / rules[ruleIndex].windowSeconds as real
  {
    TimesArePositive(calls, ruleIndex, subject);
    var g := AloneFromTheStart(rules, calls, ruleIndex, subject);
    growth := WholeRunBound(rules[ruleIndex], g, TimesOf(calls, ruleIndex, subject));
  }

  // ----- Answering a request -----

  predicate MethodMatches(pattern: string, actual: string) {
    pattern == "*" || pattern == actual
  }

  predicate TargetMatches(kind: PatternKind, pattern: string, actual: string) {
    match kind
    case Exact => pattern == actual
    case Prefix => pattern <= actual
  }

  predicate RuleMatches(r: Rule, request: Request) {
    MethodMatches(r.methodPattern, request.verb) && TargetMatches(r.targetKind, r.targetPattern, request.target)
  }

  function Subject(request: Request, r: Rule): string {
    match r.key
    case Global => "global"
    case Header(name) =>
      match HeaderValue(request.headers, name)
      case None => "<anonymous>"
      case Some(value) => if value == "" then "<anonymous>" else value
  }

  datatype Answer = Pass(headers: seq<HeaderField>) | Respond(response: Response)

  function LimitedResponse(r: Rule, retryAfter: int): Response {
    var shown := if retryAfter > 0 then retryAfter else 1;
    var plain := TextResponse(429, "Too Many Requests", "rate limit exceeded\n");
    plain.(headers := [HeaderField("X-RateLimit-Limit", Decimal.IntText(r.limit)),
                       HeaderField("Retry-After", Decimal.IntText(shown)),
                       HeaderField("X-RateLimit-Reset", Decimal.IntText(r.windowSeconds))])
  }

  function RemainingText(b: Bucket): string {
    var whole := Truncated(b.tokens);
    Decimal.IntText(if whole < 0 then 0 else whole)
  }

  function PassHeaders(r: Rule, b: Bucket): seq<HeaderField> {
    [HeaderField("X-RateLimit-Limit", Decimal.IntText(r.limit)),
     HeaderField("X-RateLimit-Remaining", RemainingText(b)),
     HeaderField("X-RateLimit-Reset", Decimal.IntText(r.windowSeconds))]
  }

  class RateLimitModule {
    const rules: seq<Rule>
    var buckets: Buckets

    constructor (rules: seq<Rule>)
      ensures this.rules == rules && buckets == map[]
    {
      this.rules := rules;
      this.buckets := map[];
    }

    method CheckAndConsume(ruleIndex: nat, subject: string, now: real) returns (verdict: Verdict)
      requires ruleIndex < |rules|
      modifies this`buckets
      ensures (buckets, verdict) == CallStep(rules, old(buckets), Call(ruleIndex, subject, now))
    {
      var r, key := rules[ruleIndex], StateKey(ruleIndex, subject);
      var maxTokens := r.burst as real;
      var bucket := BucketAt(buckets, key);
      if bucket.lastRefill == 0.0 {
        bucket := Bucket(maxTokens, now);
      }
      var elapsed := now - bucket.lastRefill;
      if elapsed > 0.0 {
        bucket := Bucket(Min(bucket.tokens + elapsed * Rate(r), maxTokens), now);
      }
      if bucket.tokens >= 1.0 {
        bucket := bucket.(tokens := bucket.tokens - 1.0);
        verdict := Allowed;
      } else {
        verdict := Limited(RetryAfter(r, bucket.tokens));
      }
      buckets := buckets[key := bucket];
    }

    /** The calls that other threads make between two locks. */
    method ServeOthers(others: seq<Call>)
      requires CallsRules(rules, others)
      modifies this`buckets
      ensures buckets == TableAfter(rules, old(buckets), others)
    {
      for i := 0 to |others|
        invariant TableAfter(rules, buckets, others[i..]) == TableAfter(rules, old(buckets), others)
      {
        assert others[i..][0] == others[i] && others[i..][1..] == others[i + 1..];
        var _ := CheckAndConsume(others[i].ruleIndex, others[i].subject, others[i].now);
      }
    }

    /**
     The first matching rule decides. For an admitted request the lock is taken a second time to read
     what remains; `others` are the calls that came in between.
     */
    method Handle(request: Request, now: real, others: seq<Call>) returns (answer: Answer, applied: Option<nat>)
      requires CallsRules(rules, others)
      modifies this`buckets
      ensures applied.None? ==>
                && (forall i :: 0 <= i < |rules| ==> !RuleMatches(rules[i], request))
                && buckets == old(buckets) && answer == Pass([])
      ensures applied.Some? ==>
                && applied.value < |rules| && RuleMatches(rules[applied.value], request)
                && (forall i :: 0 <= i < applied.value ==> !RuleMatches(rules[i], request))
                && var r := rules[applied.value];
                   var subject := Subject(request, r);
                   var (after, verdict) := CallStep(rules, old(buckets), Call(applied.value, subject, now));
                   match verdict
                   case Allowed =>
                     && buckets == TableAfter(rules, after, others)
                     && answer == Pass(PassHeaders(r, BucketAt(buckets, StateKey(applied.value, subject))))
                   case Limited(retryAfter) =>
                     buckets == after && answer == Respond(LimitedResponse(r, retryAfter))
    {
      for i := 0 to |rules|
        invariant forall k :: 0 <= k < i ==> !RuleMatches(rules[k], request)
        invariant buckets == old(buckets)
      {
        var r := rules[i];
        if RuleMatches(r, request) {
          var subject := Subject(request, r);
          var verdict := CheckAndConsume(i, subject, now);
          match verdict {
            case Allowed =>
              ServeOthers(others);
              answer := Pass(PassHeaders(r, BucketAt(buckets, StateKey(i, subject))));
            case Limited(retryAfter) => answer := Respond(LimitedResponse(r, retryAfter));
          }
          return answer, Some(i);
        }
      }
      return Pass([]), None;
    }
  }
}
