/**
 The token-bucket rate limiter.

 Time is in seconds as an exact real, strictly positive: zero is the source's mark of a bucket
 never used. A request's timestamp is taken before the lock, so timestamps may reach a bucket in
 any order; nothing below assumes they increase.
 */
module RateLimit {
  import opened RuleText

  datatype KeyKind = Global | Header(name: string)

  datatype Rule = Rule(
    methodPattern: string,
    targetPattern: string,
    targetKind: PatternKind,
    key: KeyKind,
    limit: int,
    windowSeconds: int,
    burst: int)

  datatype Bucket = Bucket(tokens: real, lastRefill: real)

  datatype Verdict = Allowed | Limited(retryAfter: int)

  /** What the configuration reader guarantees of every rule. */
  predicate RuleValid(r: Rule) {
    1 <= r.limit <= r.burst && 1 <= r.windowSeconds
  }

  /** A map entry just inserted by operator[]. */
  const UNUSED: Bucket := Bucket(0.0, 0.0)

  function Min(x: real, y: real): real {
    if y < x then y else x
  }

  function Rate(r: Rule): real {
    r.limit as real / (if r.windowSeconds > 0 then r.windowSeconds else 1) as real
  }

  /** What a rule means for a bucket: the tokens earned in a span of time, and the most it holds. */
  datatype Budget = Budget(earn: real -> real, cap: real)

  function BudgetOf(r: Rule): Budget {
    Budget((elapsed: real) => elapsed * Rate(r), r.burst as real)
  }

  lemma RatePositive(r: Rule)
    requires RuleValid(r)
    ensures Rate(r) == r.limit as real / r.windowSeconds as real && Rate(r) > 0.0
  {
  }

  lemma Distributes(x: real, y: real, rate: real)
    ensures (x + y) * rate == x * rate + y * rate
  {
  }

  lemma StrictlyMonotone(x: real, y: real, rate: real)
    requires x < y && rate > 0.0
    ensures x * rate < y * rate
  {
  }

  ghost predicate EarnsSteadily(earn: real -> real, x: real, y: real) {
    earn(x + y) == earn(x) + earn(y) && (x > 0.0 ==> earn(x) > 0.0)
  }

  /** All the run theorems need of a rule: earning is additive and positive, and a full bucket holds a token. */
  ghost predicate Sound(g: Budget) {
    g.cap >= 1.0 && forall x: real, y: real :: EarnsSteadily(g.earn, x, y)
  }

  lemma RuleIsSound(r: Rule)
    requires RuleValid(r)
    ensures Sound(BudgetOf(r))
  {
    RatePositive(r);
    var g := BudgetOf(r);
    forall x: real, y: real ensures EarnsSteadily(g.earn, x, y) {
      Distributes(x, y, Rate(r));
      if x > 0.0 {
        StrictlyMonotone(0.0, x, Rate(r));
      }
    }
  }

  function Started(g: Budget, b: Bucket, now: real): Bucket {
    if b.lastRefill == 0.0 then Bucket(g.cap, now) else b
  }

  function Refilled(g: Budget, b: Bucket, now: real): Bucket {
    var elapsed := now - b.lastRefill;
    if elapsed > 0.0 then Bucket(Min(b.tokens + g.earn(elapsed), g.cap), now) else b
  }

  /** One request on a bucket: start it on first use, refill it, and take a token if there is one. */
  function Take(g: Budget, b: Bucket, now: real): (Bucket, bool) {
    var full := Refilled(g, Started(g, b, now), now);
    if full.tokens >= 1.0 then (full.(tokens := full.tokens - 1.0), true) else (full, false)
  }

  /** static_cast<int>: truncation towards zero. */
  function Truncated(x: real): int {
    if x >= 0.0 then x.Floor else -((-x).Floor)
  }

  function RetryAfter(r: Rule, tokens: real): int {
    var needed := 1.0 - tokens;
    if Rate(r) > 0.0 then
      var rounded := Truncated(needed / Rate(r) + 0.999);
      var atLeastOne := if rounded < 1 then 1 else rounded;
      if atLeastOne > r.windowSeconds then r.windowSeconds else atLeastOne
    else 1
  }

  /** check_and_consume on one bucket. */
  function Check(r: Rule, b: Bucket, now: real): (Bucket, Verdict) {
    var (after, taken) := Take(BudgetOf(r), b, now);
    (after, if taken then Allowed else Limited(RetryAfter(r, after.tokens)))
  }

  // ----- Runs on one bucket -----

  function After(g: Budget, b: Bucket, times: seq<real>): Bucket
    decreases |times|
  {
    if times == [] then b else After(g, Take(g, b, times[0]).0, times[1..])
  }

  function Decisions(g: Budget, b: Bucket, times: seq<real>): (d: seq<bool>)
    ensures |d| == |times|
    decreases |times|
  {
    if times == [] then []
    else [Take(g, b, times[0]).1] + Decisions(g, Take(g, b, times[0]).0, times[1..])
  }

  function Admissions(decisions: seq<bool>): nat {
    if decisions == [] then 0 else (if decisions[0] then 1 else 0) + Admissions(decisions[1..])
  }

  ghost predicate Positive(times: seq<real>) {
    forall i :: 0 <= i < |times| ==> times[i] > 0.0
  }

  /** A bucket that has been used: its level stays within the burst. */
  ghost predicate InUse(g: Budget, b: Bucket) {
    0.0 <= b.tokens <= g.cap && b.lastRefill > 0.0
  }

  ghost predicate BucketOk(g: Budget, b: Bucket) {
    b == UNUSED || InUse(g, b)
  }

  lemma Earning(g: Budget, x: real, y: real)
    requires Sound(g)
    ensures g.earn(x + y) == g.earn(x) + g.earn(y)
    ensures x >= 0.0 ==> g.earn(x) >= 0.0
    ensures x > 0.0 ==> g.earn(x) > 0.0
    ensures g.earn(0.0) == 0.0
  {
    assert EarnsSteadily(g.earn, x, y);
    assert EarnsSteadily(g.earn, 0.0, 0.0);
    assert 0.0 + 0.0 == 0.0;
  }

  /** Refilling in two stages is refilling once. */
  lemma RefillComposes(g: Budget, b: Bucket, middle: real, end: real)
    requires Sound(g) && b.lastRefill <= middle <= end && b.tokens <= g.cap
    ensures Refilled(g, Refilled(g, b, middle), end) == Refilled(g, b, end)
    ensures Refilled(g, b, middle).tokens <= Refilled(g, b, end).tokens
  {
    var x, y := middle - b.lastRefill, end - middle;
    Earning(g, x, y);
    Earning(g, y, x);
    assert x + y == end - b.lastRefill;
  }

  /** One request: levels stay within [0, burst], time does not go back, and tokens pay for admissions. */
  lemma TakeKeepsLevel(g: Budget, b: Bucket, now: real)
    requires Sound(g) && BucketOk(g, b) && now > 0.0
    ensures var (after, taken) := Take(g, b, now);
      && InUse(g, after)
      && after.lastRefill == (if now > b.lastRefill then now else b.lastRefill)
      && (b == UNUSED ==> taken)
      && after.tokens + (if taken then 1.0 else 0.0)
           <= (if b == UNUSED then g.cap else b.tokens + g.earn(after.lastRefill - b.lastRefill))
  {
    Earning(g, now - b.lastRefill, 0.0);
  }

  /** The level is in [0, burst] throughout, and last_refill is the latest timestamp seen. */
  lemma {:induction false} LevelWithinBurst(g: Budget, b: Bucket, times: seq<real>)
    requires Sound(g) && BucketOk(g, b) && Positive(times)
    ensures var end := After(g, b, times);
      && (times != [] || b != UNUSED ==> InUse(g, end))
      && end.lastRefill >= b.lastRefill
      && (end.lastRefill == b.lastRefill || end.lastRefill in times)
      && forall i :: 0 <= i < |times| ==> times[i] <= end.lastRefill
    decreases |times|
  {
    if times != [] {
      TakeKeepsLevel(g, b, times[0]);
      LevelWithinBurst(g, Take(g, b, times[0]).0, times[1..]);
      forall i | 0 <= i < |times| ensures times[i] <= After(g, b, times).lastRefill {
        if i > 0 {
          assert times[i] == times[1..][i - 1];
        }
      }
    }
  }

  /** Admissions are paid from the tokens at hand and those refilled since. */
  lemma {:induction false} RateBound(g: Budget, b: Bucket, times: seq<real>)
    requires Sound(g) && InUse(g, b) && Positive(times)
    ensures Admissions(Decisions(g, b, times)) as real + After(g, b, times).tokens
         <= b.tokens + g.earn(After(g, b, times).lastRefill - b.lastRefill)
    decreases |times|
  {
    if times != [] {
      TakeKeepsLevel(g, b, times[0]);
      var mid := Take(g, b, times[0]).0;
      RateBound(g, mid, times[1..]);
      var d := Decisions(g, b, times);
      assert d[1..] == Decisions(g, mid, times[1..]);
      var end := After(g, b, times);
      Earning(g, mid.lastRefill - b.lastRefill, end.lastRefill - mid.lastRefill);
      assert mid.lastRefill - b.lastRefill + (end.lastRefill - mid.lastRefill) == end.lastRefill - b.lastRefill;
    } else {
      Earning(g, 0.0, 0.0);
    }
  }

  lemma {:induction false} RunSplits(g: Budget, b: Bucket, first: seq<real>, second: seq<real>)
    ensures After(g, b, first + second) == After(g, After(g, b, first), second)
    ensures Decisions(g, b, first + second) == Decisions(g, b, first) + Decisions(g, After(g, b, first), second)
    decreases |first|
  {
    if first == [] {
      assert first + second == second;
    } else {
      assert (first + second)[1..] == first[1..] + second;
      RunSplits(g, Take(g, b, first[0]).0, first[1..], second);
    }
  }

  lemma BoundFrom(g: Budget, b: Bucket, segment: seq<real>)
    requires Sound(g) && BucketOk(g, b) && Positive(segment) && segment != []
    ensures var start := if b == UNUSED then segment[0] else b.lastRefill;
      var end := After(g, b, segment).lastRefill;
      start <= end && Admissions(Decisions(g, b, segment)) as real <= g.cap + g.earn(end - start)
  {
    LevelWithinBurst(g, b, segment);
    if b == UNUSED {
      TakeKeepsLevel(g, b, segment[0]);
      var mid := Take(g, b, segment[0]).0;
      RateBound(g, mid, segment[1..]);
      LevelWithinBurst(g, mid, segment[1..]);
      assert Decisions(g, b, segment)[1..] == Decisions(g, mid, segment[1..]);
    } else {
      RateBound(g, b, segment);
    }
  }

  ghost predicate Earns(g: Budget, span: real, limit: int, windowSeconds: int)
    requires windowSeconds > 0
  {
    g.earn(span) == limit as real * span / windowSeconds as real
  }

  ghost predicate Follows(g: Budget, r: Rule)
    requires RuleValid(r)
  {
    Sound(g) && g.cap == r.burst as real && forall span: real :: Earns(g, span, r.limit, r.windowSeconds)
  }

  lemma RateAsFraction(r: Rule, growth: real)
    requires RuleValid(r)
    ensures growth * Rate(r) == r.limit as real * growth / r.windowSeconds as real
  {
  }

  lemma BudgetFollowsRule(r: Rule)
    requires RuleValid(r)
    ensures Follows(BudgetOf(r), r)
  {
    RuleIsSound(r);
    forall span: real ensures Earns(BudgetOf(r), span, r.limit, r.windowSeconds) {
      RateAsFraction(r, span);
    }
  }

  lemma Partition(times: seq<real>, from: nat, to: nat)
    requires from <= to <= |times|
    ensures times[..from] + times[from..to] == times[..to] && times[..to] + times[to..] == times
  {
  }

  lemma MiddlePart(all: seq<bool>, a: seq<bool>, b: seq<bool>, c: seq<bool>)
    requires all == a + b + c
    ensures all[|a|..|a| + |b|] == b
  {
  }

  lemma SegmentOf(g: Budget, times: seq<real>, from: nat, to: nat) returns (growth: real)
    requires Sound(g) && Positive(times) && from < to <= |times|
    ensures growth == After(g, UNUSED, times[..to]).lastRefill
                    - if from == 0 then times[0] else After(g, UNUSED, times[..from]).lastRefill
    ensures 0.0 <= growth
    ensures Admissions(Decisions(g, UNUSED, times)[from..to]) as real <= g.cap + g.earn(growth)
  {
    var b := After(g, UNUSED, times[..from]);
    var segment := times[from..to];
    Partition(times, from, to);
    RunSplits(g, UNUSED, times[..to], times[to..]);
    RunSplits(g, UNUSED, times[..from], segment);
    MiddlePart(Decisions(g, UNUSED, times), Decisions(g, UNUSED, times[..from]), Decisions(g, b, segment),
               Decisions(g, After(g, UNUSED, times[..to]), times[to..]));
    LevelWithinBurst(g, UNUSED, times[..from]);
    BoundFrom(g, b, segment);
    growth := After(g, b, segment).lastRefill - if from == 0 then segment[0] else b.lastRefill;
  }

  /**
   The rate bound on any segment of any run from an unused bucket, with timestamps in any order:
   at most burst + limit * (growth of last_refill over the segment) / window admissions. For the
   segment that starts the run, growth is counted from its first timestamp.
   */
  lemma SegmentRateBound(r: Rule, g: Budget, times: seq<real>, from: nat, to: nat) returns (growth: real)
    requires RuleValid(r) && Follows(g, r) && Positive(times) && from < to <= |times|
    ensures growth == After(g, UNUSED, times[..to]).lastRefill
                    - if from == 0 then times[0] else After(g, UNUSED, times[..from]).lastRefill
    ensures 0.0 <= growth
    ensures Admissions(Decisions(g, UNUSED, times)[from..to]) as real
         <= r.burst as real + r.limit as real * growth / r.windowSeconds as real
  {
    growth := SegmentOf(g, times, from, to);
    assert Earns(g, growth, r.limit, r.windowSeconds);
  }

  // ----- Rejected requests leave no trace -----

  /** `full` is `lazy` after refills that `lazy` has not made yet, with too little in it to matter. */
  ghost predicate Shadows(g: Budget, full: Bucket, lazy: Bucket) {
    || full == lazy
    || (full.tokens < 1.0 && lazy.lastRefill <= full.lastRefill && full == Refilled(g, lazy, full.lastRefill))
  }

  lemma ShadowStep(g: Budget, full: Bucket, lazy: Bucket, now: real)
    requires Sound(g) && InUse(g, full) && InUse(g, lazy) && now > 0.0 && Shadows(g, full, lazy)
    ensures Take(g, full, now).1 == Take(g, lazy, now).1
    ensures Shadows(g, Take(g, full, now).0, Take(g, lazy, now).0)
  {
    if full != lazy {
      if now >= full.lastRefill {
        RefillComposes(g, lazy, full.lastRefill, now);
      } else if now > lazy.lastRefill {
        RefillComposes(g, lazy, now, full.lastRefill);
      } else {
        RefillComposes(g, lazy, lazy.lastRefill, full.lastRefill);
      }
    }
  }

  lemma {:induction false} ShadowRun(g: Budget, full: Bucket, lazy: Bucket, times: seq<real>)
    requires Sound(g) && InUse(g, full) && InUse(g, lazy) && Positive(times) && Shadows(g, full, lazy)
    ensures Decisions(g, full, times) == Decisions(g, lazy, times)
    ensures Shadows(g, After(g, full, times), After(g, lazy, times))
    decreases |times|
  {
    if times != [] {
      ShadowStep(g, full, lazy, times[0]);
      TakeKeepsLevel(g, full, times[0]);
      TakeKeepsLevel(g, lazy, times[0]);
      ShadowRun(g, Take(g, full, times[0]).0, Take(g, lazy, times[0]).0, times[1..]);
    }
  }

  lemma RejectedIsShadow(g: Budget, b: Bucket, now: real)
    requires Sound(g) && BucketOk(g, b) && now > 0.0
    requires !Take(g, b, now).1
    ensures InUse(g, b) && Shadows(g, Take(g, b, now).0, b)
  {
    TakeKeepsLevel(g, b, now);
  }

  lemma FirstDecision(g: Budget, b: Bucket, now: real, later: seq<real>)
    ensures Decisions(g, b, [now] + later) == [Take(g, b, now).1] + Decisions(g, Take(g, b, now).0, later)
  {
    assert ([now] + later)[1..] == later;
  }

  lemma DropOne(all: seq<bool>, before: seq<bool>, d: bool, later: seq<bool>)
    requires all == before + ([d] + later)
    ensures all[..|before|] + all[|before| + 1..] == before + later
  {
  }

  /** Deleting a rejected request from a run changes no other decision, whatever the order of timestamps. */
  lemma RejectionIsUnobservable(g: Budget, b: Bucket, times: seq<real>, k: nat)
    requires Sound(g) && BucketOk(g, b) && Positive(times)
    requires k < |times| && !Decisions(g, b, times)[k]
    ensures Decisions(g, b, times[..k] + times[k + 1..])
         == Decisions(g, b, times)[..k] + Decisions(g, b, times)[k + 1..]
  {
    var before, later := times[..k], times[k + 1..];
    var at := After(g, b, before);
    assert times == before + ([times[k]] + later);
    RunSplits(g, b, before, [times[k]] + later);
    RunSplits(g, b, before, later);
    LevelWithinBurst(g, b, before);
    FirstDecision(g, at, times[k], later);
    DropOne(Decisions(g, b, times), Decisions(g, b, before), Take(g, at, times[k]).1, Decisions(g, Take(g, at, times[k]).0, later));
    RejectedIsShadow(g, at, times[k]);
    TakeKeepsLevel(g, at, times[k]);
    ShadowRun(g, Take(g, at, times[k]).0, at, later);
  }

  function Admitted(times: seq<real>, decisions: seq<bool>): seq<real>
    requires |times| == |decisions|
  {
    if times == [] then []
    else (if decisions[0] then [times[0]] else []) + Admitted(times[1..], decisions[1..])
  }

  predicate AllAdmitted(decisions: seq<bool>) {
    forall i :: 0 <= i < |decisions| ==> decisions[i]
  }

  lemma {:induction false} AdmittedPositive(times: seq<real>, decisions: seq<bool>)
    requires |times| == |decisions| && Positive(times)
    ensures Positive(Admitted(times, decisions))
  {
    if times != [] {
      AdmittedPositive(times[1..], decisions[1..]);
    }
  }

  /** A run is decided by its admitted requests alone: on their own they are all admitted. */
  lemma {:induction false} AdmittedAloneAreAdmitted(g: Budget, b: Bucket, times: seq<real>)
    requires Sound(g) && BucketOk(g, b) && Positive(times)
    ensures AllAdmitted(Decisions(g, b, Admitted(times, Decisions(g, b, times))))
    decreases |times|
  {
    if times != [] {
      var d := Decisions(g, b, times);
      var mid := Take(g, b, times[0]).0;
      TakeKeepsLevel(g, b, times[0]);
      assert d[1..] == Decisions(g, mid, times[1..]);
      AdmittedAloneAreAdmitted(g, mid, times[1..]);
      var kept := Admitted(times[1..], Decisions(g, mid, times[1..]));
      assert Admitted(times, d) == (if d[0] then [times[0]] else []) + kept;
      if d[0] {
        assert ([times[0]] + kept)[1..] == kept;
        assert Decisions(g, b, [times[0]] + kept) == [true] + Decisions(g, mid, kept);
      } else {
        RejectedIsShadow(g, b, times[0]);
        AdmittedPositive(times[1..], Decisions(g, mid, times[1..]));
        ShadowRun(g, mid, b, kept);
        assert [] + kept == kept;
      }
    }
  }

  lemma ShadowedRejection(g: Budget, full: Bucket, lazy: Bucket, now: real)
    requires Sound(g) && InUse(g, full) && InUse(g, lazy) && now > 0.0 && Shadows(g, full, lazy)
    requires !Take(g, full, now).1
    ensures Shadows(g, Take(g, full, now).0, lazy)
  {
    if now > full.lastRefill {
      RefillComposes(g, lazy, full.lastRefill, now);
    }
  }

  lemma {:induction false} RejectedPollsShadow(g: Budget, b: Bucket, polls: seq<real>)
    requires Sound(g) && InUse(g, b) && Positive(polls)
    requires forall i :: 0 <= i < |polls| ==> !Decisions(g, b, polls)[i]
    ensures Shadows(g, After(g, b, polls), b)
  {
    if polls != [] {
      var rest, last := polls[..|polls| - 1], polls[|polls| - 1];
      assert polls == rest + [last];
      RunSplits(g, b, rest, [last]);
      forall i | 0 <= i < |rest| ensures !Decisions(g, b, rest)[i] {
        assert Decisions(g, b, rest)[i] == Decisions(g, b, polls)[i];
      }
      RejectedPollsShadow(g, b, rest);
      LevelWithinBurst(g, b, rest);
      assert Decisions(g, b, polls)[|rest|] == Decisions(g, After(g, b, rest), [last])[0];
      ShadowedRejection(g, After(g, b, rest), b, last);
    }
  }

  // ----- Retry-After -----

  /** The time a limited bucket really needs until its next whole token. */
  ghost function ExactWait(r: Rule, tokens: real): real
    requires RuleValid(r)
  {
    (1.0 - tokens) * r.windowSeconds as real / r.limit as real
  }

  lemma RefilledAfter(r: Rule, b: Bucket, wait: real)
    requires b.lastRefill > 0.0 && wait > 0.0
    ensures Refilled(BudgetOf(r), b, b.lastRefill + wait).tokens == Min(b.tokens + wait * Rate(r), r.burst as real)
  {
  }

  lemma CompareWaits(x: real, y: real, rate: real)
    requires rate > 0.0
    ensures x >= y <==> x * rate >= y * rate
  {
    if x > y {
      StrictlyMonotone(y, x, rate);
    } else if x < y {
      StrictlyMonotone(x, y, rate);
    }
  }

  lemma WaitEarnsToken(needed: real, window: real, limit: real, wait: real, rate: real)
    requires window > 0.0 && limit > 0.0 && wait * limit == needed * window && rate * window == limit
    ensures wait * rate == needed
  {
    assert (wait * rate) * window == wait * (rate * window);
  }

  lemma ExactWaitEarns(r: Rule, tokens: real)
    requires RuleValid(r)
    ensures ExactWait(r, tokens) * Rate(r) == 1.0 - tokens
  {
    RatePositive(r);
    WaitEarnsToken(1.0 - tokens, r.windowSeconds as real, r.limit as real, ExactWait(r, tokens), Rate(r));
  }

  /** `ExactWait` is exact: the next request is admitted if and only if it waits that long. */
  lemma ExactWaitIsExact(r: Rule, b: Bucket, wait: real)
    requires RuleValid(r) && InUse(BudgetOf(r), b) && b.tokens < 1.0 && wait > 0.0
    ensures Check(r, b, b.lastRefill + wait).1.Allowed? <==> wait >= ExactWait(r, b.tokens)
  {
    var rate := Rate(r);
    RatePositive(r);
    ExactWaitEarns(r, b.tokens);
    CompareWaits(wait, ExactWait(r, b.tokens), rate);
    RefilledAfter(r, b, wait);
  }

  lemma WaitWithinWindow(r: Rule, tokens: real)
    requires RuleValid(r) && 0.0 <= tokens < 1.0
    ensures 0.0 < ExactWait(r, tokens) <= r.windowSeconds as real
  {
    var w, l := r.windowSeconds as real, r.limit as real;
    assert 0.0 < (1.0 - tokens) * w <= w;
    assert w / l <= w;
  }

  /** The retry hint is the rounded exact wait; the clamp to the window never bites. */
  lemma RetryAfterIsRounded(r: Rule, tokens: real)
    requires RuleValid(r) && 0.0 <= tokens < 1.0
    ensures 0.0 < ExactWait(r, tokens) <= r.windowSeconds as real
    ensures var rounded := (ExactWait(r, tokens) + 0.999).Floor;
      RetryAfter(r, tokens) == if rounded < 1 then 1 else rounded
  {
    RatePositive(r);
    RuleIsSound(r);
    var exact := ExactWait(r, tokens);
    assert (1.0 - tokens) / Rate(r) == exact;
    WaitWithinWindow(r, tokens);
  }

  /** Tight: the hint is less than a second above the exact wait, and never above the window. */
  lemma RetryAfterTight(r: Rule, tokens: real)
    requires RuleValid(r) && 0.0 <= tokens < 1.0
    ensures RetryAfter(r, tokens) as real < ExactWait(r, tokens) + 1.0
    ensures 1 <= RetryAfter(r, tokens) <= r.windowSeconds
  {
    RetryAfterIsRounded(r, tokens);
  }

  /** Sound: a client that waits the hint and a millisecond is admitted, if no one else took the token. */
  lemma RetryAfterSound(r: Rule, b: Bucket, now: real, later: real)
    requires RuleValid(r) && BucketOk(BudgetOf(r), b) && now > 0.0 && Check(r, b, now).1.Limited?
    requires later >= Check(r, b, now).0.lastRefill + Check(r, b, now).1.retryAfter as real + 0.001
    ensures Check(r, Check(r, b, now).0, later).1.Allowed?
  {
    RuleIsSound(r);
    TakeKeepsLevel(BudgetOf(r), b, now);
    var limited := Check(r, b, now).0;
    RetryAfterIsRounded(r, limited.tokens);
    ExactWaitIsExact(r, limited, later - limited.lastRefill);
  }

  /** Polling meanwhile costs the client nothing: rejected polls do not push the admission back. */
  lemma RetryAfterSoundDespitePolling(r: Rule, b: Bucket, now: real, polls: seq<real>, later: real)
    requires RuleValid(r) && BucketOk(BudgetOf(r), b) && now > 0.0 && Check(r, b, now).1.Limited? && Positive(polls)
    requires later >= Check(r, b, now).0.lastRefill + Check(r, b, now).1.retryAfter as real + 0.001
    requires forall i :: 0 <= i < |polls| ==> !Decisions(BudgetOf(r), Check(r, b, now).0, polls)[i]
    ensures Check(r, After(BudgetOf(r), Check(r, b, now).0, polls), later).1.Allowed?
  {
    RuleIsSound(r);
    TakeKeepsLevel(BudgetOf(r), b, now);
    RetryAfterSound(r, b, now, later);
    var limited := Check(r, b, now).0;
    RejectedPollsShadow(BudgetOf(r), limited, polls);
    LevelWithinBurst(BudgetOf(r), limited, polls);
    ShadowStep(BudgetOf(r), After(BudgetOf(r), limited, polls), limited, later);
  }

  lemma RoundedUpEnough(exact: real, hint: int)
    requires exact > 0.0
    requires var rounded := (exact + 0.999).Floor; hint == if rounded < 1 then 1 else rounded
    ensures hint as real >= exact
            <==> exact.Floor == 0 || exact - exact.Floor as real == 0.0 || exact - exact.Floor as real >= 0.001
  {
    var whole := exact.Floor;
    var excess := exact - whole as real;
    if excess < 0.001 {
      assert (exact + 0.999).Floor == whole;
    } else {
      assert (exact + 0.999).Floor == whole + 1;
    }
  }

  /**
   Waiting the hint alone is not always enough: it suffices exactly unless the exact wait exceeds a
   whole number of seconds (at least one) by less than a millisecond.
   */
  lemma HintAloneSuffices(r: Rule, b: Bucket)
    requires RuleValid(r) && InUse(BudgetOf(r), b) && b.tokens < 1.0
    ensures var exact := ExactWait(r, b.tokens);
      var excess := exact - exact.Floor as real;
      Check(r, b, b.lastRefill + RetryAfter(r, b.tokens) as real).1.Allowed?
      <==> exact.Floor == 0 || excess == 0.0 || excess >= 0.001
  {
    RetryAfterIsRounded(r, b.tokens);
    RetryAfterTight(r, b.tokens);
    ExactWaitIsExact(r, b, RetryAfter(r, b.tokens) as real);
    RoundedUpEnough(ExactWait(r, b.tokens), RetryAfter(r, b.tokens));
  }

  /** Such a case is reachable: the third request waits the 1000 s it was told and is limited again. */
  lemma HintAloneMayFail()
    ensures var r := Rule("*", "/", Prefix, Global, 1, 10000, 1);
      var times := [5.0, 9004.9995, 10004.9995];
      && RuleValid(r)
      && Check(r, After(BudgetOf(r), UNUSED, times[..1]), times[1]).1 == Limited(1000)
      && Decisions(BudgetOf(r), UNUSED, times) == [true, false, false]
  {
    var r := Rule("*", "/", Prefix, Global, 1, 10000, 1);
    var b1, b2 := Bucket(0.0, 5.0), Bucket(0.89999995, 9004.9995);
    assert Rate(r) == 0.0001;
    assert Check(r, UNUSED, 5.0) == (b1, Allowed);
    assert [5.0, 9004.9995, 10004.9995][..1] == [5.0];
    assert After(BudgetOf(r), UNUSED, [5.0]) == b1;
    RetryAfterIsRounded(r, 0.89999995);
    assert Check(r, b1, 9004.9995) == (b2, Limited(1000));
    assert Check(r, b2, 10004.9995).1.Limited?;
    assert [5.0, 9004.9995, 10004.9995][1..] == [9004.9995, 10004.9995];
    assert [9004.9995, 10004.9995][1..] == [10004.9995];
    assert Decisions(BudgetOf(r), b2, [10004.9995]) == [false];
    assert Decisions(BudgetOf(r), b1, [9004.9995, 10004.9995]) == [false, false];
  }
}
