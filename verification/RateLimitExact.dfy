/**
 What the token bucket decides, said without a bucket: a request is admitted if and only if no stretch
 of the run that ends with it holds more admissions than the burst and the rate allow.
 */
module RateLimitExact {
  import opened RateLimit

  /** The bucket that the k-th request of a run finds, refilled to its time. */
  function Found(g: Budget, times: seq<real>, k: nat): Bucket
    requires k < |times|
  {
    Refilled(g, Started(g, After(g, UNUSED, times[..k]), times[k]), times[k])
  }

  lemma StepAt(g: Budget, times: seq<real>, k: nat)
    requires k < |times|
    ensures After(g, UNUSED, times[..k + 1]) == Take(g, After(g, UNUSED, times[..k]), times[k]).0
    ensures Decisions(g, UNUSED, times)[k] <==> Found(g, times, k).tokens >= 1.0
  {
    var before := times[..k];
    assert times[..k + 1] == before + [times[k]] && times == before + ([times[k]] + times[k + 1..]);
    RunSplits(g, UNUSED, before, [times[k]]);
    RunSplits(g, UNUSED, before, [times[k]] + times[k + 1..]);
    FirstDecision(g, After(g, UNUSED, before), times[k], times[k + 1..]);
    assert [times[k]][1..] == [];
  }

  lemma FirstFound(g: Budget, times: seq<real>)
    requires Sound(g) && Positive(times) && times != []
    ensures Found(g, times, 0) == Bucket(g.cap, times[0])
  {
  }

  function Taken(g: Budget, times: seq<real>, k: nat): real
    requires k < |times|
  {
    if Decisions(g, UNUSED, times)[k] then 1.0 else 0.0
  }

  lemma NextFound(g: Budget, times: seq<real>, k: nat)
    requires Sound(g) && Positive(times) && k + 1 < |times|
    ensures var a, b := Found(g, times, k), Found(g, times, k + 1);
      && a.lastRefill <= b.lastRefill
      && b.tokens == Min(a.tokens - Taken(g, times, k) + g.earn(b.lastRefill - a.lastRefill), g.cap)
  {
    StepAt(g, times, k);
    LevelWithinBurst(g, UNUSED, times[..k + 1]);
    Earning(g, 0.0, 0.0);
    var after := After(g, UNUSED, times[..k + 1]);
    assert InUse(g, after) && Started(g, after, times[k + 1]) == after;
  }

  /** What a bucket that is full when the j-th request finds it holds at the k-th, if it never overflows in between. */
  function Charged(g: Budget, times: seq<real>, j: nat, k: nat): real
    requires j <= k < |times|
  {
    g.cap + g.earn(Found(g, times, k).lastRefill - Found(g, times, j).lastRefill)
    - Admissions(Decisions(g, UNUSED, times)[j..k]) as real
  }

  lemma {:induction false} AdmissionsOfConcat(a: seq<bool>, b: seq<bool>)
    ensures Admissions(a + b) == Admissions(a) + Admissions(b)
  {
    if a == [] {
      assert a + b == b;
    } else {
      assert (a + b)[1..] == a[1..] + b;
      AdmissionsOfConcat(a[1..], b);
    }
  }

  lemma ChargedHere(g: Budget, times: seq<real>, k: nat)
    requires Sound(g) && k < |times|
    ensures Charged(g, times, k, k) == g.cap
  {
    Earning(g, 0.0, 0.0);
    assert Decisions(g, UNUSED, times)[k..k] == [];
  }

  lemma ChargedNext(g: Budget, times: seq<real>, j: nat, k: nat)
    requires Sound(g) && j <= k && k + 1 < |times|
    ensures Charged(g, times, j, k + 1)
         == Charged(g, times, j, k) - Taken(g, times, k)
            + g.earn(Found(g, times, k + 1).lastRefill - Found(g, times, k).lastRefill)
  {
    var d := Decisions(g, UNUSED, times);
    assert d[j..k + 1] == d[j..k] + [d[k]];
    AdmissionsOfConcat(d[j..k], [d[k]]);
    assert [d[k]][1..] == [];
    var start, here, there :=
      Found(g, times, j).lastRefill, Found(g, times, k).lastRefill, Found(g, times, k + 1).lastRefill;
    Earning(g, here - start, there - here);
    assert (here - start) + (there - here) == there - start;
  }

  /** The level a request finds is the least that any full bucket of the past would have come to; it was full at `full`. */
  lemma {:induction false} LevelIsLeastCharge(g: Budget, times: seq<real>, k: nat) returns (full: nat)
    requires Sound(g) && Positive(times) && k < |times|
    ensures full <= k && Found(g, times, k).tokens == Charged(g, times, full, k)
    ensures forall j :: 0 <= j <= k ==> Found(g, times, k).tokens <= Charged(g, times, j, k)
  {
    ChargedHere(g, times, k);
    if k == 0 {
      FirstFound(g, times);
      full := 0;
    } else {
      full := LevelIsLeastCharge(g, times, k - 1);
      NextFound(g, times, k - 1);
      forall j | 0 <= j < k
        ensures Found(g, times, k).tokens <= Charged(g, times, j, k)
      {
        ChargedNext(g, times, j, k - 1);
      }
      ChargedNext(g, times, full, k - 1);
      if Found(g, times, k).tokens == g.cap {
        full := k;
      }
    }
  }

  /**
   A request is admitted if and only if, in every stretch of the run that ends with it, the admissions
   with it are at most the cap and what the refill point's growth over the stretch earned.
   */
  lemma AdmittedExactly(g: Budget, times: seq<real>, k: nat)
    requires Sound(g) && Positive(times) && k < |times|
    ensures Decisions(g, UNUSED, times)[k] <==>
      forall j :: 0 <= j <= k ==> Charged(g, times, j, k) >= 1.0
  {
    var full := LevelIsLeastCharge(g, times, k);
    StepAt(g, times, k);
  }

  function Allowance(r: Rule, growth: real): real
    requires RuleValid(r)
  {
    r.burst as real + r.limit as real * growth / r.windowSeconds as real
  }

  lemma AllowanceIsEarned(r: Rule, g: Budget, growth: real)
    requires RuleValid(r) && Follows(g, r)
    ensures Allowance(r, growth) == g.cap + g.earn(growth)
  {
    assert Earns(g, growth, r.limit, r.windowSeconds);
  }

  ghost predicate StretchAllowsOneMore(r: Rule, g: Budget, times: seq<real>, j: nat, k: nat)
    requires RuleValid(r) && j <= k < |times|
  {
    Admissions(Decisions(g, UNUSED, times)[j..k]) as real + 1.0
    <= Allowance(r, Found(g, times, k).lastRefill - Found(g, times, j).lastRefill)
  }

  lemma StretchIsCharge(r: Rule, g: Budget, times: seq<real>, j: nat, k: nat)
    requires RuleValid(r) && Follows(g, r) && j <= k < |times|
    ensures StretchAllowsOneMore(r, g, times, j, k) <==> Charged(g, times, j, k) >= 1.0
  {
    AllowanceIsEarned(r, g, Found(g, times, k).lastRefill - Found(g, times, j).lastRefill);
  }

  /** For a rule: the burst, and limit * growth / window. A rejection is forced by some stretch, an admission allowed by all. */
  lemma AdmittedExactlyByRule(r: Rule, g: Budget, times: seq<real>, k: nat)
    requires RuleValid(r) && Follows(g, r) && Positive(times) && k < |times|
    ensures Decisions(g, UNUSED, times)[k] <==>
      forall j :: 0 <= j <= k ==> StretchAllowsOneMore(r, g, times, j, k)
  {
    AdmittedExactly(g, times, k);
    forall j | 0 <= j <= k
      ensures StretchAllowsOneMore(r, g, times, j, k) <==> Charged(g, times, j, k) >= 1.0
    {
      StretchIsCharge(r, g, times, j, k);
    }
  }

  // ----- Requests at one instant -----

  function Repeated(now: real, n: nat): (times: seq<real>)
    ensures |times| == n
  {
    if n == 0 then [] else [now] + Repeated(now, n - 1)
  }

  /** Requests that bring no refill are admitted as long as there are whole tokens, and no longer. */
  lemma {:induction false} AtOneInstant(g: Budget, b: Bucket, now: real, n: nat)
    requires InUse(g, b) && now <= b.lastRefill
    ensures Admissions(Decisions(g, b, Repeated(now, n))) == if n as real <= b.tokens then n else b.tokens.Floor
    decreases n
  {
    if n > 0 {
      var (after, taken) := Take(g, b, now);
      var d := Decisions(g, after, Repeated(now, n - 1));
      assert Repeated(now, n)[1..] == Repeated(now, n - 1);
      assert Decisions(g, b, Repeated(now, n)) == [taken] + d;
      assert ([taken] + d)[1..] == d;
      AtOneInstant(g, after, now, n - 1);
    }
  }

  /** A new subject may spend the whole burst at once, and no more. */
  lemma BurstAtOnce(r: Rule, now: real, n: nat)
    requires RuleValid(r) && now > 0.0
    ensures Admissions(Decisions(BudgetOf(r), UNUSED, Repeated(now, n))) == if n <= r.burst then n else r.burst
  {
    if n > 0 {
      var g := BudgetOf(r);
      var full := Bucket(g.cap, now);
      assert Repeated(now, n)[1..] == Repeated(now, n - 1);
      assert Take(g, UNUSED, now) == Take(g, full, now);
      assert Decisions(g, UNUSED, Repeated(now, n)) == Decisions(g, full, Repeated(now, n));
      AtOneInstant(g, full, now, n);
    }
  }
}
