/** What the rate limiter's rules mean for requests, and what its answers tell a client. */
module RateLimitReplies {
  import opened Wrappers
  import opened Text
  import opened Messages
  import opened RuleText
  import opened RateLimit
  import opened RateLimitExact
  import opened RateLimiter
  import opened HttpResponse
  import opened ResponseReading
  import Decimal

  ghost predicate Continues(stem: string, rest: string, target: string) {
    target == stem + rest
  }

  ghost predicate StartsWith(target: string, stem: string) {
    exists rest :: Continues(stem, rest, target)
  }

  /** A pattern as written in a rule: a '*' at its end stands for anything, all else for itself. */
  ghost predicate PatternCovers(pattern: string, target: string) {
    if pattern != "" && pattern[|pattern| - 1] == '*' then
      StartsWith(target, pattern[..|pattern| - 1])
    else target == pattern
  }

  lemma PrefixIsStart(stem: string, target: string)
    ensures stem <= target <==> StartsWith(target, stem)
  {
    if stem <= target {
      assert Continues(stem, target[|stem|..], target);
    }
  }

  lemma RuleAppliesAsWritten(r: Rule, pattern: string, request: Request)
    requires (r.targetKind, r.targetPattern) == ClassifyTarget(pattern)
    ensures RuleMatches(r, request) <==>
            (r.methodPattern == "*" || r.methodPattern == request.verb) && PatternCovers(pattern, request.target)
  {
    if r.targetKind.Prefix? {
      PrefixIsStart(r.targetPattern, request.target);
    }
  }

  const ANONYMOUS: string := "<anonymous>"

  /** Whom a rule counts a request for: everybody alike, or the value of the header it names. */
  function CountedFor(r: Rule, request: Request): Option<string> {
    match r.key
    case Global => None
    case Header(name) =>
      match HeaderValue(request.headers, name)
      case None => Some(ANONYMOUS)
      case Some(value) => Some(if value == "" then ANONYMOUS else value)
  }

  /** Two requests share a bucket if and only if they fall under the same rule and it counts them for the same. */
  lemma SameBucketExactly(rules: seq<Rule>, i: nat, a: Request, j: nat, b: Request)
    requires i < |rules| && j < |rules|
    ensures StateKey(i, Subject(a, rules[i])) == StateKey(j, Subject(b, rules[j]))
            <==> i == j && CountedFor(rules[i], a) == CountedFor(rules[i], b)
  {
    if StateKey(i, Subject(a, rules[i])) == StateKey(j, Subject(b, rules[j])) {
      StateKeyInjective(i, Subject(a, rules[i]), j, Subject(b, rules[j]));
    }
  }

  lemma PlainNumber(n: nat)
    ensures Decimal.IntText(n) == Decimal.Digits(n)
    ensures Trim(Decimal.IntText(n), IsOptionalWhitespace) == Decimal.IntText(n)
    ensures '\r' !in Decimal.IntText(n) && '\n' !in Decimal.IntText(n)
  {
    Decimal.DigitsAreDigits(n);
    TrimmedIsFixed(Decimal.IntText(n), IsOptionalWhitespace);
  }

  lemma LimitedNames()
    ensures IsToken("X-RateLimit-Limit") && IsToken("Retry-After") && IsToken("X-RateLimit-Reset")
    ensures !NameEquals("X-RateLimit-Limit", "X-RateLimit-Reset")
  {
    assert "X-RateLimit-Limit"[12] == 'L' && "X-RateLimit-Reset"[12] == 'R';
  }

  lemma LimitedHeadersReach(r: Rule, retryAfter: nat, k: nat)
    requires RuleValid(r) && retryAfter >= 1 && k < 3
    ensures var response := LimitedResponse(r, retryAfter);
      && Reaches(response.headers[k], response)
      && Trim(response.headers[k].value, IsOptionalWhitespace) == response.headers[k].value
      && forall j :: 0 <= j < k ==> !NameEquals(response.headers[j].name, response.headers[k].name)
  {
    PlainNumber(r.limit);
    PlainNumber(retryAfter);
    PlainNumber(r.windowSeconds);
    LimitedNames();
  }

  lemma LimitedClientFinds(r: Rule, retryAfter: nat, policy: ConnectionPolicy, k: nat)
    requires RuleValid(r) && retryAfter >= 1 && k < 3
    ensures var response := LimitedResponse(r, retryAfter);
      HeaderValue(ClientFields(response, policy), response.headers[k].name) == Some(response.headers[k].value)
  {
    var response := LimitedResponse(r, retryAfter);
    LimitedHeadersReach(r, retryAfter, k);
    ClientFindsHeader(response, policy, k);
  }

  lemma LimitedHeaderValues(r: Rule, retryAfter: nat)
    requires RuleValid(r) && retryAfter >= 1
    ensures LimitedResponse(r, retryAfter).headers ==
            [HeaderField("X-RateLimit-Limit", Decimal.Digits(r.limit)),
             HeaderField("Retry-After", Decimal.Digits(retryAfter)),
             HeaderField("X-RateLimit-Reset", Decimal.Digits(r.windowSeconds))]
  {
  }

  /** A limited client reads a 429, and finds in it the limit, the window, and how long to wait. */
  lemma LimitedClientReads(r: Rule, retryAfter: nat, policy: ConnectionPolicy)
    requires RuleValid(r) && retryAfter >= 1
    ensures var response := LimitedResponse(r, retryAfter);
      var fields := ClientFields(response, policy);
      && response.status == 429 && response.reason == "Too Many Requests"
      && HeaderValue(fields, "X-RateLimit-Limit") == Some(Decimal.Digits(r.limit))
      && HeaderValue(fields, "Retry-After") == Some(Decimal.Digits(retryAfter))
      && HeaderValue(fields, "X-RateLimit-Reset") == Some(Decimal.Digits(r.windowSeconds))
  {
    LimitedHeaderValues(r, retryAfter);
    LimitedClientFinds(r, retryAfter, policy, 0);
    LimitedClientFinds(r, retryAfter, policy, 1);
    LimitedClientFinds(r, retryAfter, policy, 2);
  }

  /** The remaining count that an admitted client is told is true: so many more requests are admitted at once, and no more. */
  lemma RemainingIsTrue(r: Rule, b: Bucket, now: real, n: nat)
    requires RuleValid(r) && InUse(BudgetOf(r), b) && now <= b.lastRefill
    ensures var told := HeaderValue(PassHeaders(r, b), "X-RateLimit-Remaining");
      var remaining: nat := b.tokens.Floor;
      && told == Some(Decimal.Digits(remaining))
      && Admissions(Decisions(BudgetOf(r), b, Repeated(now, n))) == if n <= remaining then n else remaining
  {
    AtOneInstant(BudgetOf(r), b, now, n);
    assert |"X-RateLimit-Limit"| != |"X-RateLimit-Remaining"|;
    assert NameEquals("X-RateLimit-Remaining", "X-RateLimit-Remaining");
    FoundFirst(PassHeaders(r, b), "X-RateLimit-Remaining", 1);
  }
}
