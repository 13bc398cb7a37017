/** Reading the rate limiter's rules. Numbers are taken to fit the source's int. */
module RateLimitConfig {
  import opened Wrappers
  import opened Text
  import opened Fields
  import opened Decimal
  import opened RuleText
  import opened RateLimit

  datatype ConfigError =
    | TooFewFields
    | EmptyMethod
    | EmptyTarget
    | InvalidKey
    | InvalidLimit
    | InvalidWindow
    | WindowTooLarge
    | InvalidBurst
    | NoRules

  /** The positive number a string of digits denotes. */
  function PositiveOf(s: string): Option<nat> {
    if s != "" && AllDigits(s) && Value(s) > 0 then Some(Value(s)) else None
  }

  /** `highest` is the greatest value that the loop computes: for a number, the number itself. */
  method ParsePositiveInt(value: string) returns (result: Option<nat>, ghost highest: nat)
    ensures result == PositiveOf(value)
    ensures result.Some? ==> highest == result.value
  {
    highest := 0;
    if value == "" {
      return None, highest;
    }
    var v: nat := 0;
    for i := 0 to |value|
      invariant AllDigits(value[..i]) && v == Value(value[..i]) && highest == v
    {
      if !IsDigit(value[i]) {
        return None, highest;
      }
      highest := if highest < v * 10 then v * 10 else highest;
      assert value[..i + 1][..i] == value[..i];
      v := v * 10 + (value[i] as int - '0' as int);
      highest := if highest < v then v else highest;
    }
    assert value[..|value|] == value;
    return if v <= 0 then None else Some(v), highest;
  }

  function Unit(c: char): Option<nat> {
    if c == 's' || c == 'S' then Some(1)
    else if c == 'm' || c == 'M' then Some(60)
    else if c == 'h' || c == 'H' then Some(3600)
    else None
  }

  const MAX_WINDOW_SECONDS: nat := 1_000_000_000

  function ParseWindowSeconds(s: string): Result<nat, ConfigError> {
    if s == "" then Err(InvalidWindow)
    else
      var unit := Unit(s[|s| - 1]);
      var number := PositiveOf(if unit.Some? then s[..|s| - 1] else s);
      if number.None? then Err(InvalidWindow)
      else
        var total := number.value * (if unit.Some? then unit.value else 1);
        if total > MAX_WINDOW_SECONDS then Err(WindowTooLarge) else Ok(total)
  }

  function ParseKey(s: string): Result<KeyKind, ConfigError> {
    if s == "global" then Ok(Global)
    else if |s| > 7 && s[..7] == "header:" then Ok(Header(s[7..]))
    else if s != "" && ':' !in s then Ok(Header(s))
    else Err(InvalidKey)
  }

  function RuleOf(fields: seq<string>): Result<Rule, ConfigError> {
    if |fields| < 5 then Err(TooFewFields)
    else
      var (kind, target) := ClassifyTarget(fields[1]);
      if fields[0] == "" then Err(EmptyMethod)
      else if target == "" then Err(EmptyTarget)
      else match ParseKey(fields[2])
        case Err(e) => Err(e)
        case Ok(key) =>
          var limit := PositiveOf(fields[3]);
          if limit.None? then Err(InvalidLimit)
          else match ParseWindowSeconds(fields[4])
            case Err(e) => Err(e)
            case Ok(window) =>
              var explicit := |fields| >= 6 && fields[5] != "";
              var burst := if explicit then PositiveOf(fields[5]) else limit;
              if burst.None? then Err(InvalidBurst)
              else
                var raised := if burst.value < limit.value then limit.value else burst.value;
                Ok(Rule(fields[0], target, kind, key, limit.value, window, raised))
  }

  const RULE: string := "rule="

  /** The module's configuration; a text without rules is refused. */
  function Configure(text: string): Result<seq<Rule>, ConfigError> {
    match EntriesOf(text, RULE, RuleOf)
    case Err(e) => Err(e)
    case Ok(rules) => if rules == [] then Err(NoRules) else Ok(rules)
  }

  /** The constructor's reading of its text. */
  method ReadConfiguration(text: string) returns (result: Result<seq<Rule>, ConfigError>)
    ensures result == Configure(text)
  {
    var parsed := ReadLines(text, LineReader(RULE, RuleOf));
    match parsed
    case Err(e) => return Err(e);
    case Ok(rules) => return if rules == [] then Err(NoRules) else Ok(rules);
  }

  // ----- What is accepted -----

  predicate IsPositive(s: string) {
    s != "" && AllDigits(s) && Value(s) > 0
  }

  /** Seconds in the units that a window may end in. */
  const UNITS: map<char, nat> := map['s' := 1, 'S' := 1, 'm' := 60, 'M' := 60, 'h' := 3600, 'H' := 3600]

  /** A window of so many seconds: a positive number, bare or with a unit, up to a billion seconds in all. */
  predicate IsWindow(s: string, seconds: nat) {
    && 0 < seconds <= 1_000_000_000
    && ((IsPositive(s) && Value(s) == seconds)
        || (s != "" && s[|s| - 1] in UNITS && IsPositive(s[..|s| - 1])
            && Value(s[..|s| - 1]) * UNITS[s[|s| - 1]] == seconds))
  }

  lemma WindowsAccepted(s: string, seconds: nat)
    ensures ParseWindowSeconds(s) == Ok(seconds) <==> IsWindow(s, seconds)
  {
    if s != "" && AllDigits(s) {
      assert IsDigit(s[|s| - 1]);
    }
  }

  predicate IsKeyText(s: string, key: KeyKind) {
    match key
    case Global => s == "global"
    case Header(name) => name != "" && s != "global" && (s == "header:" + name || (s == name && ':' !in s))
  }

  lemma KeysAccepted(s: string, key: KeyKind)
    ensures ParseKey(s) == Ok(key) <==> IsKeyText(s, key)
  {
    if |s| > 7 && s[..7] == "header:" {
      assert s == "header:" + s[7..];
      assert s[6] == ':';
    }
    if key.Header? && s == "header:" + key.name {
      assert s[..7] == "header:" && s[7..] == key.name;
    }
  }

  /** The fields of a rule: method, target, key, limit, window, and possibly a burst, which is at least the limit. */
  ghost predicate WritesDown(fields: seq<string>, rule: Rule) {
    && |fields| >= 5
    && fields[0] != "" && rule.methodPattern == fields[0]
    && fields[1] != "" && fields[1] != "*" && (rule.targetKind, rule.targetPattern) == ClassifyTarget(fields[1])
    && IsKeyText(fields[2], rule.key)
    && IsPositive(fields[3]) && rule.limit == Value(fields[3])
    && rule.windowSeconds >= 0 && IsWindow(fields[4], rule.windowSeconds)
    && if |fields| == 5 || fields[5] == "" then rule.burst == rule.limit
       else IsPositive(fields[5]) && rule.burst == if Value(fields[5]) < rule.limit then rule.limit else Value(fields[5])
  }

  /** Fields are taken for a rule if and only if they write that rule down. */
  lemma RuleMeansItsFields(fields: seq<string>, rule: Rule)
    ensures RuleOf(fields) == Ok(rule) <==> WritesDown(fields, rule)
  {
    if |fields| >= 5 {
      KeysAccepted(fields[2], rule.key);
      if ParseKey(fields[2]).Ok? {
        KeysAccepted(fields[2], ParseKey(fields[2]).value);
      }
      if rule.windowSeconds >= 0 {
        WindowsAccepted(fields[4], rule.windowSeconds);
      }
      if ParseWindowSeconds(fields[4]).Ok? {
        WindowsAccepted(fields[4], ParseWindowSeconds(fields[4]).value);
      }
    }
  }

  ghost predicate Acceptable(fields: seq<string>) {
    exists rule :: WritesDown(fields, rule)
  }

  /** A text is accepted if and only if it has a rule line and each of its rule lines writes a rule down. */
  lemma ConfiguredExactly(text: string)
    ensures Configure(text).Ok? <==>
      && EntryLines(Pieces(text, '\n'), RULE) > 0
      && forall raw :: raw in Pieces(text, '\n') && IsEntryLine(raw, RULE) ==> Acceptable(FieldsAfter(raw, RULE))
    ensures Configure(text).Ok? ==> |Configure(text).value| == EntryLines(Pieces(text, '\n'), RULE)
  {
    TextAcceptedExactly(text, RULE, RuleOf);
    forall raw | IsEntryLine(raw, RULE)
      ensures RuleOf(FieldsAfter(raw, RULE)).Ok? <==> Acceptable(FieldsAfter(raw, RULE))
    {
      var fields := FieldsAfter(raw, RULE);
      if RuleOf(fields).Ok? {
        RuleMeansItsFields(fields, RuleOf(fields).value);
      }
      if Acceptable(fields) {
        var rule :| WritesDown(fields, rule);
        RuleMeansItsFields(fields, rule);
      }
    }
  }

  predicate IsValid(rule: Rule) {
    RuleValid(rule) && rule.windowSeconds <= MAX_WINDOW_SECONDS
  }

  /** Every accepted rule has 1 <= limit <= burst and a window from 1 to a billion seconds. */
  lemma ConfiguredRulesAreValid(text: string)
    requires Configure(text).Ok?
    ensures Configure(text).value != []
    ensures forall r :: r in Configure(text).value ==> RuleValid(r) && r.windowSeconds <= MAX_WINDOW_SECONDS
  {
    forall raw, rule | raw in Pieces(text, '\n')
        && LineReader(RULE, RuleOf)(raw).Ok? && rule in LineReader(RULE, RuleOf)(raw).value
      ensures IsValid(rule)
    {
      RuleMeansItsFields(FieldsAfter(raw, RULE), rule);
    }
    GatheredHave(Pieces(text, '\n'), LineReader(RULE, RuleOf), IsValid);
  }

  // ----- Printing -----

  function KeyText(key: KeyKind): string {
    match key
    case Global => "global"
    case Header(name) => "header:" + name
  }

  function RuleFields(rule: Rule): seq<string> {
    [rule.methodPattern, PatternText(rule.targetKind, rule.targetPattern), KeyText(rule.key),
     IntText(rule.limit), IntText(rule.windowSeconds), IntText(rule.burst)]
  }

  /** The rules that have a line. */
  predicate IsRule(rule: Rule) {
    && IsValid(rule)
    && rule.methodPattern != "" && rule.targetPattern != "" && HasPatternText(rule.targetKind, rule.targetPattern)
    && (rule.key.Header? ==> rule.key.name != "")
    && IsField(rule.methodPattern) && IsField(PatternText(rule.targetKind, rule.targetPattern)) && IsField(KeyText(rule.key))
  }

  lemma NumberIsField(n: int)
    requires n > 0
    ensures IsField(IntText(n)) && IsPositive(IntText(n)) && Value(IntText(n)) == n
  {
    ValueOfDigits(n);
    DigitsAreDigits(n);
    var text := IntText(n);
    assert forall c :: c in text ==> IsDigit(c);
    assert text[0] in text && text[|text| - 1] in text;
  }

  /** Every such rule is the meaning of the fields it prints. */
  lemma RuleOfItsFields(rule: Rule)
    requires IsRule(rule)
    ensures AreFields(RuleFields(rule)) && RuleOf(RuleFields(rule)) == Ok(rule)
  {
    NumberIsField(rule.limit);
    NumberIsField(rule.windowSeconds);
    NumberIsField(rule.burst);
    ClassifiedAsWritten(rule.targetKind, rule.targetPattern, "");
    assert KeyText(rule.key)[0] == 'g' || KeyText(rule.key)[0] == 'h';
    RuleMeansItsFields(RuleFields(rule), rule);
  }

  /** A line of a rule file: a rule, or anything the reader skips. */
  ghost predicate IsRuleFileLine(line: Line<Rule>) {
    match line
    case Printed(left, rule, right) => IsRule(rule) && forall c :: c in left || c in right ==> IsSpace(c) && c != '\n'
    case Skipped(raw) => '\n' !in raw && !IsEntryLine(raw, RULE)
  }

  /** Whatever lines are skipped between them, and whatever blanks surround them, the printed rules are read, in order. */
  lemma PrintedRulesReadBack(lines: seq<Line<Rule>>)
    requires forall line :: line in lines ==> IsRuleFileLine(line)
    requires EntriesIn(lines) != []
    ensures Configure(TextOf(lines, RULE, RuleFields)) == Ok(EntriesIn(lines))
  {
    forall i | 0 <= i < |lines| ensures IsLine(lines[i], RULE, RuleFields, RuleOf) {
      assert lines[i] in lines;
      if lines[i].Printed? {
        RuleOfItsFields(lines[i].entry);
      }
    }
    PrintedTextReadsBack(lines, RULE, RuleFields, RuleOf);
  }

  lemma RuleOfIsRule(fields: seq<string>)
    requires forall i :: 0 <= i < |fields| ==> IsField(fields[i])
    ensures RuleOf(fields).Ok? ==> IsRule(RuleOf(fields).value)
  {
    if RuleOf(fields).Ok? {
      var rule := RuleOf(fields).value;
      RuleMeansItsFields(fields, rule);
      ClassifiedAsWritten(rule.targetKind, rule.targetPattern, fields[1]);
      if rule.key.Header? && fields[2] == rule.key.name {
        LastChar("header:", rule.key.name);
      }
    }
  }

  /** Every rule read can be printed, and printing what was read, and reading it again, changes nothing. */
  lemma ReadPrintRead(text: string)
    requires Configure(text).Ok?
    ensures forall rule :: rule in Configure(text).value ==> IsRule(rule)
    ensures Configure(TextOf(PlainLines(Configure(text).value), RULE, RuleFields)) == Configure(text)
  {
    var rules := Configure(text).value;
    JoinOfPieces(text, '\n');
    forall raw, rule | raw in Pieces(text, '\n')
        && LineReader(RULE, RuleOf)(raw).Ok? && rule in LineReader(RULE, RuleOf)(raw).value
      ensures IsRule(rule)
    {
      FieldsAreFields(raw, RULE);
      RuleOfIsRule(FieldsAfter(raw, RULE));
    }
    GatheredHave(Pieces(text, '\n'), LineReader(RULE, RuleOf), IsRule);
    EntriesInPlainLines(rules);
    PrintedRulesReadBack(PlainLines(rules));
  }
}
