/** The router's matching of a request path against a pattern with {name} parameters. */
module Router {
  import opened Wrappers
  import opened Sequences
  import opened Text
  import opened RuleText

  datatype Capture = Capture(name: string, value: string)

  /** extract_path: what precedes the query. */
  function PathOf(target: string): string {
    match FindChar(target, '?', 0)
    case None => target
    case Some(query) => target[..query]
  }

  /** The path is what precedes the first question mark, so a query, or its absence, never matters to a match. */
  lemma QueryIsDropped(path: string, query: string)
    requires '?' !in path
    ensures PathOf(path) == path && PathOf(path + ['?'] + query) == path
  {
    ConcatDivides(path + ['?'] + query, path, '?', query);
    FindAfterFree(path + ['?'] + query, path, '?', query);
  }

  ghost predicate IsTarget(target: string, path: string, query: string) {
    target == path + ['?'] + query
  }

  lemma PathHasNoQuery(target: string)
    ensures '?' !in PathOf(target) && (target == PathOf(target) || exists query :: IsTarget(target, PathOf(target), query))
  {
    match FindChar(target, '?', 0)
    case None =>
    case Some(at) => assert IsTarget(target, PathOf(target), target[at + 1..]);
  }

  function Prepend(captures: seq<Capture>, result: Option<seq<Capture>>): Option<seq<Capture>> {
    match result
    case None => None
    case Some(more) => Some(captures + more)
  }

  function SegmentStop(path: string, t: nat): (stop: nat)
    requires t <= |path|
    ensures t <= stop <= |path| && (stop < |path| ==> path[stop] == '/')
    decreases |path| - t
  {
    if t < |path| && path[t] != '/' then SegmentStop(path, t + 1) else t
  }

  /** What the matcher finds from p and t on: a parameter takes a whole segment, any other character itself. */
  function MatchFrom(kind: PatternKind, pattern: string, p: nat, path: string, t: nat): Option<seq<Capture>>
    requires p <= |pattern| && t <= |path|
    decreases |pattern| - p
  {
    if p == |pattern| then (if t == |path| || kind.Prefix? then Some([]) else None)
    else if pattern[p] == '{' then
      match FindChar(pattern, '}', p + 1)
      case None => None
      case Some(close) =>
        var stop := SegmentStop(path, t);
        if close == p + 1 then None
        else Prepend([Capture(pattern[p + 1..close], path[t..stop])], MatchFrom(kind, pattern, close + 1, path, stop))
    else if t < |path| && pattern[p] == path[t] then MatchFrom(kind, pattern, p + 1, path, t + 1)
    else None
  }

  function Match(kind: PatternKind, pattern: string, path: string): Option<seq<Capture>> {
    MatchFrom(kind, pattern, 0, path, 0)
  }

  lemma PrependNothing(result: Option<seq<Capture>>)
    ensures Prepend([], result) == result
  {
    if result.Some? {
      assert [] + result.value == result.value;
    }
  }

  lemma PrependMore(captures: seq<Capture>, c: Capture, result: Option<seq<Capture>>)
    ensures Prepend(captures, Prepend([c], result)) == Prepend(captures + [c], result)
  {
    if result.Some? {
      assert captures + ([c] + result.value) == captures + [c] + result.value;
    }
  }

  /** The source's matcher, with its indices into pattern and path. */
  method MatchTarget(kind: PatternKind, pattern: string, target: string) returns (result: Option<seq<Capture>>)
    ensures result == Match(kind, pattern, PathOf(target))
  {
    var path := PathOf(target);
    var p, t, caps := 0, 0, [];
    PrependNothing(Match(kind, pattern, path));
    while p < |pattern|
      invariant p <= |pattern| && t <= |path|
      invariant Prepend(caps, MatchFrom(kind, pattern, p, path, t)) == Match(kind, pattern, path)
    {
      if pattern[p] == '{' {
        var close := FindChar(pattern, '}', p + 1);
        if close.None? {
          return None;
        }
        var name := pattern[p + 1..close.value];
        var start := t;
        while t < |path| && path[t] != '/'
          invariant start <= t <= |path| && SegmentStop(path, t) == SegmentStop(path, start)
        {
          t := t + 1;
        }
        if name == "" {
          return None;
        }
        PrependMore(caps, Capture(name, path[start..t]), MatchFrom(kind, pattern, close.value + 1, path, t));
        p, caps := close.value + 1, caps + [Capture(name, path[start..t])];
        continue;
      }
      if t >= |path| || pattern[p] != path[t] {
        return None;
      }
      p, t := p + 1, t + 1;
    }
    assert caps + [] == caps;
    if t == |path| || kind.Prefix? {
      return Some(caps);
    }
    return None;
  }

  // ----- Segments -----

  /** The longest beginning without a slash. */
  function Segment(path: string): (segment: string)
    ensures segment <= path
  {
    if path == "" || path[0] == '/' then "" else [path[0]] + Segment(path[1..])
  }

  /** Where the segment from t on stops, and what is left then. */
  lemma {:induction false} SegmentFrom(path: string, t: nat)
    requires t <= |path|
    ensures var stop := SegmentStop(path, t);
      Segment(path[t..]) == path[t..stop] && path[t..][|Segment(path[t..])|..] == path[stop..]
    decreases |path| - t
  {
    if t < |path| && path[t] != '/' {
      SegmentFrom(path, t + 1);
      assert path[t..][1..] == path[t + 1..];
      assert path[t..SegmentStop(path, t)] == [path[t]] + path[t + 1..SegmentStop(path, t)];
    }
    SuffixOfSuffix(path, t, SegmentStop(path, t) - t);
  }

  lemma {:induction false} SegmentOfConcat(value: string, rest: string)
    requires '/' !in value
    ensures Segment(value + rest) == value + Segment(rest)
  {
    if value == "" {
      assert value + rest == rest;
    } else {
      assert value[0] in value;
      assert (value + rest)[1..] == value[1..] + rest;
      SegmentOfConcat(value[1..], rest);
    }
  }

  lemma {:induction false} SegmentIsSlashFree(path: string)
    ensures '/' !in Segment(path) && path == Segment(path) + path[|Segment(path)|..]
    ensures |Segment(path)| < |path| ==> path[|Segment(path)|] == '/'
  {
    if path != "" && path[0] != '/' {
      SegmentIsSlashFree(path[1..]);
    }
  }

  // ----- What a pattern means -----

  datatype Part = Literal(c: char) | Parameter(name: string)

  function ConsPart(part: Part, parts: Option<seq<Part>>): Option<seq<Part>> {
    match parts
    case None => None
    case Some(more) => Some([part] + more)
  }

  function PartsFrom(pattern: string, p: nat): Option<seq<Part>>
    requires p <= |pattern|
    decreases |pattern| - p
  {
    if p == |pattern| then Some([])
    else if pattern[p] == '{' then
      match FindChar(pattern, '}', p + 1)
      case None => None
      case Some(close) =>
        if close == p + 1 then None else ConsPart(Parameter(pattern[p + 1..close]), PartsFrom(pattern, close + 1))
    else ConsPart(Literal(pattern[p]), PartsFrom(pattern, p + 1))
  }

  /** The parts of a pattern; a brace that is never closed, or an empty name, has no meaning. */
  function PartsOf(pattern: string): Option<seq<Part>> {
    PartsFrom(pattern, 0)
  }

  function NamesOf(parts: seq<Part>): seq<string> {
    if parts == [] then []
    else match parts[0]
      case Literal(_) => NamesOf(parts[1..])
      case Parameter(name) => [name] + NamesOf(parts[1..])
  }

  /** The pattern with each parameter replaced by its value. */
  function Expand(parts: seq<Part>, values: seq<string>): string
    requires |values| == |NamesOf(parts)|
  {
    if parts == [] then ""
    else match parts[0]
      case Literal(c) => [c] + Expand(parts[1..], values)
      case Parameter(_) => values[0] + Expand(parts[1..], values[1..])
  }

  function Braced(names: seq<string>): seq<string> {
    if names == [] then [] else ["{" + names[0] + "}"] + Braced(names[1..])
  }

  ghost predicate Spell(parts: seq<Part>, pattern: string) {
    && |Braced(NamesOf(parts))| == |NamesOf(parts)|
    && Expand(parts, Braced(NamesOf(parts))) == pattern
    && forall part :: part in parts && part.Parameter? ==> part.name != "" && '}' !in part.name
  }

  function PartText(part: Part): string {
    match part
    case Literal(c) => [c]
    case Parameter(name) => "{" + name + "}"
  }

  lemma SpellMore(part: Part, parts: seq<Part>, pattern: string)
    requires Spell(parts, pattern) && (part.Parameter? ==> part.name != "" && '}' !in part.name)
    ensures Spell([part] + parts, PartText(part) + pattern)
  {
    assert ([part] + parts)[1..] == parts;
    if part.Parameter? {
      assert ([part.name] + NamesOf(parts))[1..] == NamesOf(parts);
      assert Braced([part.name] + NamesOf(parts)) == ["{" + part.name + "}"] + Braced(NamesOf(parts));
    }
  }

  lemma NameInBraces(pattern: string, p: nat, close: nat)
    requires p + 1 < close < |pattern| && pattern[p] == '{' && pattern[close] == '}'
    requires forall k :: p + 1 <= k < close ==> pattern[k] != '}'
    ensures pattern[p..] == PartText(Parameter(pattern[p + 1..close])) + pattern[close + 1..]
    ensures pattern[p + 1..close] != "" && '}' !in pattern[p + 1..close]
  {
    var name, more := pattern[p + 1..close], pattern[close + 1..];
    assert pattern[close..] == "}" + more;
    assert pattern[p + 1..] == name + pattern[close..];
    assert pattern[p..] == "{" + pattern[p + 1..];
    ConcatIsAssociative(name, "}", more);
    ConcatIsAssociative("{", name + "}", more);
    ConcatIsAssociative("{", name, "}");
  }

  lemma {:induction false} PartsSpellSuffix(pattern: string, p: nat)
    requires p <= |pattern| && PartsFrom(pattern, p).Some?
    ensures Spell(PartsFrom(pattern, p).value, pattern[p..])
    decreases |pattern| - p
  {
    if p == |pattern| {
    } else if pattern[p] == '{' {
      var close := FindChar(pattern, '}', p + 1).value;
      PartsSpellSuffix(pattern, close + 1);
      NameInBraces(pattern, p, close);
      SpellMore(Parameter(pattern[p + 1..close]), PartsFrom(pattern, close + 1).value, pattern[close + 1..]);
    } else {
      PartsSpellSuffix(pattern, p + 1);
      SpellMore(Literal(pattern[p]), PartsFrom(pattern, p + 1).value, pattern[p + 1..]);
      assert pattern[p..] == [pattern[p]] + pattern[p + 1..];
    }
  }

  /** The parts are those of the pattern: with each parameter as its braced name they spell it again. */
  lemma PartsSpellPattern(pattern: string)
    requires PartsOf(pattern).Some?
    ensures var parts := PartsOf(pattern).value;
      |Braced(NamesOf(parts))| == |NamesOf(parts)| && Expand(parts, Braced(NamesOf(parts))) == pattern
    ensures forall part :: part in PartsOf(pattern).value && part.Parameter? ==> part.name != "" && '}' !in part.name
  {
    PartsSpellSuffix(pattern, 0);
    assert pattern[0..] == pattern;
  }

  /** The values are slash-free and fill the pattern up to the whole path, or up to `rest` of it. */
  ghost predicate Fits(kind: PatternKind, parts: seq<Part>, values: seq<string>, rest: string, path: string) {
    && |values| == |NamesOf(parts)|
    && (forall v :: v in values ==> '/' !in v)
    && path == Expand(parts, values) + rest
    && (kind.Exact? ==> rest == "")
  }

  function ValuesOf(captures: seq<Capture>): (values: seq<string>)
    ensures |values| == |captures|
  {
    seq(|captures|, i requires 0 <= i < |captures| => captures[i].value)
  }

  function CapturedNames(captures: seq<Capture>): (names: seq<string>)
    ensures |names| == |captures|
  {
    seq(|captures|, i requires 0 <= i < |captures| => captures[i].name)
  }

  // ----- The matcher, part by part -----

  function MatchParts(kind: PatternKind, parts: seq<Part>, path: string): Option<seq<Capture>> {
    if parts == [] then (if path == "" || kind.Prefix? then Some([]) else None)
    else match parts[0]
      case Literal(c) => if path != "" && path[0] == c then MatchParts(kind, parts[1..], path[1..]) else None
      case Parameter(name) =>
        var segment := Segment(path);
        Prepend([Capture(name, segment)], MatchParts(kind, parts[1..], path[|segment|..]))
  }

  function ByParts(kind: PatternKind, parts: Option<seq<Part>>, path: string): Option<seq<Capture>> {
    match parts
    case None => None
    case Some(ps) => MatchParts(kind, ps, path)
  }

  lemma ConsParameter(kind: PatternKind, name: string, parts: Option<seq<Part>>, path: string, t: nat)
    requires t <= |path|
    ensures var stop := SegmentStop(path, t);
      ByParts(kind, ConsPart(Parameter(name), parts), path[t..])
      == Prepend([Capture(name, path[t..stop])], ByParts(kind, parts, path[stop..]))
  {
    SegmentFrom(path, t);
    if parts.Some? {
      assert ([Parameter(name)] + parts.value)[1..] == parts.value;
    }
  }

  lemma ConsLiteral(kind: PatternKind, c: char, parts: Option<seq<Part>>, path: string, t: nat)
    requires t <= |path|
    ensures ByParts(kind, ConsPart(Literal(c), parts), path[t..])
         == if t < |path| && path[t] == c then ByParts(kind, parts, path[t + 1..]) else None
  {
    assert t < |path| ==> path[t..][1..] == path[t + 1..];
    if parts.Some? {
      assert ([Literal(c)] + parts.value)[1..] == parts.value;
    }
  }

  lemma {:induction false} MatchFromIsByParts(kind: PatternKind, pattern: string, p: nat, path: string, t: nat)
    requires p <= |pattern| && t <= |path|
    ensures MatchFrom(kind, pattern, p, path, t) == ByParts(kind, PartsFrom(pattern, p), path[t..])
    decreases |pattern| - p
  {
    if p == |pattern| {
    } else if pattern[p] == '{' {
      var close := FindChar(pattern, '}', p + 1);
      if close.Some? && close.value > p + 1 {
        MatchFromIsByParts(kind, pattern, close.value + 1, path, SegmentStop(path, t));
        ConsParameter(kind, pattern[p + 1..close.value], PartsFrom(pattern, close.value + 1), path, t);
      }
    } else {
      if t < |path| {
        MatchFromIsByParts(kind, pattern, p + 1, path, t + 1);
      }
      ConsLiteral(kind, pattern[p], PartsFrom(pattern, p + 1), path, t);
    }
  }

  /** A pattern without meaning matches nothing; any other is matched part by part. */
  lemma MatchIsByParts(kind: PatternKind, pattern: string, path: string)
    ensures Match(kind, pattern, path) == ByParts(kind, PartsOf(pattern), path)
  {
    MatchFromIsByParts(kind, pattern, 0, path, 0);
    assert path[0..] == path;
  }

  lemma ParameterMatched(kind: PatternKind, parts: seq<Part>, path: string, segment: string, more: seq<Capture>)
    requires parts != [] && parts[0].Parameter? && segment == Segment(path)
    requires MatchParts(kind, parts[1..], path[|segment|..]) == Some(more)
    ensures MatchParts(kind, parts, path) == Some([Capture(parts[0].name, segment)] + more)
    ensures var captures := MatchParts(kind, parts, path).value;
      CapturedNames(captures) == [parts[0].name] + CapturedNames(more) && ValuesOf(captures) == [segment] + ValuesOf(more)
  {
  }

  lemma LiteralStep(parts: seq<Part>, values: seq<string>, rest: string, path: string)
    requires parts != [] && parts[0].Literal? && |values| == |NamesOf(parts)|
    ensures path == Expand(parts, values) + rest
        <==> path != "" && path[0] == parts[0].c && path[1..] == Expand(parts[1..], values) + rest
  {
    var tail := Expand(parts[1..], values);
    ConcatIsAssociative([parts[0].c], tail, rest);
    assert path != "" ==> path == [path[0]] + path[1..];
    assert ([parts[0].c] + (tail + rest))[1..] == tail + rest;
  }

  lemma ParameterStep(parts: seq<Part>, value: string, values: seq<string>, rest: string, path: string)
    requires parts != [] && parts[0].Parameter? && |values| == |NamesOf(parts[1..])|
    ensures |[value] + values| == |NamesOf(parts)|
    ensures path == Expand(parts, [value] + values) + rest
        <==> value <= path && path[|value|..] == Expand(parts[1..], values) + rest
  {
    var tail := Expand(parts[1..], values);
    assert ([value] + values)[1..] == values;
    ConcatIsAssociative(value, tail, rest);
    assert value <= path ==> path == value + path[|value|..];
    assert (value + (tail + rest))[|value|..] == tail + rest;
  }

  /** The same as `Fits`, part by part. */
  ghost predicate Fills(kind: PatternKind, parts: seq<Part>, values: seq<string>, rest: string, path: string) {
    if parts == [] then values == [] && path == rest && (kind.Exact? ==> rest == "")
    else match parts[0]
      case Literal(c) => path != "" && path[0] == c && Fills(kind, parts[1..], values, rest, path[1..])
      case Parameter(_) =>
        && values != [] && '/' !in values[0] && values[0] <= path
        && Fills(kind, parts[1..], values[1..], rest, path[|values[0]|..])
  }

  lemma FitsLiteral(kind: PatternKind, parts: seq<Part>, values: seq<string>, rest: string, path: string)
    requires parts != [] && parts[0].Literal?
    ensures Fits(kind, parts, values, rest, path)
        <==> path != "" && path[0] == parts[0].c && Fits(kind, parts[1..], values, rest, path[1..])
  {
    if |values| == |NamesOf(parts)| {
      LiteralStep(parts, values, rest, path);
    }
  }

  lemma FitsParameter(kind: PatternKind, parts: seq<Part>, value: string, values: seq<string>, rest: string, path: string)
    requires parts != [] && parts[0].Parameter?
    ensures Fits(kind, parts, [value] + values, rest, path)
        <==> '/' !in value && value <= path && Fits(kind, parts[1..], values, rest, path[|value|..])
  {
    if |values| == |NamesOf(parts[1..])| {
      ParameterStep(parts, value, values, rest, path);
    }
    assert forall v :: v in [value] + values <==> v == value || v in values;
  }

  lemma {:induction false} FillsIsFits(kind: PatternKind, parts: seq<Part>, values: seq<string>, rest: string, path: string)
    ensures Fills(kind, parts, values, rest, path) <==> Fits(kind, parts, values, rest, path)
  {
    if parts == [] {
      assert "" + rest == rest;
    } else {
      match parts[0]
      case Literal(c) =>
        FitsLiteral(kind, parts, values, rest, path);
        if path != "" {
          FillsIsFits(kind, parts[1..], values, rest, path[1..]);
        }
      case Parameter(_) =>
        if values != [] {
          FitsParameter(kind, parts, values[0], values[1..], rest, path);
          assert [values[0]] + values[1..] == values;
          if values[0] <= path {
            FillsIsFits(kind, parts[1..], values[1..], rest, path[|values[0]|..]);
          }
        }
    }
  }

  /** A match names the pattern's parameters in order, and its values fill the pattern. */
  lemma {:induction false} PartsMatchFills(kind: PatternKind, parts: seq<Part>, path: string) returns (rest: string)
    requires MatchParts(kind, parts, path).Some?
    ensures var captures := MatchParts(kind, parts, path).value;
      CapturedNames(captures) == NamesOf(parts) && Fills(kind, parts, ValuesOf(captures), rest, path)
  {
    if parts == [] {
      rest := path;
    } else {
      match parts[0]
      case Literal(c) =>
        rest := PartsMatchFills(kind, parts[1..], path[1..]);
      case Parameter(name) =>
        var segment := Segment(path);
        SegmentIsSlashFree(path);
        var more := MatchParts(kind, parts[1..], path[|segment|..]).value;
        rest := PartsMatchFills(kind, parts[1..], path[|segment|..]);
        ParameterMatched(kind, parts, path, segment, more);
    }
  }

  // ----- When the matcher finds what there is to find -----

  /** A parameter is followed by a slash, by another parameter, or by nothing. */
  predicate Separated(parts: seq<Part>) {
    forall i :: 0 < i < |parts| && parts[i - 1].Parameter? ==> parts[i] == Literal('/') || parts[i].Parameter?
  }

  /** A parameter is followed by a slash, or ends the pattern of a whole path. */
  predicate Determined(kind: PatternKind, parts: seq<Part>) {
    && (forall i :: 0 < i < |parts| && parts[i - 1].Parameter? ==> parts[i] == Literal('/'))
    && (kind.Prefix? && parts != [] ==> parts[|parts| - 1].Literal?)
  }

  lemma SegmentGoesOn(value: string, path: string)
    requires '/' !in value && value <= path
    ensures var left := path[|value|..];
      Segment(path) == value + Segment(left) && path[|Segment(path)|..] == left[|Segment(left)|..]
  {
    var left := path[|value|..];
    assert path == value + left;
    SegmentOfConcat(value, left);
    SuffixOfSuffix(path, |value|, |Segment(left)|);
  }

  /** What a slash, a parameter or nothing matches, it still matches without the segment before it. */
  lemma SegmentIsDropped(kind: PatternKind, parts: seq<Part>, path: string)
    requires MatchParts(kind, parts, path).Some?
    requires parts == [] || parts[0] == Literal('/') || parts[0].Parameter?
    ensures MatchParts(kind, parts, path[|Segment(path)|..]).Some?
  {
    var left := path[|Segment(path)|..];
    SegmentIsSlashFree(path);
    assert left == "" || left[0] == '/';
    assert left[0..] == left;
    assert Segment(left) == "";
  }

  /** If parameters are separated, the matcher succeeds whenever slash-free values fill the pattern. */
  lemma {:induction false} SeparatedMatches(kind: PatternKind, parts: seq<Part>, values: seq<string>, rest: string, path: string)
    requires Separated(parts) && Fills(kind, parts, values, rest, path)
    ensures MatchParts(kind, parts, path).Some?
  {
    if parts != [] {
      match parts[0]
      case Literal(c) =>
        SeparatedMatches(kind, parts[1..], values, rest, path[1..]);
      case Parameter(name) =>
        var left := path[|values[0]|..];
        SegmentGoesOn(values[0], path);
        SeparatedMatches(kind, parts[1..], values[1..], rest, left);
        SegmentIsDropped(kind, parts[1..], left);
    }
  }

  ghost predicate SwallowsAt(parts: seq<Part>, i: nat) {
    i + 1 < |parts| && parts[i].Parameter? && parts[i + 1].Literal? && parts[i + 1] != Literal('/')
  }

  lemma LiteralFails(kind: PatternKind, parts: seq<Part>, path: string)
    requires parts != [] && parts[0].Literal? && parts[0] != Literal('/')
    requires path == "" || path[0] == '/'
    ensures MatchParts(kind, parts, path).None?
  {
  }

  lemma {:induction false} NothingMatchesFrom(kind: PatternKind, parts: seq<Part>, path: string, i: nat)
    requires SwallowsAt(parts, i)
    ensures MatchParts(kind, parts, path).None?
    decreases i
  {
    if i == 0 {
      SegmentIsSlashFree(path);
      LiteralFails(kind, parts[1..], path[|Segment(path)|..]);
    } else {
      assert SwallowsAt(parts[1..], i - 1);
      match parts[0]
      case Literal(c) =>
        if path != "" {
          NothingMatchesFrom(kind, parts[1..], path[1..], i - 1);
        }
      case Parameter(_) =>
        NothingMatchesFrom(kind, parts[1..], path[|Segment(path)|..], i - 1);
    }
  }

  /** A parameter before another literal swallows all that could come before it: such a pattern matches no path. */
  lemma OtherwiseNothingMatches(kind: PatternKind, parts: seq<Part>, path: string)
    requires !Separated(parts)
    ensures MatchParts(kind, parts, path).None?
  {
    var i :| 0 < i < |parts| && parts[i - 1].Parameter? && parts[i].Literal? && parts[i] != Literal('/');
    NothingMatchesFrom(kind, parts, path, i - 1);
  }

  function Blanks(n: nat): seq<string> {
    seq(n, _ => "")
  }

  /** Yet empty values fill it. */
  lemma BlanksFit(parts: seq<Part>)
    ensures var n := |NamesOf(parts)|;
      |Blanks(n)| == n && Fits(Exact, parts, Blanks(n), "", Expand(parts, Blanks(n)))
  {
    var blank := Expand(parts, Blanks(|NamesOf(parts)|));
    assert blank == blank + "";
  }

  ghost predicate Finds(kind: PatternKind, parts: seq<Part>, path: string, values: seq<string>) {
    MatchParts(kind, parts, path).Some? && ValuesOf(MatchParts(kind, parts, path).value) == values
  }

  lemma LiteralFinds(kind: PatternKind, parts: seq<Part>, path: string, values: seq<string>)
    requires parts != [] && path != "" && parts[0] == Literal(path[0]) && Finds(kind, parts[1..], path[1..], values)
    ensures Finds(kind, parts, path, values)
  {
  }

  lemma ParameterFinds(kind: PatternKind, parts: seq<Part>, path: string, value: string, values: seq<string>)
    requires parts != [] && parts[0].Parameter? && value == Segment(path)
    requires Finds(kind, parts[1..], path[|value|..], values)
    ensures Finds(kind, parts, path, [value] + values)
  {
    ParameterMatched(kind, parts, path, value, MatchParts(kind, parts[1..], path[|value|..]).value);
  }

  lemma AfterDetermined(kind: PatternKind, parts: seq<Part>, values: seq<string>, rest: string, path: string)
    requires Determined(kind, parts) && parts != [] && parts[0].Parameter? && Fills(kind, parts, values, rest, path)
    ensures Segment(path) == values[0]
  {
    SegmentGoesOn(values[0], path);
    var left := path[|values[0]|..];
    if |parts| > 1 {
      assert parts[1..][0] == Literal('/');
    }
    assert Segment(left) == "" && values[0] + "" == values[0];
  }

  /** Each parameter's value is settled: values that fill the pattern are the ones the matcher captures. */
  lemma {:induction false} DeterminedMatches(kind: PatternKind, parts: seq<Part>, values: seq<string>, rest: string, path: string)
    requires Determined(kind, parts) && Fills(kind, parts, values, rest, path)
    ensures Finds(kind, parts, path, values)
  {
    if parts != [] {
      match parts[0]
      case Literal(c) =>
        DeterminedMatches(kind, parts[1..], values, rest, path[1..]);
        LiteralFinds(kind, parts, path, values);
      case Parameter(name) =>
        AfterDetermined(kind, parts, values, rest, path);
        DeterminedMatches(kind, parts[1..], values[1..], rest, path[|values[0]|..]);
        ParameterFinds(kind, parts, path, values[0], values[1..]);
        assert [values[0]] + values[1..] == values;
    }
  }

  lemma StillDetermined(kind: PatternKind, parts: seq<Part>)
    requires Separated(parts) && |parts| > 0 && Determined(kind, parts[1..])
    requires parts[0].Literal? || (|parts| > 1 && parts[1].Literal?)
    ensures Determined(kind, parts)
  {
    forall i | 0 < i < |parts| && parts[i - 1].Parameter? ensures parts[i] == Literal('/') {
      if i > 1 {
        assert parts[1..][i - 2] == parts[i - 1] && parts[1..][i - 1] == parts[i];
      }
    }
  }

  lemma BothFit(parts: seq<Part>, first: string, second: string, more: seq<string>, path: string)
    requires |parts| > 1 && parts[0].Parameter? && parts[1].Parameter? && parts[1..][1..] == parts[2..]
    requires |more| == |NamesOf(parts[2..])| && path == first + (second + Expand(parts[2..], more))
    requires forall v :: v in [first, second] + more ==> '/' !in v
    ensures Fits(Exact, parts, [first] + ([second] + more), "", path)
  {
    assert ([second] + more)[1..] == more;
    assert Expand(parts[1..], [second] + more) == second + Expand(parts[2..], more);
    assert ([first] + ([second] + more))[1..] == [second] + more;
    assert path + "" == path;
    forall v | v in [first] + ([second] + more) ensures '/' !in v {
      assert v in [first, second] + more;
    }
  }

  lemma TwoParametersAreAmbiguous(parts: seq<Part>) returns (a: seq<string>, b: seq<string>, path: string)
    requires |parts| > 1 && parts[0].Parameter? && parts[1].Parameter?
    ensures Fits(Exact, parts, a, "", path) && Fits(Exact, parts, b, "", path) && a != b
  {
    var more := Blanks(|NamesOf(parts[2..])|);
    var tail := Expand(parts[2..], more);
    a, b, path := ["x"] + ([""] + more), [""] + (["x"] + more), "x" + tail;
    assert parts[1..][1..] == parts[2..];
    BothFit(parts, "x", "", more, path);
    BothFit(parts, "", "x", more, path);
    assert a[0] != b[0];
  }

  /** Otherwise some path is filled in two ways. */
  lemma {:induction false} OtherwiseAmbiguous(kind: PatternKind, parts: seq<Part>)
    returns (a: seq<string>, restA: string, b: seq<string>, restB: string, path: string)
    requires Separated(parts) && !Determined(kind, parts)
    ensures Fits(kind, parts, a, restA, path) && Fits(kind, parts, b, restB, path) && a != b
  {
    if parts[0].Parameter? && |parts| == 1 {
      a, restA, b, restB, path := ["x"], "", [""], "x", "x";
    } else if parts[0].Parameter? && parts[1].Parameter? {
      a, b, path := TwoParametersAreAmbiguous(parts);
      restA, restB := "", "";
    } else {
      if Determined(kind, parts[1..]) {
        StillDetermined(kind, parts);
        assert false;
      }
      assert Separated(parts[1..]) by {
        assert forall i :: 0 < i < |parts| - 1 ==> parts[1..][i - 1] == parts[i] && parts[1..][i] == parts[i + 1];
      }
      a, restA, b, restB, path := OtherwiseAmbiguous(kind, parts[1..]);
      match parts[0]
      case Literal(c) =>
        LiteralStep(parts, a, restA, [c] + path);
        LiteralStep(parts, b, restB, [c] + path);
        path := [c] + path;
      case Parameter(_) =>
        assert "" <= path && path[|""|..] == path;
        ParameterStep(parts, "", a, restA, path);
        ParameterStep(parts, "", b, restB, path);
        assert a == ([""] + a)[1..] && b == ([""] + b)[1..];
        a, b := [""] + a, [""] + b;
    }
  }

  // ----- The matcher and what patterns mean -----

  ghost predicate SomeFit(kind: PatternKind, parts: seq<Part>, path: string) {
    exists values, rest :: Fits(kind, parts, values, rest, path)
  }

  /** A match captures the pattern's parameters, in order, with slash-free values that fill it. */
  lemma MatchFits(kind: PatternKind, pattern: string, path: string) returns (rest: string)
    requires Match(kind, pattern, path).Some?
    ensures PartsOf(pattern).Some?
    ensures var captures := Match(kind, pattern, path).value;
      && CapturedNames(captures) == NamesOf(PartsOf(pattern).value)
      && Fits(kind, PartsOf(pattern).value, ValuesOf(captures), rest, path)
  {
    MatchIsByParts(kind, pattern, path);
    rest := PartsMatchFills(kind, PartsOf(pattern).value, path);
    FillsIsFits(kind, PartsOf(pattern).value, ValuesOf(Match(kind, pattern, path).value), rest, path);
  }

  /** With separated parameters a path is matched if and only if slash-free values fill the pattern. */
  lemma MatchesIfAndOnlyIfSomeFit(kind: PatternKind, pattern: string, path: string)
    requires PartsOf(pattern).Some? && Separated(PartsOf(pattern).value)
    ensures Match(kind, pattern, path).Some? <==> SomeFit(kind, PartsOf(pattern).value, path)
  {
    var parts := PartsOf(pattern).value;
    MatchIsByParts(kind, pattern, path);
    if Match(kind, pattern, path).Some? {
      var rest := PartsMatchFills(kind, parts, path);
      FillsIsFits(kind, parts, ValuesOf(MatchParts(kind, parts, path).value), rest, path);
    }
    if SomeFit(kind, parts, path) {
      var values, rest :| Fits(kind, parts, values, rest, path);
      FillsIsFits(kind, parts, values, rest, path);
      SeparatedMatches(kind, parts, values, rest, path);
    }
  }

  /** Separation is exactly what it takes: any other pattern matches nothing, though something fits it. */
  lemma FindsEveryFitExactlyIfSeparated(kind: PatternKind, pattern: string)
    requires PartsOf(pattern).Some?
    ensures var parts := PartsOf(pattern).value;
      Separated(parts) <==> forall path :: SomeFit(kind, parts, path) ==> Match(kind, pattern, path).Some?
    ensures !Separated(PartsOf(pattern).value) ==> forall path :: Match(kind, pattern, path).None?
  {
    var parts := PartsOf(pattern).value;
    if Separated(parts) {
      forall path | SomeFit(kind, parts, path) ensures Match(kind, pattern, path).Some? {
        MatchesIfAndOnlyIfSomeFit(kind, pattern, path);
      }
    } else {
      forall path ensures Match(kind, pattern, path).None? {
        MatchIsByParts(kind, pattern, path);
        OtherwiseNothingMatches(kind, parts, path);
      }
      BlanksFit(parts);
      var blanks := Blanks(|NamesOf(parts)|);
      assert Fits(kind, parts, blanks, "", Expand(parts, blanks));
      assert SomeFit(kind, parts, Expand(parts, blanks));
    }
  }

  /** The captured values are the only ones that fill the pattern, on every path, exactly if the parameters are determined. */
  lemma OnlyFitExactlyIfDetermined(kind: PatternKind, pattern: string)
    requires PartsOf(pattern).Some?
    ensures var parts := PartsOf(pattern).value;
      Determined(kind, parts) <==>
      forall values, rest, path :: Fits(kind, parts, values, rest, path) ==>
        Match(kind, pattern, path).Some? && ValuesOf(Match(kind, pattern, path).value) == values
  {
    var parts := PartsOf(pattern).value;
    if Determined(kind, parts) {
      forall values, rest, path | Fits(kind, parts, values, rest, path)
        ensures Match(kind, pattern, path).Some? && ValuesOf(Match(kind, pattern, path).value) == values
      {
        MatchIsByParts(kind, pattern, path);
        FillsIsFits(kind, parts, values, rest, path);
        DeterminedMatches(kind, parts, values, rest, path);
      }
    } else if !Separated(parts) {
      FindsEveryFitExactlyIfSeparated(kind, pattern);
      BlanksFit(parts);
      assert Fits(kind, parts, Blanks(|NamesOf(parts)|), "", Expand(parts, Blanks(|NamesOf(parts)|)));
    } else {
      var a, restA, b, restB, path := OtherwiseAmbiguous(kind, parts);
    }
  }
}
