/**
 The claim extractors of the token module: they search a flat JSON object for `"name":` instead of
 parsing it. Integers are unbounded here; the source's fit 64 bits.
 */
module JsonClaims {
  import opened Wrappers
  import opened Sequences
  import opened Text
  import opened Decimal
  import opened Fields

  function KeyPattern(claim: string): string {
    "\"" + claim + "\":"
  }

  /** The characters of a string up to its closing quote; a backslash takes the next one as it is. */
  function Unquote(s: string): string {
    if s == "" || s[0] == '"' then ""
    else if s[0] == '\\' then (if |s| == 1 then "" else [s[1]] + Unquote(s[2..]))
    else [s[0]] + Unquote(s[1..])
  }

  function ExtractString(payload: string, claim: string): string {
    match RestAfter(payload, KeyPattern(claim) + "\"")
    case Some(rest) => Unquote(rest)
    case None =>
      match RestAfter(payload, KeyPattern(claim) + " \"")
      case Some(rest) => Unquote(rest)
      case None => ""
  }

  function DigitsPrefix(s: string): (d: string)
    ensures AllDigits(d) && d <= s
    ensures |d| < |s| ==> !IsDigit(s[|d|])
  {
    if s != "" && IsDigit(s[0]) then [s[0]] + DigitsPrefix(s[1..]) else ""
  }

  function Signed(digits: string, sign: int, default: int): int
    requires AllDigits(digits)
  {
    if digits == "" then default else sign * Value(digits)
  }

  function ReadTrimmed(s: string, default: int): int {
    if s == "" then default
    else if s[0] == '-' then Signed(DigitsPrefix(s[1..]), -1, default)
    else Signed(DigitsPrefix(s), 1, default)
  }

  function ReadInt(text: string, default: int): int {
    ReadTrimmed(TrimLeft(text, IsSpace), default)
  }

  function ExtractInt(payload: string, claim: string, default: int): int {
    match RestAfter(payload, KeyPattern(claim))
    case None => default
    case Some(rest) => ReadInt(rest, default)
  }

  // ----- The code's loops -----

  /** What is still to come at i, after a backslash or not. */
  function UnquoteFrom(payload: string, i: nat, escape: bool): string
    requires i <= |payload|
    decreases |payload| - i
  {
    if i == |payload| then ""
    else if !escape && payload[i] == '\\' then UnquoteFrom(payload, i + 1, true)
    else if !escape && payload[i] == '"' then ""
    else [payload[i]] + UnquoteFrom(payload, i + 1, false)
  }

  lemma StepAhead(payload: string, i: nat)
    requires i < |payload|
    ensures payload[i..] != "" && payload[i..][0] == payload[i] && payload[i..][1..] == payload[i + 1..]
    ensures i + 1 < |payload| ==> payload[i..][1] == payload[i + 1] && payload[i..][2..] == payload[i + 2..]
    ensures |payload[i..]| == 1 <==> i + 1 == |payload|
  {
  }

  lemma {:induction false} UnquoteFromIsUnquote(payload: string, i: nat)
    requires i <= |payload|
    ensures UnquoteFrom(payload, i, false) == Unquote(payload[i..])
    decreases |payload| - i
  {
    if i < |payload| {
      StepAhead(payload, i);
      if payload[i] == '\\' && i + 1 < |payload| {
        UnquoteFromIsUnquote(payload, i + 2);
      } else if payload[i] != '\\' {
        UnquoteFromIsUnquote(payload, i + 1);
      }
    }
  }

  method UnquoteByIndex(payload: string, pos: nat) returns (val: string)
    requires pos <= |payload|
    ensures val == Unquote(payload[pos..])
  {
    val := "";
    var escape := false;
    UnquoteFromIsUnquote(payload, pos);
    assert val + UnquoteFrom(payload, pos, false) == UnquoteFrom(payload, pos, false);
    for i := pos to |payload|
      invariant val + UnquoteFrom(payload, i, escape) == UnquoteFrom(payload, pos, false)
    {
      var c := payload[i];
      if escape {
        ConcatIsAssociative(val, [c], UnquoteFrom(payload, i + 1, false));
        val, escape := val + [c], false;
        continue;
      }
      if c == '\\' {
        escape := true;
        continue;
      }
      if c == '"' {
        assert val + "" == val;
        return val;
      }
      ConcatIsAssociative(val, [c], UnquoteFrom(payload, i + 1, false));
      val := val + [c];
    }
    assert val + "" == val;
  }

  /** Where a pattern's first occurrence ends. */
  method FindPast(payload: string, search: string) returns (pos: Option<nat>)
    ensures RestAfter(payload, search).Some? <==> pos.Some?
    ensures pos.Some? ==> pos.value <= |payload| && RestAfter(payload, search) == Some(payload[pos.value..])
  {
    FindIsFirst(payload, search, 0);
    match Find(payload, search, 0)
    case None => return None;
    case Some(at) => return Some(at + |search|);
  }

  method ExtractStringByIndex(payload: string, claim: string) returns (val: string)
    ensures val == ExtractString(payload, claim)
  {
    var pos := FindPast(payload, KeyPattern(claim) + "\"");
    if pos.None? {
      pos := FindPast(payload, KeyPattern(claim) + " \"");
      if pos.None? {
        return "";
      }
    }
    val := UnquoteByIndex(payload, pos.value);
  }

  /** The number after reading on from i with v read so far. */
  function NumberFrom(payload: string, i: nat, v: int): int
    requires i <= |payload|
    decreases |payload| - i
  {
    if i < |payload| && IsDigit(payload[i]) then NumberFrom(payload, i + 1, v * 10 + (payload[i] as int - '0' as int)) else v
  }

  lemma {:induction false} NumberFromIsValue(payload: string, i: nat, before: string)
    requires i <= |payload| && AllDigits(before)
    ensures NumberFrom(payload, i, Value(before)) == Value(before + DigitsPrefix(payload[i..]))
    decreases |payload| - i
  {
    if i < |payload| && IsDigit(payload[i]) {
      StepAhead(payload, i);
      var more := before + [payload[i]];
      assert more[..|before|] == before;
      NumberFromIsValue(payload, i + 1, more);
      ConcatIsAssociative(before, [payload[i]], DigitsPrefix(payload[i + 1..]));
    } else {
      assert DigitsPrefix(payload[i..]) == "";
      assert before + "" == before;
    }
  }

  /** `highest` is the greatest value that the loop computes: the number itself. */
  method DigitsByIndex(payload: string, pos: nat) returns (v: int, seen: bool, ghost highest: int)
    requires pos <= |payload|
    ensures highest == v >= 0
    ensures var digits := DigitsPrefix(payload[pos..]); seen == (digits != "") && v == Value(digits)
  {
    v, seen, highest := 0, false, 0;
    var i := pos;
    while i < |payload| && IsDigit(payload[i])
      invariant pos <= i <= |payload| && NumberFrom(payload, i, v) == NumberFrom(payload, pos, 0)
      invariant if i == pos then !seen else seen && IsDigit(payload[pos])
      invariant highest == v >= 0
    {
      highest := if highest < v * 10 then v * 10 else highest;
      v := v * 10 + (payload[i] as int - '0' as int);
      highest := if highest < v then v else highest;
      seen := true;
      i := i + 1;
    }
    NumberFromIsValue(payload, pos, "");
    assert "" + DigitsPrefix(payload[pos..]) == DigitsPrefix(payload[pos..]);
  }

  lemma SkipSpace(payload: string, pos: nat)
    requires pos < |payload| && IsSpace(payload[pos])
    ensures TrimLeft(payload[pos..], IsSpace) == TrimLeft(payload[pos + 1..], IsSpace)
  {
    StepAhead(payload, pos);
  }

  method SkipSpaces(payload: string, start: nat) returns (pos: nat)
    requires start <= |payload|
    ensures pos <= |payload| && TrimLeft(payload[start..], IsSpace) == payload[pos..]
  {
    pos := start;
    while pos < |payload| && IsSpace(payload[pos])
      invariant pos <= |payload| && TrimLeft(payload[pos..], IsSpace) == TrimLeft(payload[start..], IsSpace)
    {
      SkipSpace(payload, pos);
      pos := pos + 1;
    }
  }

  lemma ReadFrom(payload: string, pos: nat, default: int)
    requires pos < |payload|
    ensures ReadTrimmed(payload[pos..], default)
         == if payload[pos] == '-' then Signed(DigitsPrefix(payload[pos + 1..]), -1, default)
            else Signed(DigitsPrefix(payload[pos..]), 1, default)
  {
    StepAhead(payload, pos);
  }

  method ReadIntByIndex(payload: string, start: nat, default: int) returns (result: int)
    requires start <= |payload|
    ensures result == ReadInt(payload[start..], default)
  {
    var pos := SkipSpaces(payload, start);
    if pos >= |payload| {
      return default;
    }
    ReadFrom(payload, pos, default);
    var neg := payload[pos] == '-';
    if neg {
      pos := pos + 1;
    }
    var v, seen, _ := DigitsByIndex(payload, pos);
    if !seen {
      return default;
    }
    return if neg then -v else v;
  }

  method ExtractIntByIndex(payload: string, claim: string, default: int) returns (result: int)
    ensures result == ExtractInt(payload, claim, default)
  {
    var pos := FindPast(payload, KeyPattern(claim));
    if pos.None? {
      return default;
    }
    result := ReadIntByIndex(payload, pos.value, default);
  }

  // ----- A compact printer -----

  datatype Json = Text(text: string) | Number(number: int)

  /** A member, written with or without a space after its colon. */
  datatype Member = Member(key: string, value: Json, spaced: bool)

  function Escape(s: string): string {
    if s == "" then ""
    else (if s[0] == '"' || s[0] == '\\' then ['\\', s[0]] else [s[0]]) + Escape(s[1..])
  }

  function PrintValue(value: Json): string {
    match value
    case Text(s) => "\"" + Escape(s) + "\""
    case Number(n) => IntText(n)
  }

  function Gap(spaced: bool): string {
    if spaced then " " else ""
  }

  function PrintMember(m: Member): string {
    KeyPattern(m.key) + (Gap(m.spaced) + PrintValue(m.value))
  }

  /** The members and the closing brace. */
  function PrintMembers(members: seq<Member>): string
    decreases |members|, 1
  {
    if members == [] then "}"
    else PrintMember(members[0]) + PrintRest(members)
  }

  function PrintRest(members: seq<Member>): string
    requires members != []
    decreases |members|, 0
  {
    if |members| == 1 then "}" else "," + PrintMembers(members[1..])
  }

  /** A flat object. */
  function PrintObject(members: seq<Member>): string {
    "{" + PrintMembers(members)
  }

  predicate IsKeyChar(c: char) {
    c != '"' && c != '\\' && c != ',' && c != ':' && c != '}'
  }

  ghost predicate IsKey(key: string) {
    key != "" && forall i :: 0 <= i < |key| ==> IsKeyChar(key[i])
  }

  ghost predicate HasKeys(members: seq<Member>) {
    forall i :: 0 <= i < |members| ==> IsKey(members[i].key)
  }

  /** The first text member of a key among those written with, or without, a space. */
  function FirstText(members: seq<Member>, key: string, spaced: bool): Option<string> {
    if members == [] then None
    else if members[0].key == key && members[0].value.Text? && members[0].spaced == spaced then Some(members[0].value.text)
    else FirstText(members[1..], key, spaced)
  }

  /** The text stored under a key: its first text member without a space, or else its first with one, or nothing. */
  function LookupText(members: seq<Member>, key: string): string {
    match FirstText(members, key, false)
    case Some(text) => text
    case None =>
      match FirstText(members, key, true)
      case Some(text) => text
      case None => ""
  }

  /** The number stored under a key, or the default if its first member is no number. */
  function LookupNumber(members: seq<Member>, key: string, default: int): int {
    if members == [] then default
    else if members[0].key == key then (if members[0].value.Number? then members[0].value.number else default)
    else LookupNumber(members[1..], key, default)
  }

  // ----- Nothing but a key looks like a key -----

  lemma {:induction false} QuotesAreEscaped(s: string, m: nat)
    requires m < |Escape(s)| && Escape(s)[m] == '"'
    ensures m > 0 && Escape(s)[m - 1] == '\\'
  {
    var head := if s[0] == '"' || s[0] == '\\' then ['\\', s[0]] else [s[0]];
    if m >= |head| {
      QuotesAreEscaped(s[1..], m - |head|);
    }
  }

  /** At i the text has a quoted key of n characters and a colon. */
  ghost predicate KeyAt(t: string, i: int, n: nat) {
    && 0 <= i && n > 0 && i + n + 2 < |t|
    && t[i] == '"' && t[i + n + 1] == '"' && t[i + n + 2] == ':'
    && forall x :: i < x <= i + n ==> IsKeyChar(t[x])
  }

  lemma SliceOfSlice(t: string, i: nat, j: nat, a: nat, b: nat)
    requires i <= j <= |t| && a <= b <= j - i
    ensures t[i..j][a..b] == t[i + a..i + b]
  {
    var inner, outer := t[i..j][a..b], t[i + a..i + b];
    assert |inner| == |outer|;
    assert forall x :: 0 <= x < |inner| ==> inner[x] == outer[x];
  }

  lemma PatternIsKey(t: string, i: int, k: string)
    requires MatchAt(t, i, KeyPattern(k)) && IsKey(k)
    ensures KeyAt(t, i, |k|) && t[i + 1..i + 1 + |k|] == k
  {
    var p := KeyPattern(k);
    var piece := t[i..i + |p|];
    assert piece[0] == p[0] && piece[|k| + 1] == p[|k| + 1] && piece[|k| + 2] == p[|k| + 2];
    assert piece[1..1 + |k|] == k;
    SliceOfSlice(t, i, i + |p|, 1, 1 + |k|);
    forall x | i < x <= i + |k| ensures IsKeyChar(t[x]) {
      assert t[x] == k[x - i - 1];
    }
  }

  /** Between start and stop stands a number, or a quoted text in which quotes follow a backslash. */
  ghost predicate ValueShape(t: string, start: nat, stop: nat) {
    && start <= stop <= |t|
    && (|| (forall x :: start <= x < stop ==> t[x] != '"')
        || (&& start + 2 <= stop && t[start] == '"' && t[stop - 1] == '"'
            && forall x :: start < x < stop - 1 && t[x] == '"' ==> t[x - 1] == '\\'))
  }

  lemma PrintedValueShape(v: Json)
    ensures ValueShape(PrintValue(v), 0, |PrintValue(v)|)
  {
    var value := PrintValue(v);
    match v
    case Number(n) =>
      IntTextChars(n);
      assert forall x :: 0 <= x < |value| ==> value[x] in value;
    case Text(s) =>
      forall x | 0 < x < |value| - 1 && value[x] == '"' ensures value[x - 1] == '\\' {
        assert value[x] == Escape(s)[x - 1];
        QuotesAreEscaped(s, x - 1);
        assert value[x - 1] == Escape(s)[x - 2];
      }
  }

  lemma ShapeMoves(t: string, start: nat, v: string)
    requires start + |v| <= |t| && t[start..start + |v|] == v && ValueShape(v, 0, |v|)
    ensures ValueShape(t, start, start + |v|)
  {
    assert forall x :: start <= x < start + |v| ==> t[x] == v[x - start];
  }

  /** A text begins with a member: its key, a gap, its value, and a comma or a brace. */
  ghost predicate MemberShape(t: string, keyLength: nat, start: nat, stop: nat) {
    && keyLength + 3 <= start <= stop < |t|
    && KeyAt(t, 0, keyLength)
    && (forall x :: keyLength + 3 <= x < start ==> t[x] == ' ')
    && ValueShape(t, start, stop)
    && (t[stop] == ',' || t[stop] == '}')
  }

  lemma NoKeyInValue(t: string, start: nat, stop: nat, i: nat, n: nat)
    requires ValueShape(t, start, stop) && stop < |t| && (t[stop] == ',' || t[stop] == '}')
    requires start <= i < stop
    ensures !KeyAt(t, i, n)
  {
    assert KeyAt(t, i, n) ==> IsKeyChar(t[i + 1]) && IsKeyChar(t[i + n]);
    if KeyAt(t, i, n) {
      assert false;
    }
  }

  /** In a member, only its own key looks like a key: the value does not, whatever text it is. */
  lemma NoKeyInside(t: string, keyLength: nat, start: nat, stop: nat, i: nat, n: nat)
    requires MemberShape(t, keyLength, start, stop) && 0 < i <= stop
    ensures !KeyAt(t, i, n)
  {
    assert KeyAt(t, i, n) ==> IsKeyChar(t[i + 1]);
    if KeyAt(t, i, n) {
      if start <= i < stop {
        NoKeyInValue(t, start, stop, i, n);
      }
      assert false;
    }
  }

  /** At its own start, a printed member matches exactly its own key. */
  lemma OwnKeyOnly(t: string, m: Member, k: string)
    requires IsKey(m.key) && IsKey(k)
    requires MatchAt(t, 0, KeyPattern(m.key))
    ensures MatchAt(t, 0, KeyPattern(k)) <==> k == m.key
  {
    PatternIsKey(t, 0, m.key);
    if MatchAt(t, 0, KeyPattern(k)) {
      PatternIsKey(t, 0, k);
    }
  }

  lemma KeyPatternIsKey(key: string)
    requires IsKey(key)
    ensures |KeyPattern(key)| == |key| + 3 && KeyAt(KeyPattern(key), 0, |key|)
  {
    PatternIsKey(KeyPattern(key), 0, key);
  }

  /** A text is four parts: a key, a gap, a value, and something that begins with a comma or a brace. */
  ghost predicate HasParts(t: string, p: string, g: string, v: string) {
    && |p| + |g| + |v| < |t|
    && t[..|p|] == p
    && (forall x :: |p| <= x < |p| + |g| ==> t[x] == g[x - |p|])
    && t[|p| + |g|..|p| + |g| + |v|] == v
    && (t[|p| + |g| + |v|] == ',' || t[|p| + |g| + |v|] == '}')
  }

  lemma MemberParts(t: string, p: string, g: string, v: string, rest: string)
    requires t == p + (g + v) + rest && rest != "" && (rest[0] == ',' || rest[0] == '}')
    ensures HasParts(t, p, g, v)
  {
  }

  lemma KeyStays(t: string, n: nat, p: string)
    requires p <= t && KeyAt(p, 0, n)
    ensures KeyAt(t, 0, n)
  {
  }

  lemma PartsAreLaidOut(t: string, n: nat, p: string, g: string, v: string)
    requires HasParts(t, p, g, v) && |p| == n + 3 && KeyAt(p, 0, n) && ValueShape(v, 0, |v|)
    requires forall x :: 0 <= x < |g| ==> g[x] == ' '
    ensures MemberShape(t, n, n + 3 + |g|, n + 3 + |g| + |v|)
  {
    KeyStays(t, n, p);
    ShapeMoves(t, |p| + |g|, v);
  }

  /** A text begins with a printed member; after it comes a comma or a brace. */
  ghost predicate Begins(t: string, m: Member, tail: string) {
    t == PrintMember(m) + tail && tail != "" && (tail[0] == ',' || tail[0] == '}')
  }

  lemma MemberHasParts(t: string, m: Member, tail: string)
    requires Begins(t, m, tail)
    ensures HasParts(t, KeyPattern(m.key), Gap(m.spaced), PrintValue(m.value))
  {
    MemberParts(t, KeyPattern(m.key), Gap(m.spaced), PrintValue(m.value), tail);
  }

  lemma MemberIsLaidOut(t: string, m: Member, gap: string)
    requires IsKey(m.key) && HasParts(t, KeyPattern(m.key), gap, PrintValue(m.value))
    requires forall x :: 0 <= x < |gap| ==> gap[x] == ' '
    ensures MemberShape(t, |m.key|, |m.key| + 3 + |gap|, |m.key| + 3 + |gap| + |PrintValue(m.value)|)
  {
    PrintedValueShape(m.value);
    KeyPatternIsKey(m.key);
    PartsAreLaidOut(t, |m.key|, KeyPattern(m.key), gap, PrintValue(m.value));
  }

  lemma MemberLength(m: Member)
    ensures |PrintMember(m)| == |m.key| + 3 + |Gap(m.spaced)| + |PrintValue(m.value)|
  {
  }

  // ----- The extractors invert the printer -----

  lemma SkipUnmatched(t: string, n: nat, pattern: string)
    requires n <= |t| && pattern != "" && forall i: nat :: i < n ==> !MatchAt(t, i, pattern)
    ensures RestAfter(t, pattern) == if t[n..] == "" then None else RestAfter(t[n..], pattern)
  {
    AfterSkips(t, n, pattern);
    if t[n..] == "" {
      AfterNothing("", pattern);
    }
  }

  lemma PrefixMatches(t: string, i: int, short: string, long: string)
    requires short <= long && MatchAt(t, i, long)
    ensures MatchAt(t, i, short)
  {
    assert t[i..i + |short|] == t[i..i + |long|][..|short|];
  }

  lemma NoKeyNoPattern(t: string, i: nat, k: string, pattern: string)
    requires IsKey(k) && KeyPattern(k) <= pattern && !KeyAt(t, i, |k|)
    ensures !MatchAt(t, i, pattern)
  {
    if MatchAt(t, i, pattern) {
      PrefixMatches(t, i, KeyPattern(k), pattern);
      PatternIsKey(t, i, k);
      assert false;
    }
  }

  lemma NoPatternInShape(t: string, keyLength: nat, start: nat, stop: nat, k: string, pattern: string, i: nat)
    requires MemberShape(t, keyLength, start, stop) && IsKey(k) && KeyPattern(k) <= pattern && 0 < i <= stop
    ensures !MatchAt(t, i, pattern)
  {
    NoKeyInside(t, keyLength, start, stop, i, |k|);
    NoKeyNoPattern(t, i, k, pattern);
  }

  lemma ShapeOfPrinted(t: string, m: Member, tail: string)
    requires Begins(t, m, tail) && IsKey(m.key)
    ensures MemberShape(t, |m.key|, |m.key| + 3 + |Gap(m.spaced)|, |PrintMember(m)|)
  {
    MemberLength(m);
    MemberHasParts(t, m, tail);
    MemberIsLaidOut(t, m, Gap(m.spaced));
  }
  lemma AfterSeparator(t: string, a: string, separator: string, rest: string)
    requires t == a + (separator + rest) && |separator| == 1
    ensures |a| + 1 <= |t| && t[|a| + 1..] == rest
  {
  }

  /** Any pattern that begins with a key pattern can only match at the start of a member. */
  lemma SkipMember(t: string, m: Member, tail: string, k: string, pattern: string)
    requires Begins(t, m, tail) && IsKey(m.key) && IsKey(k) && KeyPattern(k) <= pattern
    requires !MatchAt(t, 0, pattern)
    ensures RestAfter(t, pattern) == if tail[1..] == "" then None else RestAfter(tail[1..], pattern)
  {
    var n := |PrintMember(m)| + 1;
    AfterSeparator(t, PrintMember(m), tail[..1], tail[1..]);
    ShapeOfPrinted(t, m, tail);
    forall i: nat | i < n ensures !MatchAt(t, i, pattern) {
      if i > 0 {
        NoPatternInShape(t, |m.key|, |m.key| + 3 + |Gap(m.spaced)|, n - 1, k, pattern, i);
      }
    }
    SkipUnmatched(t, n, pattern);
  }

  lemma PrintedBegins(members: seq<Member>)
    requires members != []
    ensures Begins(PrintMembers(members), members[0], PrintRest(members))
    ensures PrintRest(members)[1..] == if |members| == 1 then "" else PrintMembers(members[1..])
  {
  }

  lemma NotEmpty(members: seq<Member>)
    ensures |members| > 1 ==> PrintMembers(members[1..]) != ""
  {
  }

  lemma SkipFirst(members: seq<Member>, k: string, pattern: string)
    requires members != [] && HasKeys(members) && IsKey(k) && KeyPattern(k) <= pattern
    requires !MatchAt(PrintMembers(members), 0, pattern)
    ensures RestAfter(PrintMembers(members), pattern)
         == if |members| == 1 then None else RestAfter(PrintMembers(members[1..]), pattern)
  {
    PrintedBegins(members);
    SkipMember(PrintMembers(members), members[0], PrintRest(members), k, pattern);
    NotEmpty(members);
  }

  lemma AfterPattern(t: string, p: string, v: string, rest: string)
    requires t == p + v + rest
    ensures MatchAt(t, 0, p) && t[|p|..] == v + rest
  {
  }

  /** The start of the printed members, up to the first value. */
  lemma FirstValue(members: seq<Member>)
    requires members != []
    ensures var t := PrintMembers(members);
      && MatchAt(t, 0, KeyPattern(members[0].key))
      && t[|KeyPattern(members[0].key)|..] == Gap(members[0].spaced) + PrintValue(members[0].value) + PrintRest(members)
  {
    var m := members[0];
    AfterPattern(PrintMembers(members), KeyPattern(m.key), Gap(members[0].spaced) + PrintValue(m.value), PrintRest(members));
  }

  lemma {:induction false} UnquoteOfEscape(s: string, rest: string)
    ensures Unquote(Escape(s) + ("\"" + rest)) == s
  {
    if s == "" {
      assert "" + ("\"" + rest) == "\"" + rest;
    } else {
      var head := if s[0] == '"' || s[0] == '\\' then ['\\', s[0]] else [s[0]];
      var tail := Escape(s[1..]) + ("\"" + rest);
      ConcatIsAssociative(head, Escape(s[1..]), "\"" + rest);
      assert Escape(s) + ("\"" + rest) == head + tail;
      UnquoteOfEscape(s[1..], rest);
      assert (head + tail)[|head|..] == tail;
      assert [s[0]] + s[1..] == s;
    }
  }

  lemma {:induction false} DigitsPrefixOfDigits(d: string, rest: string)
    requires AllDigits(d) && (rest == "" || !IsDigit(rest[0]))
    ensures DigitsPrefix(d + rest) == d
  {
    if d == "" {
      assert d + rest == rest;
    } else {
      assert (d + rest)[1..] == d[1..] + rest;
      DigitsPrefixOfDigits(d[1..], rest);
    }
  }

  lemma TrimGap(spaced: bool, value: string, rest: string)
    requires value != "" && !IsSpace(value[0])
    ensures TrimLeft(Gap(spaced) + value + rest, IsSpace) == value + rest
  {
    ConcatIsAssociative(Gap(spaced), value, rest);
    TrimLeftPadded(Gap(spaced), value + rest, IsSpace);
  }

  lemma ReadPrintedInt(spaced: bool, n: int, rest: string, default: int)
    requires rest != "" && (rest[0] == ',' || rest[0] == '}')
    ensures ReadInt(Gap(spaced) + IntText(n) + rest, default) == n
  {
    var size := if n < 0 then -n else n;
    var digits := Digits(size);
    ValueOfDigits(size);
    DigitsAreDigits(size);
    DigitsPrefixOfDigits(digits, rest);
    TrimGap(spaced, IntText(n), rest);
    if n < 0 {
      ConcatIsAssociative("-", digits, rest);
      assert ("-" + (digits + rest))[1..] == digits + rest;
      assert ReadTrimmed("-" + (digits + rest), default) == n;
    } else {
      assert (digits + rest)[0] == digits[0];
      assert ReadTrimmed(digits + rest, default) == n;
    }
  }

  lemma ReadPrintedText(spaced: bool, s: string, rest: string, default: int)
    ensures ReadInt(Gap(spaced) + PrintValue(Text(s)) + rest, default) == default
  {
    var value := PrintValue(Text(s));
    TrimGap(spaced, value, rest);
    assert (value + rest)[0] == '"';
    assert DigitsPrefix(value + rest) == "";
  }

  lemma NothingInBrace(pattern: string)
    requires |pattern| > 1
    ensures RestAfter("}", pattern).None?
  {
    AfterNothing("}", pattern);
  }

  lemma {:induction false} NumberOfMembers(members: seq<Member>, key: string, default: int)
    requires HasKeys(members) && IsKey(key)
    ensures (match RestAfter(PrintMembers(members), KeyPattern(key))
             case None => default
             case Some(rest) => ReadInt(rest, default)) == LookupNumber(members, key, default)
    decreases |members|
  {
    if members == [] {
      NothingInBrace(KeyPattern(key));
    } else {
      var t, m := PrintMembers(members), members[0];
      FirstValue(members);
      OwnKeyOnly(t, m, key);
      if m.key == key {
        AfterHere(t, KeyPattern(key));
        match m.value
        case Number(n) => ReadPrintedInt(m.spaced, n, PrintRest(members), default);
        case Text(s) => ReadPrintedText(m.spaced, s, PrintRest(members), default);
      } else {
        SkipFirst(members, key, KeyPattern(key));
        NumberOfMembers(members[1..], key, default);
        if |members| == 1 {
          NothingInBrace(KeyPattern(key));
        }
      }
    }
  }

  lemma MatchSplits(t: string, p: string, q: string, rest: string)
    requires MatchAt(t, 0, p) && t[|p|..] == rest
    ensures MatchAt(t, 0, p + q) <==> |q| <= |rest| && rest[..|q|] == q
  {
    assert t == p + rest;
    if |q| <= |rest| {
      assert t[0..|p| + |q|] == p + rest[..|q|];
      assert rest[..|q|] == t[0..|p| + |q|][|p|..];
    }
  }

  lemma ValueStart(v: Json, spaced: bool, rest: string, gap: string)
    requires rest != "" && (gap == "" || gap == " ")
    ensures var s, q := Gap(spaced) + PrintValue(v) + rest, gap + "\"";
      |q| <= |s| && s[..|q|] == q <==> v.Text? && gap == Gap(spaced)
  {
    var value := PrintValue(v);
    var s, q := Gap(spaced) + value + rest, gap + "\"";
    if v.Number? {
      IntTextChars(v.number);
      assert value[0] in value;
    }
    assert value[0] == '"' <==> v.Text?;
    assert value[0] != ' ';
    assert s[|Gap(spaced)|] == value[0];
    assert q[|gap|] == '"';
    if |q| <= |s| && s[..|q|] == q {
      assert s[..|q|][0] == s[0] && s[..|q|][|gap|] == s[|gap|];
    }
    if v.Text? && gap == Gap(spaced) {
      assert s[..|q|] == q;
    }
  }

  /** A quoted pattern matches at a member's start exactly if the member is a text of that key, printed with that gap. */
  lemma QuotedPatternMatches(members: seq<Member>, key: string, gap: string)
    requires members != [] && HasKeys(members) && IsKey(key) && (gap == "" || gap == " ")
    ensures MatchAt(PrintMembers(members), 0, KeyPattern(key) + (gap + "\""))
            <==> members[0].key == key && members[0].value.Text? && gap == Gap(members[0].spaced)
  {
    var t, m := PrintMembers(members), members[0];
    FirstValue(members);
    OwnKeyOnly(t, m, key);
    var p, q := KeyPattern(key), gap + "\"";
    if MatchAt(t, 0, p + q) {
      PrefixMatches(t, 0, p, p + q);
    }
    if m.key == key {
      var rest := Gap(members[0].spaced) + PrintValue(m.value) + PrintRest(members);
      assert MatchAt(t, 0, p + q) <==> |q| <= |rest| && rest[..|q|] == q by {
        MatchSplits(t, p, q, rest);
      }
      ValueStart(m.value, m.spaced, PrintRest(members), gap);
    }
  }

  lemma OpeningQuote(gap: string, text: string, rest: string)
    ensures gap + ("\"" + text + "\"") + rest == (gap + "\"") + (text + ("\"" + rest))
  {
  }

  lemma AfterLonger(t: string, p: string, q: string, rest: string)
    requires |p| <= |t| && t[|p|..] == q + rest
    ensures |p + q| <= |t| && t[|p + q|..] == rest
  {
    assert t[|p| + |q|..] == t[|p|..][|q|..];
  }

  lemma TextHere(members: seq<Member>, key: string)
    requires members != [] && members[0].key == key && members[0].value.Text?
    ensures var t, pattern := PrintMembers(members), KeyPattern(key) + (Gap(members[0].spaced) + "\"");
      |pattern| <= |t| && Unquote(t[|pattern|..]) == members[0].value.text
  {
    var s, rest := members[0].value.text, PrintRest(members);
    FirstValue(members);
    OpeningQuote(Gap(members[0].spaced), Escape(s), rest);
    AfterLonger(PrintMembers(members), KeyPattern(key), Gap(members[0].spaced) + "\"", Escape(s) + ("\"" + rest));
    UnquoteOfEscape(s, rest);
  }

  /** What follows the opening quote of a text. */
  ghost predicate OpensText(rest: Option<string>, text: Option<string>) {
    match rest
    case None => text.None?
    case Some(r) => text == Some(Unquote(r))
  }

  lemma {:induction false} TextOfMembers(members: seq<Member>, key: string, spaced: bool)
    requires HasKeys(members) && IsKey(key)
    ensures OpensText(RestAfter(PrintMembers(members), KeyPattern(key) + (Gap(spaced) + "\"")), FirstText(members, key, spaced))
    decreases |members|
  {
    var pattern := KeyPattern(key) + (Gap(spaced) + "\"");
    if members == [] {
      NothingInBrace(pattern);
    } else {
      QuotedPatternMatches(members, key, Gap(spaced));
      if members[0].key == key && members[0].value.Text? && members[0].spaced == spaced {
        AfterHere(PrintMembers(members), pattern);
        TextHere(members, key);
      } else {
        SkipFirst(members, key, pattern);
        if |members| > 1 {
          TextOfMembers(members[1..], key, spaced);
        } else {
          assert FirstText(members[1..], key, spaced) == None;
        }
      }
    }
  }

  lemma FirstChar(t: string, pattern: string)
    requires t != "" && pattern != "" && t[0] != pattern[0]
    ensures !MatchAt(t, 0, pattern)
  {
    assert |pattern| <= |t| ==> t[0..|pattern|][0] == t[0];
  }

  lemma SkipBrace(members: seq<Member>, pattern: string)
    requires pattern != "" && pattern[0] == '"'
    ensures RestAfter(PrintObject(members), pattern) == RestAfter(PrintMembers(members), pattern)
  {
    var t := PrintObject(members);
    FirstChar(t, pattern);
    AfterSkips(t, 1, pattern);
    assert t[1..] == PrintMembers(members);
  }

  /** The text extractor returns the text stored under the key, and nothing if there is none. */
  lemma ExtractedText(members: seq<Member>, key: string)
    requires HasKeys(members) && IsKey(key)
    ensures ExtractString(PrintObject(members), key) == LookupText(members, key)
  {
    TextOfMembers(members, key, false);
    TextOfMembers(members, key, true);
    var tight, loose := KeyPattern(key) + "\"", KeyPattern(key) + " \"";
    assert tight == KeyPattern(key) + (Gap(false) + "\"") && loose == KeyPattern(key) + (Gap(true) + "\"");
    SkipBrace(members, tight);
    SkipBrace(members, loose);
  }

  /** The integer extractor returns the number stored under the key, and the default if there is none. */
  lemma ExtractedNumber(members: seq<Member>, key: string, default: int)
    requires HasKeys(members) && IsKey(key)
    ensures ExtractInt(PrintObject(members), key, default) == LookupNumber(members, key, default)
  {
    NumberOfMembers(members, key, default);
    SkipBrace(members, KeyPattern(key));
  }

  lemma {:induction false} AbsentKey(members: seq<Member>, key: string, default: int)
    requires forall i :: 0 <= i < |members| ==> members[i].key != key
    ensures FirstText(members, key, false).None? && FirstText(members, key, true).None?
    ensures LookupNumber(members, key, default) == default
  {
    if members != [] {
      AbsentKey(members[1..], key, default);
    }
  }

  lemma {:induction false} DistinctKeysFirst(members: seq<Member>, j: nat, spaced: bool)
    requires j < |members|
    requires forall i, k :: 0 <= i < k < |members| ==> members[i].key != members[k].key
    ensures FirstText(members, members[j].key, spaced)
         == if members[j].value.Text? && members[j].spaced == spaced then Some(members[j].value.text) else None
  {
    if j > 0 {
      DistinctKeysFirst(members[1..], j - 1, spaced);
    } else {
      AbsentKey(members[1..], members[0].key, 0);
    }
  }

  lemma {:induction false} DistinctKeysNumber(members: seq<Member>, j: nat, default: int)
    requires j < |members|
    requires forall i, k :: 0 <= i < k < |members| ==> members[i].key != members[k].key
    ensures LookupNumber(members, members[j].key, default)
         == if members[j].value.Number? then members[j].value.number else default
  {
    if j > 0 {
      DistinctKeysNumber(members[1..], j - 1, default);
    } else {
      AbsentKey(members[1..], members[0].key, default);
    }
  }

  /** With distinct keys, that is the member itself. */
  lemma DistinctKeysLookup(members: seq<Member>, j: nat, default: int)
    requires j < |members|
    requires forall i, k :: 0 <= i < k < |members| ==> members[i].key != members[k].key
    ensures LookupText(members, members[j].key) == if members[j].value.Text? then members[j].value.text else ""
    ensures LookupNumber(members, members[j].key, default)
         == if members[j].value.Number? then members[j].value.number else default
  {
    DistinctKeysFirst(members, j, false);
    DistinctKeysFirst(members, j, true);
    DistinctKeysNumber(members, j, default);
  }

  // ----- Any text, printed or not -----

  /** After any spaces, a number is read to its last digit, whatever follows. */
  lemma NumberReadsBack(spaces: string, negative: bool, digits: string, rest: string, default: int)
    requires forall c :: c in spaces ==> IsSpace(c)
    requires digits != "" && AllDigits(digits) && (rest == "" || !IsDigit(rest[0]))
    ensures ReadInt(spaces + ((if negative then "-" else "") + (digits + rest)), default)
         == (if negative then -1 else 1) * Value(digits)
  {
    var text := (if negative then "-" else "") + (digits + rest);
    DigitsPrefixOfDigits(digits, rest);
    assert text[0] == (if negative then '-' else digits[0]);
    TrimLeftPadded(spaces, text, IsSpace);
    if negative {
      assert text[1..] == digits + rest;
    } else {
      assert text == digits + rest;
    }
  }

  /** Anything else than a sign and digits, or digits, gives the default. */
  lemma OtherwiseDefault(spaces: string, text: string, default: int)
    requires forall c :: c in spaces ==> IsSpace(c)
    requires text != "" && !IsSpace(text[0]) && !IsDigit(text[0]) && (text[0] == '-' ==> |text| == 1 || !IsDigit(text[1]))
    ensures ReadInt(spaces + text, default) == default
  {
    TrimLeftPadded(spaces, text, IsSpace);
    assert DigitsPrefix(text) == "";
    if text[0] == '-' {
      assert |text| > 1 ==> text[1..][0] == text[1];
      assert DigitsPrefix(text[1..]) == "";
    }
  }

  /** A string with a backslash before the quotes, the backslashes, and any other marked characters. */
  function EscapeAs(s: string, marks: seq<bool>): string
    requires |marks| == |s|
  {
    if s == "" then ""
    else (if marks[0] || s[0] == '"' || s[0] == '\\' then ['\\', s[0]] else [s[0]]) + EscapeAs(s[1..], marks[1..])
  }

  /** Each backslash takes the next character as it is, up to the closing quote, or to the end if there is none. */
  lemma {:induction false} UnquoteOfAnyEscapes(s: string, marks: seq<bool>, tail: string)
    requires |marks| == |s| && (tail == "" || tail == "\\" || tail[0] == '"')
    ensures Unquote(EscapeAs(s, marks) + tail) == s
  {
    if s == "" {
      assert "" + tail == tail;
    } else {
      var head := if marks[0] || s[0] == '"' || s[0] == '\\' then ['\\', s[0]] else [s[0]];
      var more := EscapeAs(s[1..], marks[1..]) + tail;
      ConcatIsAssociative(head, EscapeAs(s[1..], marks[1..]), tail);
      UnquoteOfAnyEscapes(s[1..], marks[1..], tail);
      assert (head + more)[|head|..] == more;
      assert [s[0]] + s[1..] == s;
    }
  }

  const INT64_LIMIT: int := 0x8000_0000_0000_0000

  /** The least 64-bit number fits, yet its digits are read as a number that does not. */
  lemma LeastNumberIsReadThroughItsMagnitude()
    ensures IntText(-INT64_LIMIT)[0] == '-' && IntText(-INT64_LIMIT)[1..] == Digits(INT64_LIMIT)
    ensures AllDigits(Digits(INT64_LIMIT)) && Value(Digits(INT64_LIMIT)) == INT64_LIMIT
  {
    ValueOfDigits(INT64_LIMIT);
  }
}
