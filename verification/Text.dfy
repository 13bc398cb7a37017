/** String searching and trimming, as std::string_view offers them. A character stands for a byte. */
module Text {
  import opened Wrappers
  import opened Sequences

  const CRLF: string := "\r\n"
  const HEADER_END: string := "\r\n\r\n"

  predicate MatchAt(s: string, i: int, pattern: string) {
    0 <= i <= |s| - |pattern| && s[i..i + |pattern|] == pattern
  }

  /** string_view::find: the first occurrence at or after `from`. */
  function Find(s: string, pattern: string, from: nat): Option<nat>
    decreases |s| - from
  {
    if MatchAt(s, from, pattern) then Some(from)
    else if from >= |s| then None
    else Find(s, pattern, from + 1)
  }

  /** `Find` is the first match, and None if there is none. */
  lemma {:induction false} FindIsFirst(s: string, pattern: string, from: nat)
    ensures match Find(s, pattern, from)
            case Some(at) =>
              from <= at && MatchAt(s, at, pattern) && forall k :: from <= k < at ==> !MatchAt(s, k, pattern)
            case None => forall k :: from <= k ==> !MatchAt(s, k, pattern)
    decreases |s| - from
  {
    if !MatchAt(s, from, pattern) && from < |s| {
      FindIsFirst(s, pattern, from + 1);
    }
  }

  lemma FindIs(s: string, pattern: string, from: nat, at: nat)
    requires from <= at && MatchAt(s, at, pattern)
    requires forall k :: from <= k < at ==> !MatchAt(s, k, pattern)
    ensures Find(s, pattern, from) == Some(at)
  {
    FindIsFirst(s, pattern, from);
  }

  lemma FindNothing(s: string, pattern: string, from: nat)
    requires forall k :: from <= k ==> !MatchAt(s, k, pattern)
    ensures Find(s, pattern, from).None?
  {
    FindIsFirst(s, pattern, from);
  }

  /** What follows the first occurrence of a pattern. */
  function RestAfter(s: string, pattern: string): Option<string> {
    FindIsFirst(s, pattern, 0);
    match Find(s, pattern, 0)
    case None => None
    case Some(at) => Some(s[at + |pattern|..])
  }

  lemma AfterHere(s: string, pattern: string)
    requires MatchAt(s, 0, pattern)
    ensures RestAfter(s, pattern) == Some(s[|pattern|..])
  {
  }

  lemma AfterNothing(s: string, pattern: string)
    requires forall k :: 0 <= k ==> !MatchAt(s, k, pattern)
    ensures RestAfter(s, pattern).None?
  {
    FindNothing(s, pattern, 0);
  }

  lemma SuffixOfSuffix(s: string, begin: nat, skip: nat)
    requires begin + skip <= |s|
    ensures s[begin..][skip..] == s[begin + skip..]
  {
  }

  lemma MatchInSuffix(s: string, n: nat, k: int, pattern: string)
    requires n <= |s| && k >= 0
    ensures MatchAt(s[n..], k, pattern) <==> MatchAt(s, n + k, pattern)
  {
    if n + k + |pattern| <= |s| {
      assert s[n..][k..k + |pattern|] == s[n + k..n + k + |pattern|];
    }
  }

  /** A part without matches can be skipped. */
  lemma AfterSkips(s: string, n: nat, pattern: string)
    requires n <= |s| && forall k :: 0 <= k < n ==> !MatchAt(s, k, pattern)
    ensures RestAfter(s, pattern) == RestAfter(s[n..], pattern)
  {
    FindIsFirst(s[n..], pattern, 0);
    forall k: nat ensures MatchAt(s[n..], k, pattern) <==> MatchAt(s, n + k, pattern) {
      MatchInSuffix(s, n, k, pattern);
    }
    match Find(s[n..], pattern, 0)
    case None =>
      forall k: nat ensures !MatchAt(s, k, pattern) {
        assert k >= n ==> !MatchAt(s[n..], k - n, pattern);
      }
      FindNothing(s, pattern, 0);
    case Some(at) =>
      forall k | 0 <= k < n + at ensures !MatchAt(s, k, pattern) {
        assert k >= n ==> !MatchAt(s[n..], k - n, pattern);
      }
      FindIs(s, pattern, 0, n + at);
      SuffixOfSuffix(s, n, at + |pattern|);
  }

  /** The same for a single character. */
  function FindChar(s: string, c: char, from: nat): (r: Option<nat>)
    ensures r.Some? ==> from <= r.value < |s| && s[r.value] == c
    ensures r.Some? ==> forall k :: from <= k < r.value ==> s[k] != c
    ensures r.None? ==> forall k :: from <= k < |s| ==> s[k] != c
    decreases |s| - from
  {
    if from >= |s| then None
    else if s[from] == c then Some(from)
    else FindChar(s, c, from + 1)
  }

  /** s is `prefix`, then the character, then `rest`. */
  predicate Divides(s: string, prefix: string, c: char, rest: string) {
    |prefix| < |s| && s[..|prefix|] == prefix && s[|prefix|] == c && s[|prefix| + 1..] == rest
  }

  lemma ConcatDivides(s: string, prefix: string, c: char, rest: string)
    requires s == prefix + [c] + rest
    ensures Divides(s, prefix, c, rest)
  {
  }

  /** The first occurrence of a character placed after a text free of it. */
  lemma FindAfterFree(s: string, prefix: string, c: char, rest: string)
    requires Divides(s, prefix, c, rest) && c !in prefix
    ensures FindChar(s, c, 0) == Some(|prefix|)
  {
    assert forall k :: 0 <= k < |prefix| ==> s[k] == prefix[k];
  }

  /** Searching from an index is searching the suffix. */
  lemma FindCharInSuffix(s: string, c: char, begin: nat)
    requires begin <= |s|
    ensures FindChar(s[begin..], c, 0) == match FindChar(s, c, begin)
                                          case None => None
                                          case Some(at) => Some(at - begin)
  {
    var rest := s[begin..];
    assert forall k :: 0 <= k < |rest| ==> rest[k] == s[begin + k];
    match FindChar(s, c, begin)
    case None =>
    case Some(at) => assert rest[at - begin] == c;
  }

  lemma MatchTwo(s: string, i: int, p: string)
    requires |p| == 2
    ensures MatchAt(s, i, p) <==> 0 <= i < |s| - 1 && s[i] == p[0] && s[i + 1] == p[1]
  {
    if 0 <= i < |s| - 1 {
      assert s[i..i + 2] == [s[i], s[i + 1]];
      assert p == [p[0], p[1]];
    }
  }

  lemma MatchFour(s: string, i: int, p: string)
    requires |p| == 4
    ensures MatchAt(s, i, p) <==>
            0 <= i < |s| - 3 && s[i] == p[0] && s[i + 1] == p[1] && s[i + 2] == p[2] && s[i + 3] == p[3]
  {
    if 0 <= i < |s| - 3 {
      assert s[i..i + 4] == [s[i], s[i + 1], s[i + 2], s[i + 3]];
      assert p == [p[0], p[1], p[2], p[3]];
    }
  }

  // ----- Lines -----

  /** Lines, each followed by CRLF. */
  function Unlines(lines: seq<string>): string {
    if lines == [] then "" else lines[0] + CRLF + Unlines(lines[1..])
  }

  /** The lines of a text, each ended by the next CRLF; what follows the last CRLF is dropped. */
  function LinesOf(text: string): seq<string>
    decreases |text|
  {
    match Find(text, CRLF, 0)
    case None => []
    case Some(end) =>
      FindIsFirst(text, CRLF, 0);
      [text[..end]] + LinesOf(text[end + 2..])
  }

  ghost predicate OneLine(line: string) {
    forall k: int :: !MatchAt(line, k, CRLF)
  }

  lemma NoReturnIsOneLine(line: string)
    requires '\r' !in line
    ensures OneLine(line)
  {
    forall k: int ensures !MatchAt(line, k, CRLF) {
      MatchTwo(line, k, CRLF);
    }
  }

  /** The text is a line, a line end, and the rest. */
  predicate StartsWithLine(text: string, line: string, rest: string) {
    && |line| + 2 <= |text|
    && text[..|line|] == line
    && text[|line|..|line| + 2] == CRLF
    && text[|line| + 2..] == rest
  }

  lemma ConcatStartsWithLine(text: string, line: string, rest: string)
    requires text == line + CRLF + rest
    ensures StartsWithLine(text, line, rest)
  {
  }

  /** In a text that starts with a line, no CRLF starts inside the line. */
  lemma NoLineEndInside(text: string, line: string, rest: string, k: nat)
    requires StartsWithLine(text, line, rest) && OneLine(line) && k < |line|
    ensures !MatchAt(text, k, CRLF)
  {
    MatchTwo(text, k, CRLF);
    MatchTwo(line, k, CRLF);
    MatchTwo(text, |line|, CRLF);
    assert text[k] == line[k];
    assert k + 1 < |line| ==> text[k + 1] == line[k + 1];
    assert MatchAt(text, |line|, CRLF);
  }

  /** At an index the text has a line and its line end. */
  predicate LineAt(block: string, begin: nat, line: string) {
    begin + |line| <= |block| && block[begin..begin + |line|] == line && MatchAt(block, begin + |line|, CRLF)
  }

  lemma SuffixStartsWithLine(block: string, begin: nat, tail: string, line: string, rest: string)
    requires begin <= |block| && block[begin..] == tail && StartsWithLine(tail, line, rest)
    ensures LineAt(block, begin, line) && block[begin + |line| + 2..] == rest
  {
    var end := begin + |line|;
    assert block[begin..end] == tail[..|line|];
    assert block[end..end + 2] == tail[|line|..|line| + 2];
    assert block[end + 2..] == tail[|line| + 2..];
  }

  /** Such a line ends at the next CRLF. */
  lemma LineEndsNext(block: string, begin: nat, line: string)
    requires LineAt(block, begin, line) && OneLine(line)
    ensures Find(block, CRLF, begin) == Some(begin + |line|)
  {
    var end := begin + |line|;
    MatchTwo(block, end, CRLF);
    forall k | begin <= k < end ensures !MatchAt(block, k, CRLF) {
      MatchTwo(block, k, CRLF);
      MatchTwo(line, k - begin, CRLF);
      assert block[k] == line[k - begin];
      assert k + 1 < end ==> block[k + 1] == line[k + 1 - begin];
    }
    FindIs(block, CRLF, begin, end);
  }

  lemma LineEndsHere(block: string, begin: nat, tail: string, line: string, rest: string)
    requires begin <= |block| && block[begin..] == tail && StartsWithLine(tail, line, rest) && OneLine(line)
    ensures Find(block, CRLF, begin) == Some(begin + |line|)
    ensures LineAt(block, begin, line) && block[begin + |line| + 2..] == rest
  {
    SuffixStartsWithLine(block, begin, tail, line, rest);
    LineEndsNext(block, begin, line);
  }

  lemma {:induction false} LinesOfUnlines(lines: seq<string>)
    requires forall i :: 0 <= i < |lines| ==> OneLine(lines[i])
    ensures LinesOf(Unlines(lines)) == lines
  {
    var text := Unlines(lines);
    if lines == [] {
      FindNothing("", CRLF, 0);
    } else {
      ConcatStartsWithLine(text, lines[0], Unlines(lines[1..]));
      assert text[0..] == text;
      LineEndsHere(text, 0, text, lines[0], Unlines(lines[1..]));
      LinesOfUnlines(lines[1..]);
      assert [lines[0]] + lines[1..] == lines;
    }
  }

  lemma EmptyLineAt(text: string, head: string, body: string)
    requires text == head + (CRLF + body)
    ensures |text| >= |head| + 2 && text[..|head|] == head
    ensures MatchAt(text, |head|, CRLF) && text[|head| + 2..] == body
  {
    assert text[|head|..|head| + 2] == CRLF;
  }

  lemma {:induction false} LastLineEnds(lines: seq<string>)
    requires lines != []
    ensures |Unlines(lines)| >= 2 && Unlines(lines)[|Unlines(lines)| - 2..] == CRLF
  {
    if |lines| == 1 {
      assert Unlines(lines) == lines[0] + CRLF;
    } else {
      LastLineEnds(lines[1..]);
      var rest := Unlines(lines[1..]);
      assert Unlines(lines)[|Unlines(lines)| - 2..] == rest[|rest| - 2..];
    }
  }

  lemma NextLineIsNotEmpty(rest: string, lines: seq<string>, body: string)
    requires lines != [] && rest == Unlines(lines) + (CRLF + body)
    requires lines[0] != "" && OneLine(lines[0])
    ensures !MatchAt(rest, 0, CRLF)
  {
    var more := Unlines(lines[1..]) + (CRLF + body);
    ConcatIsAssociative(lines[0] + CRLF, Unlines(lines[1..]), CRLF + body);
    ConcatStartsWithLine(rest, lines[0], more);
    NoLineEndInside(rest, lines[0], more, 0);
  }

  lemma {:induction false} NoEmptyLineBefore(text: string, lines: seq<string>, body: string, k: nat)
    requires lines != [] && text == Unlines(lines) + (CRLF + body)
    requires forall i :: 0 <= i < |lines| ==> lines[i] != "" && OneLine(lines[i])
    requires k < |Unlines(lines)| - 2
    ensures !MatchAt(text, k, HEADER_END)
    decreases |lines|
  {
    var line, rest := lines[0], Unlines(lines[1..]) + (CRLF + body);
    ConcatIsAssociative(line + CRLF, Unlines(lines[1..]), CRLF + body);
    ConcatStartsWithLine(text, line, rest);
    MatchFour(text, k, HEADER_END);
    MatchTwo(text, k, CRLF);
    MatchTwo(text, k + 2, CRLF);
    if k < |line| {
      NoLineEndInside(text, line, rest, k);
    } else if k < |line| + 2 {
      NextLineIsNotEmpty(rest, lines[1..], body);
      MatchInSuffix(text, |line| + 2, 0, CRLF);
      MatchTwo(text, |line|, CRLF);
      assert MatchAt(text, |line|, CRLF);
    } else {
      NoEmptyLineBefore(rest, lines[1..], body, k - |line| - 2);
      MatchInSuffix(text, |line| + 2, k - |line| - 2, HEADER_END);
    }
  }

  /** Lines that are not empty, then an empty one: the first empty line is that one. */
  lemma {:induction false} FirstEmptyLine(text: string, lines: seq<string>, body: string)
    requires lines != [] && text == Unlines(lines) + (CRLF + body)
    requires forall i :: 0 <= i < |lines| ==> lines[i] != "" && OneLine(lines[i])
    ensures |text| >= |Unlines(lines)| + 2 && |Unlines(lines)| >= 2
    ensures Find(text, HEADER_END, 0) == Some(|Unlines(lines)| - 2)
    ensures text[..|Unlines(lines)|] == Unlines(lines) && text[|Unlines(lines)| + 2..] == body
  {
    EmptyLineAt(text, Unlines(lines), body);
    LastLineEnds(lines);
    var end := |Unlines(lines)| - 2;
    forall k: nat | k < end ensures !MatchAt(text, k, HEADER_END) {
      NoEmptyLineBefore(text, lines, body, k);
    }
    MatchFour(text, end, HEADER_END);
    assert text[end..end + 2] == Unlines(lines)[end..end + 2];
    MatchTwo(text, end, CRLF);
    MatchTwo(text, end + 2, CRLF);
    FindIs(text, HEADER_END, 0, end);
  }

  // ----- Trimming -----

  function TrimLeft(s: string, blank: char -> bool): string {
    if s != "" && blank(s[0]) then TrimLeft(s[1..], blank) else s
  }

  function TrimRight(s: string, blank: char -> bool): string {
    if s != "" && blank(s[|s| - 1]) then TrimRight(s[..|s| - 1], blank) else s
  }

  function Trim(s: string, blank: char -> bool): string {
    TrimRight(TrimLeft(s, blank), blank)
  }

  predicate Trimmed(s: string, blank: char -> bool) {
    s != "" ==> !blank(s[0]) && !blank(s[|s| - 1])
  }

  lemma {:induction false} TrimLeftIsSuffix(s: string, blank: char -> bool)
    ensures var t := TrimLeft(s, blank);
      |t| <= |s| && t == s[|s| - |t|..] && (t != "" ==> !blank(t[0]))
      && forall i :: 0 <= i < |s| - |t| ==> blank(s[i])
  {
    if s != "" && blank(s[0]) {
      TrimLeftIsSuffix(s[1..], blank);
    }
  }

  lemma {:induction false} TrimRightIsPrefix(s: string, blank: char -> bool)
    ensures var t := TrimRight(s, blank);
      |t| <= |s| && t == s[..|t|] && (t != "" ==> !blank(t[|t| - 1]))
      && forall i :: |t| <= i < |s| ==> blank(s[i])
  {
    if s != "" && blank(s[|s| - 1]) {
      TrimRightIsPrefix(s[..|s| - 1], blank);
    }
  }

  lemma AroundMiddle(s: string, t: string, m: string)
    requires |t| <= |s| && t == s[|s| - |t|..] && m <= t
    ensures s == s[..|s| - |t|] + m + t[|m|..]
  {
    ConcatIsAssociative(s[..|s| - |t|], m, t[|m|..]);
    assert t == m + t[|m|..];
  }

  /** Trimming removes blanks at both ends and nothing else. */
  lemma TrimSplits(s: string, blank: char -> bool) returns (left: string, right: string)
    ensures s == left + Trim(s, blank) + right
    ensures Trimmed(Trim(s, blank), blank)
    ensures forall c :: c in left || c in right ==> blank(c)
  {
    var t := TrimLeft(s, blank);
    var m := Trim(s, blank);
    TrimLeftIsSuffix(s, blank);
    TrimRightIsPrefix(t, blank);
    left, right := s[..|s| - |t|], t[|m|..];
    AroundMiddle(s, t, m);
    assert forall i :: 0 <= i < |left| ==> left[i] == s[i];
    assert forall i :: 0 <= i < |right| ==> right[i] == t[|m| + i];
  }

  lemma TrimmedIsFixed(s: string, blank: char -> bool)
    requires Trimmed(s, blank)
    ensures Trim(s, blank) == s
  {
  }

  lemma {:induction false} TrimLeftPadded(left: string, s: string, blank: char -> bool)
    requires s != "" && !blank(s[0])
    requires forall c :: c in left ==> blank(c)
    ensures TrimLeft(left + s, blank) == s
  {
    if left == "" {
      assert left + s == s;
    } else {
      assert left[0] in left;
      assert (left + s)[1..] == left[1..] + s;
      TrimLeftPadded(left[1..], s, blank);
    }
  }

  lemma {:induction false} TrimRightPadded(s: string, right: string, blank: char -> bool)
    requires s != "" && !blank(s[|s| - 1])
    requires forall c :: c in right ==> blank(c)
    ensures TrimRight(s + right, blank) == s
  {
    if right == "" {
      assert s + right == s;
    } else {
      assert right[|right| - 1] in right;
      assert (s + right)[..|s + right| - 1] == s + right[..|right| - 1];
      TrimRightPadded(s, right[..|right| - 1], blank);
    }
  }

  lemma {:induction false} TrimAllBlank(s: string, blank: char -> bool)
    requires forall c :: c in s ==> blank(c)
    ensures Trim(s, blank) == ""
  {
    if s != "" {
      assert s[0] in s;
      TrimAllBlank(s[1..], blank);
    }
  }

  /** Trimming undoes padding. */
  lemma TrimPadded(left: string, s: string, right: string, blank: char -> bool)
    requires Trimmed(s, blank)
    requires forall c :: c in left || c in right ==> blank(c)
    ensures Trim(left + s + right, blank) == s
  {
    if s == "" {
      TrimAllBlank(left + s + right, blank);
    } else {
      TrimLeftPadded(left, s + right, blank);
      assert left + s + right == left + (s + right);
      TrimRightPadded(s, right, blank);
    }
  }

  /** The source's trimming loop, with its two indices. */
  method TrimByIndex(s: string, blank: char -> bool) returns (trimmed: string)
    ensures trimmed == Trim(s, blank)
  {
    var begin := 0;
    while begin < |s| && blank(s[begin])
      invariant begin <= |s|
      invariant forall c :: c in s[..begin] ==> blank(c)
    {
      assert s[..begin + 1] == s[..begin] + [s[begin]];
      begin := begin + 1;
    }
    var end := |s|;
    while end > begin && blank(s[end - 1])
      invariant begin <= end <= |s|
      invariant forall c :: c in s[end..] ==> blank(c)
      decreases end
    {
      assert s[end - 1..] == [s[end - 1]] + s[end..];
      end := end - 1;
    }
    trimmed := s[begin..end];
    TrimPadded(s[..begin], trimmed, s[end..], blank);
    assert s == s[..begin] + trimmed + s[end..];
  }
}
