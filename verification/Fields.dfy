/** The trimming and splitting that the configuration readers share. */
module Fields {
  import opened Wrappers
  import opened Sequences
  import opened Text

  /** std::isspace in the C locale. */
  predicate IsSpace(c: char) {
    c == ' ' || '\t' <= c <= '\r'
  }

  function Pieces(s: string, delimiter: char): (pieces: seq<string>)
    ensures pieces != []
    decreases |s|
  {
    match FindChar(s, delimiter, 0)
    case None => [s]
    case Some(end) => [s[..end]] + Pieces(s[end + 1..], delimiter)
  }

  function Join(parts: seq<string>, delimiter: char): string {
    if parts == [] then ""
    else if |parts| == 1 then parts[0]
    else parts[0] + [delimiter] + Join(parts[1..], delimiter)
  }

  function TrimAll(parts: seq<string>): (trimmed: seq<string>)
    ensures |trimmed| == |parts|
    ensures forall i :: 0 <= i < |parts| ==> trimmed[i] == Trim(parts[i], IsSpace)
  {
    seq(|parts|, i requires 0 <= i < |parts| => Trim(parts[i], IsSpace))
  }

  function SplitFields(s: string, delimiter: char): seq<string> {
    TrimAll(Pieces(s, delimiter))
  }

  lemma PiecesOfDivided(s: string, prefix: string, d: char, rest: string)
    requires Divides(s, prefix, d, rest) && d !in prefix
    ensures Pieces(s, d) == [prefix] + Pieces(rest, d)
  {
    FindAfterFree(s, prefix, d, rest);
  }

  /** Splitting is joining undone, in both directions. */
  lemma {:induction false} PiecesOfJoin(parts: seq<string>, delimiter: char)
    requires parts != [] && forall i :: 0 <= i < |parts| ==> delimiter !in parts[i]
    ensures Pieces(Join(parts, delimiter), delimiter) == parts
  {
    if |parts| > 1 {
      var s, rest := Join(parts, delimiter), Join(parts[1..], delimiter);
      ConcatDivides(s, parts[0], delimiter, rest);
      PiecesOfDivided(s, parts[0], delimiter, rest);
      PiecesOfJoin(parts[1..], delimiter);
      assert parts == [parts[0]] + parts[1..];
    }
  }

  /** The pieces of two texts around a delimiter are those of each. */
  lemma {:induction false} PiecesOfConcat(a: string, delimiter: char, b: string)
    ensures Pieces(a + [delimiter] + b, delimiter) == Pieces(a, delimiter) + Pieces(b, delimiter)
    decreases |a|
  {
    match FindChar(a, delimiter, 0)
    case None =>
      ConcatDivides(a + [delimiter] + b, a, delimiter, b);
      PiecesOfDivided(a + [delimiter] + b, a, delimiter, b);
    case Some(end) =>
      var first, rest := a[..end], a[end + 1..];
      assert a + [delimiter] + b == first + [delimiter] + (rest + [delimiter] + b);
      ConcatDivides(a + [delimiter] + b, first, delimiter, rest + [delimiter] + b);
      PiecesOfDivided(a + [delimiter] + b, first, delimiter, rest + [delimiter] + b);
      PiecesOfConcat(rest, delimiter, b);
      ConcatIsAssociative([first], Pieces(rest, delimiter), Pieces(b, delimiter));
  }

  lemma {:induction false} JoinOfPieces(s: string, delimiter: char)
    ensures Join(Pieces(s, delimiter), delimiter) == s
    ensures forall i :: 0 <= i < |Pieces(s, delimiter)| ==> delimiter !in Pieces(s, delimiter)[i]
    decreases |s|
  {
    match FindChar(s, delimiter, 0)
    case None =>
    case Some(end) =>
      JoinOfPieces(s[end + 1..], delimiter);
      assert s == s[..end] + [delimiter] + s[end + 1..];
  }

  lemma {:induction false} CharsOfPieces(s: string, delimiter: char, c: char)
    requires c !in s
    ensures forall i :: 0 <= i < |Pieces(s, delimiter)| ==> c !in Pieces(s, delimiter)[i]
    decreases |s|
  {
    match FindChar(s, delimiter, 0)
    case None =>
    case Some(end) => CharsOfPieces(s[end + 1..], delimiter, c);
  }

  lemma CharsOfTrim(s: string, c: char)
    requires c !in s
    ensures c !in Trim(s, IsSpace)
  {
    var left, right := TrimSplits(s, IsSpace);
  }

  /** The pieces so far, and those of the text from `begin`, are the pieces of the whole text. */
  ghost predicate Pending(s: string, d: char, begin: nat, pieces: seq<string>) {
    begin <= |s| && pieces + Pieces(s[begin..], d) == Pieces(s, d)
  }

  lemma SplitStart(s: string, d: char)
    ensures Pending(s, d, 0, [])
  {
    assert s[0..] == s;
  }

  lemma SplitLast(s: string, d: char, begin: nat, pieces: seq<string>)
    requires Pending(s, d, begin, pieces) && FindChar(s, d, begin).None?
    ensures pieces + [s[begin..]] == Pieces(s, d)
  {
    FindCharInSuffix(s, d, begin);
  }

  lemma AppendFirst(all: seq<string>, a: seq<string>, x: string, b: seq<string>)
    requires all == a + ([x] + b)
    ensures all == a + [x] + b && |all| > |a| && all[|a|] == x
  {
  }

  lemma PiecesUnfold(s: string, d: char, end: nat, piece: string, more: string)
    requires FindChar(s, d, 0) == Some(end) && s[..end] == piece && s[end + 1..] == more
    ensures Pieces(s, d) == [piece] + Pieces(more, d)
  {
  }

  lemma SlicesOfSuffix(s: string, begin: nat, end: nat)
    requires begin <= end < |s|
    ensures s[begin..][..end - begin] == s[begin..end]
    ensures s[begin..][end - begin + 1..] == s[end + 1..]
  {
  }

  lemma SplitMore(s: string, d: char, begin: nat, pieces: seq<string>, end: nat)
    requires Pending(s, d, begin, pieces) && FindChar(s, d, begin) == Some(end)
    ensures Pending(s, d, end + 1, pieces + [s[begin..end]])
    ensures |Pieces(s, d)| > |pieces| && Pieces(s, d)[|pieces|] == s[begin..end]
  {
    FindCharInSuffix(s, d, begin);
    SlicesOfSuffix(s, begin, end);
    PiecesUnfold(s[begin..], d, end - begin, s[begin..end], s[end + 1..]);
    AppendFirst(Pieces(s, d), pieces, s[begin..end], Pieces(s[end + 1..], d));
  }

  lemma TrimOneMore(pieces: seq<string>, piece: string)
    ensures TrimAll(pieces + [piece]) == TrimAll(pieces) + [Trim(piece, IsSpace)]
  {
  }

  /** The source's splitting loop. */
  method SplitFieldsByIndex(value: string, delimiter: char) returns (fields: seq<string>)
    ensures fields == SplitFields(value, delimiter)
  {
    fields := [];
    ghost var pieces: seq<string> := [];
    var begin := 0;
    SplitStart(value, delimiter);
    while begin <= |value|
      invariant fields == TrimAll(pieces) && Pending(value, delimiter, begin, pieces)
      decreases |value| - begin
    {
      var found := FindChar(value, delimiter, begin);
      if found.None? {
        var last := TrimByIndex(value[begin..], IsSpace);
        SplitLast(value, delimiter, begin, pieces);
        TrimOneMore(pieces, value[begin..]);
        return fields + [last];
      }
      var end := found.value;
      var field := TrimByIndex(value[begin..end], IsSpace);
      SplitMore(value, delimiter, begin, pieces, end);
      TrimOneMore(pieces, value[begin..end]);
      fields, pieces := fields + [field], pieces + [value[begin..end]];
      begin := end + 1;
    }
  }
}
