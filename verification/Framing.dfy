/**
 Reading a header block: bytes arrive in chunks of any size and are accumulated until the empty
 line that ends the header (section 2.2 of RFC 9112), an I/O outcome, or the size limit.
 */
module Framing {
  import opened Wrappers
  import opened Sequences
  import opened Text
  import opened Buffers

  /** One outcome of recv_some. */
  datatype Read = Data(bytes: string) | PeerClosed | TimedOut | Failed

  datatype HeaderReadError = Closed | Timeout | TooLarge | IoError

  type Block = Result<string, HeaderReadError>

  const SPAN: nat := 2048

  /** A read delivers at least one byte and no more than the span it was given. */
  predicate ReadFits(r: Read) {
    r.Data? ==> 1 <= |r.bytes| <= SPAN
  }

  predicate ScriptFits(script: seq<Read>) {
    forall i :: 0 <= i < |script| ==> ReadFits(script[i])
  }

  /** The outcomes of the reads a stream will perform, in order; after the last one it is closed. */
  class Stream {
    var script: seq<Read>

    constructor (script: seq<Read>)
      ensures this.script == script
    {
      this.script := script;
    }

    method RecvSome() returns (r: Read)
      modifies this`script
      ensures r == (if old(script) == [] then PeerClosed else old(script)[0])
      ensures script == if old(script) == [] then [] else old(script)[1..]
    {
      if script == [] {
        return PeerClosed;
      }
      r := script[0];
      script := script[1..];
    }
  }

  /** Just after the first empty line, if there is one. */
  function FindHeaderEnd(view: string): (end: Option<nat>)
    ensures end.Some? ==> 4 <= end.value <= |view| && MatchAt(view, end.value - 4, HEADER_END)
  {
    FindIsFirst(view, HEADER_END, 0);
    match Find(view, HEADER_END, 0)
    case None => None
    case Some(at) => Some(at + 4)
  }

  /** The result, what the buffer then holds, and the reads left over. */
  datatype Outcome = Outcome(result: Block, view: string, rest: seq<Read>)

  function ReadBlock(view: string, script: seq<Read>, maxBytes: nat): Outcome
    decreases |script|
  {
    var end := FindHeaderEnd(view);
    if end.Some? then Outcome(Ok(view[..end.value]), view, script)
    else if |view| >= maxBytes then Outcome(Err(TooLarge), view, script)
    else if script == [] then Outcome(Err(Closed), view, [])
    else match script[0]
      case Data(bytes) => ReadBlock(view + bytes, script[1..], maxBytes)
      case PeerClosed => Outcome(Err(Closed), view, script[1..])
      case TimedOut => Outcome(Err(Timeout), view, script[1..])
      case Failed => Outcome(Err(IoError), view, script[1..])
  }

  /** One read into the free space of the buffer; the bytes read are committed. */
  method ReceiveInto(s: Stream, b: Buffer) returns (r: Read)
    requires b.Valid() && |b.data| <= b.size + SPAN && ScriptFits(s.script)
    modifies s`script, b
    ensures b.Valid() && |b.data| <= b.size + SPAN && ScriptFits(s.script)
    ensures r == if old(s.script) == [] then PeerClosed else old(s.script)[0]
    ensures s.script == if old(s.script) == [] then [] else old(s.script)[1..]
    ensures b.View() == if r.Data? then old(b.View()) + r.bytes else old(b.View())
  {
    var length := b.WriteSpan(SPAN);
    r := s.RecvSome();
    if r.Data? {
      assert r == old(s.script)[0];
      b.Fill(r.bytes);
      b.Commit(|r.bytes|);
    }
  }

  /** The source's read loop, over the buffer and the stream it is given. */
  method ReadHeaderBlock(s: Stream, b: Buffer, maxBytes: nat) returns (result: Block)
    requires b.Valid() && |b.data| <= b.size + SPAN && ScriptFits(s.script)
    modifies s`script, b
    ensures b.Valid() && |b.data| <= b.size + SPAN && ScriptFits(s.script)
    ensures Outcome(result, b.View(), s.script) == ReadBlock(old(b.View()), old(s.script), maxBytes)
  {
    while true
      invariant b.Valid() && |b.data| <= b.size + SPAN && ScriptFits(s.script)
      invariant ReadBlock(b.View(), s.script, maxBytes) == ReadBlock(old(b.View()), old(s.script), maxBytes)
      decreases |s.script|
    {
      var view := b.View();
      var end := FindHeaderEnd(view);
      if end.Some? {
        return Ok(view[..end.value]);
      }
      if |view| >= maxBytes {
        return Err(TooLarge);
      }
      var r := ReceiveInto(s, b);
      match r {
        case PeerClosed => return Err(Closed);
        case TimedOut => return Err(Timeout);
        case Failed => return Err(IoError);
        case Data(bytes) =>
      }
    }
  }

  // ----- What a script delivers -----

  /** The bytes of the reads before the first that is not data. */
  function Delivered(script: seq<Read>): string {
    if script == [] || !script[0].Data? then "" else script[0].bytes + Delivered(script[1..])
  }

  /** A prefix that holds the end of the header has the same first one as the whole. */
  lemma HeaderEndOfPrefix(whole: string, n: nat)
    requires n <= |whole|
    ensures FindHeaderEnd(whole[..n]).Some? ==> FindHeaderEnd(whole) == FindHeaderEnd(whole[..n])
    ensures FindHeaderEnd(whole).Some? && FindHeaderEnd(whole).value <= n ==>
              FindHeaderEnd(whole[..n]) == FindHeaderEnd(whole)
  {
    var part := whole[..n];
    FindIsFirst(whole, HEADER_END, 0);
    FindIsFirst(part, HEADER_END, 0);
    forall k: int ensures MatchAt(part, k, HEADER_END) <==> MatchAt(whole, k, HEADER_END) && k + 4 <= n {
      if 0 <= k && k + 4 <= n {
        assert part[k..k + 4] == whole[k..k + 4];
      }
    }
    match Find(part, HEADER_END, 0)
    case Some(at) => FindIs(whole, HEADER_END, 0, at);
    case None =>
  }

  /** If the header ends within the limit, every chunking that delivers it reads exactly that header. */
  lemma {:induction false} ChunkingDoesNotMatter(view: string, script: seq<Read>, maxBytes: nat, end: nat)
    requires FindHeaderEnd(view + Delivered(script)) == Some(end) && end <= maxBytes
    ensures ReadBlock(view, script, maxBytes).result == Ok((view + Delivered(script))[..end])
    decreases |script|
  {
    var all := view + Delivered(script);
    assert all[..|view|] == view;
    HeaderEndOfPrefix(all, |view|);
    assert view + "" == view;
    if FindHeaderEnd(view).None? {
      ConcatIsAssociative(view, script[0].bytes, Delivered(script[1..]));
      ChunkingDoesNotMatter(view + script[0].bytes, script[1..], maxBytes, end);
    } else {
      assert all[..end] == view[..end];
    }
  }

  /** The buffer never holds more than the limit and one span less a byte. */
  lemma {:induction false} BufferIsBounded(view: string, script: seq<Read>, maxBytes: nat)
    requires ScriptFits(script) && |view| < maxBytes + SPAN
    ensures |ReadBlock(view, script, maxBytes).view| < maxBytes + SPAN
    decreases |script|
  {
    if script != [] && script[0].Data? && |view| < maxBytes {
      BufferIsBounded(view + script[0].bytes, script[1..], maxBytes);
    }
  }

  /** What is returned is a prefix of what was delivered, and ends where its first header ends. */
  lemma {:induction false} BlockIsPrefix(view: string, script: seq<Read>, maxBytes: nat)
    ensures var out := ReadBlock(view, script, maxBytes);
      && view <= out.view <= view + Delivered(script)
      && (out.result.Ok? ==>
            && FindHeaderEnd(view + Delivered(script)) == Some(|out.result.value|)
            && out.result.value <= out.view)
    decreases |script|
  {
    var all := view + Delivered(script);
    assert all[..|view|] == view;
    if FindHeaderEnd(view).Some? {
      HeaderEndOfPrefix(all, |view|);
    } else if |view| < maxBytes && script != [] && script[0].Data? {
      ConcatIsAssociative(view, script[0].bytes, Delivered(script[1..]));
      BlockIsPrefix(view + script[0].bytes, script[1..], maxBytes);
    }
  }

  /** If the header ends more than 2047 bytes after the limit, no chunking reads it. */
  lemma TooLongNeverSucceeds(script: seq<Read>, maxBytes: nat, end: nat)
    requires ScriptFits(script) && 0 < maxBytes
    requires FindHeaderEnd(Delivered(script)) == Some(end) && end > maxBytes + 2047
    ensures ReadBlock("", script, maxBytes).result.Err?
  {
    assert "" + Delivered(script) == Delivered(script);
    BlockIsPrefix("", script, maxBytes);
    BufferIsBounded("", script, maxBytes);
  }

  /** Bytes held before the read that first reaches `end`. */
  function HeldBefore(held: nat, script: seq<Read>, end: nat): nat
    decreases |script|
  {
    if script == [] || !script[0].Data? || held + |script[0].bytes| >= end then held
    else HeldBefore(held + |script[0].bytes|, script[1..], end)
  }

  lemma OneRead(view: string, script: seq<Read>, maxBytes: nat)
    requires FindHeaderEnd(view).None? && script != [] && script[0].Data?
    ensures ReadBlock(view, script, maxBytes) ==
            if |view| >= maxBytes then Outcome(Err(TooLarge), view, script)
            else ReadBlock(view + script[0].bytes, script[1..], maxBytes)
  {
  }

  lemma NotYetThere(view: string, script: seq<Read>, all: string, end: nat)
    requires all == view + Delivered(script) && FindHeaderEnd(all) == Some(end) && |view| < end
    ensures FindHeaderEnd(view).None? && script != [] && script[0].Data?
    ensures all == view + script[0].bytes + Delivered(script[1..])
  {
    assert all[..|view|] == view;
    HeaderEndOfPrefix(all, |view|);
    assert view + "" == view;
    ConcatIsAssociative(view, script[0].bytes, Delivered(script[1..]));
  }

  lemma NowThere(view: string, all: string, end: nat)
    requires view <= all && FindHeaderEnd(all) == Some(end) && |view| >= end
    ensures FindHeaderEnd(view) == Some(end)
  {
    assert all[..|view|] == view;
    HeaderEndOfPrefix(all, |view|);
  }

  lemma {:induction false} HeldGrows(held: nat, script: seq<Read>, end: nat)
    ensures held <= HeldBefore(held, script, end)
    decreases |script|
  {
    if !(script == [] || !script[0].Data? || held + |script[0].bytes| >= end) {
      HeldGrows(held + |script[0].bytes|, script[1..], end);
    }
  }

  lemma {:induction false} ReadsOnBelowLimit(view: string, script: seq<Read>, maxBytes: nat, all: string, end: nat)
    requires all == view + Delivered(script) && FindHeaderEnd(all) == Some(end) && |view| < end
    ensures ReadBlock(view, script, maxBytes).result.Ok? <==> HeldBefore(|view|, script, end) < maxBytes
    decreases |script|
  {
    NotYetThere(view, script, all, end);
    var next, rest := view + script[0].bytes, script[1..];
    OneRead(view, script, maxBytes);
    if |next| < end {
      HeldGrows(|next|, rest, end);
      ReadsOnBelowLimit(next, rest, maxBytes, all, end);
    } else {
      NowThere(next, all, end);
    }
  }

  /**
   In general a delivered header is read if and only if fewer bytes than the limit were held before
   the read that completed it. So between the two bounds above it depends on the chunking.
   */
  lemma ReadExactlyWhenHeldBelowLimit(script: seq<Read>, maxBytes: nat, end: nat)
    requires FindHeaderEnd(Delivered(script)) == Some(end)
    ensures ReadBlock("", script, maxBytes).result.Ok? <==> HeldBefore(0, script, end) < maxBytes
  {
    assert "" + Delivered(script) == Delivered(script);
    ReadsOnBelowLimit("", script, maxBytes, Delivered(script), end);
  }

  /** The loop ends: at most as many reads as bytes are missing to the limit. */
  lemma {:induction false} ReadsAreBounded(view: string, script: seq<Read>, maxBytes: nat)
    requires ScriptFits(script)
    ensures |script| - |ReadBlock(view, script, maxBytes).rest| <= if |view| < maxBytes then maxBytes - |view| else 0
    decreases |script|
  {
    if script != [] && script[0].Data? && |view| < maxBytes {
      ReadsAreBounded(view + script[0].bytes, script[1..], maxBytes);
    }
  }

  // ----- Between the bounds the chunking decides -----

  function ByteByByte(s: string): seq<Read> {
    if s == "" then [] else [Data([s[0]])] + ByteByByte(s[1..])
  }

  /** A text a byte at a time, and then another in one read. */
  function BytesThenRest(s: string, t: string): seq<Read> {
    ByteByByte(s) + [Data(t)]
  }

  lemma OneByteFirst(s: string, t: string)
    requires s != ""
    ensures var script := BytesThenRest(s, t); script != [] && script[0] == Data([s[0]]) && script[1..] == BytesThenRest(s[1..], t)
  {
    assert BytesThenRest(s, t) == [Data([s[0]])] + BytesThenRest(s[1..], t);
  }

  lemma {:induction false} BytesThenRestDelivers(s: string, t: string)
    requires 1 <= |t| <= SPAN
    ensures ScriptFits(BytesThenRest(s, t)) && Delivered(BytesThenRest(s, t)) == s + t
    decreases |s|
  {
    if s == "" {
      assert BytesThenRest(s, t) == [Data(t)] && [Data(t)][1..] == [];
    } else {
      BytesThenRestDelivers(s[1..], t);
      OneByteFirst(s, t);
      ConcatIsAssociative([s[0]], s[1..], t);
      assert [s[0]] + s[1..] == s;
    }
  }

  lemma {:induction false} HeldBeforeRest(s: string, t: string, held: nat)
    requires t != ""
    ensures HeldBefore(held, BytesThenRest(s, t), held + |s| + |t|) == held + |s|
    decreases |s|
  {
    if s == "" {
      assert BytesThenRest(s, t) == [Data(t)];
    } else {
      OneByteFirst(s, t);
      HeldBeforeRest(s[1..], t, held + 1);
    }
  }

  lemma SameLength(value: string, view: string, block: string)
    requires value <= view <= block && |value| == |block|
    ensures value == block
  {
    assert view == block[..|view|] == block;
  }

  lemma WholeBlockIsRead(script: seq<Read>, maxBytes: nat, block: string)
    requires Delivered(script) == block && FindHeaderEnd(block) == Some(|block|)
    ensures var out := ReadBlock("", script, maxBytes); out.result.Ok? ==> out.result == Ok(block)
  {
    assert "" + block == block;
    BlockIsPrefix("", script, maxBytes);
    var out := ReadBlock("", script, maxBytes);
    if out.result.Ok? {
      SameLength(out.result.value, out.view, block);
    }
  }

  lemma ReadIfHeldBelow(block: string, maxBytes: nat, held: nat)
    requires FindHeaderEnd(block) == Some(|block|) && held < |block| <= held + SPAN
    ensures var script := BytesThenRest(block[..held], block[held..]);
      && ScriptFits(script) && Delivered(script) == block
      && (ReadBlock("", script, maxBytes).result.Ok? <==> held < maxBytes)
      && (ReadBlock("", script, maxBytes).result.Ok? ==> ReadBlock("", script, maxBytes).result == Ok(block))
  {
    var script := BytesThenRest(block[..held], block[held..]);
    BytesThenRestDelivers(block[..held], block[held..]);
    HeldBeforeRest(block[..held], block[held..], 0);
    assert block[..held] + block[held..] == block && "" + block == block;
    ReadExactlyWhenHeldBelowLimit(script, maxBytes, |block|);
    WholeBlockIsRead(script, maxBytes, block);
  }

  /** Every header that ends from 1 to 2047 bytes after the limit is read in one chunking and refused in another. */
  lemma ChunkingDecides(block: string, maxBytes: nat)
    requires FindHeaderEnd(block) == Some(|block|) && 0 < maxBytes < |block| <= maxBytes + 2047
    ensures var refused, read :=
        BytesThenRest(block[..maxBytes], block[maxBytes..]), BytesThenRest(block[..maxBytes - 1], block[maxBytes - 1..]);
      && ScriptFits(refused) && ScriptFits(read) && Delivered(refused) == Delivered(read) == block
      && ReadBlock("", refused, maxBytes).result.Err?
      && ReadBlock("", read, maxBytes).result == Ok(block)
  {
    ReadIfHeldBelow(block, maxBytes, maxBytes);
    ReadIfHeldBelow(block, maxBytes, maxBytes - 1);
  }

  // ----- What comes along with the end of a header -----

  ghost predicate AllData(chunks: seq<Read>) {
    forall i :: 0 <= i < |chunks| ==> chunks[i].Data? && chunks[i].bytes != ""
  }

  lemma HeadOfConcat(chunks: seq<Read>, more: seq<Read>)
    requires chunks != []
    ensures (chunks + more)[0] == chunks[0] && (chunks + more)[1..] == chunks[1..] + more
  {
  }

  lemma BeforeTheEnd(view: string, coming: string, block: string)
    requires block == view + coming && coming != "" && FindHeaderEnd(block) == Some(|block|)
    ensures FindHeaderEnd(view).None?
  {
    assert block[..|view|] == view;
    HeaderEndOfPrefix(block, |view|);
  }

  lemma HeaderStaysFound(block: string, early: string)
    requires FindHeaderEnd(block) == Some(|block|)
    ensures FindHeaderEnd(block + early) == Some(|block|) && (block + early)[..|block|] == block
  {
    assert (block + early)[..|block|] == block;
    HeaderEndOfPrefix(block + early, |block|);
  }

  /**
   The read that completes a header is the last one made for it, and only that header is kept of it:
   what it brought besides is neither returned nor left to be read.
   */
  lemma {:induction false} LastReadDecides(
    view: string, chunks: seq<Read>, last: string, early: string, more: seq<Read>, maxBytes: nat, block: string)
    requires AllData(chunks) && last != ""
    requires block == view + (Delivered(chunks) + last) && FindHeaderEnd(block) == Some(|block|)
    ensures var out := ReadBlock(view, chunks + ([Data(last + early)] + more), maxBytes);
      if |view| + |Delivered(chunks)| >= maxBytes then out.result == Err(TooLarge)
      else out.result == Ok(block) && out.rest == more
    decreases |chunks|
  {
    BeforeTheEnd(view, Delivered(chunks) + last, block);
    var script := chunks + ([Data(last + early)] + more);
    if chunks == [] {
      assert script == [Data(last + early)] + more && script[1..] == more;
      assert "" + last == last;
      ConcatIsAssociative(view, last, early);
      HeaderStaysFound(block, early);
    } else {
      HeadOfConcat(chunks, [Data(last + early)] + more);
      OneRead(view, script, maxBytes);
      ConcatIsAssociative(chunks[0].bytes, Delivered(chunks[1..]), last);
      ConcatIsAssociative(view, chunks[0].bytes, Delivered(chunks[1..]) + last);
      LastReadDecides(view + chunks[0].bytes, chunks[1..], last, early, more, maxBytes, block);
    }
  }
}
