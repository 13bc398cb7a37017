/** The base64url decoder of the token module (section 5 of RFC 4648, without padding). */
module Base64Url {
  import opened Wrappers
  import opened Sequences

  type Byte = b: nat | b < 256

  type Sextet = s: nat | s < 64

  /** The decoding table; the standard alphabet's last two characters are taken as well. */
  function SextetOf(c: char): Option<Sextet> {
    if 'A' <= c <= 'Z' then Some(c as int - 'A' as int)
    else if 'a' <= c <= 'z' then Some(c as int - 'a' as int + 26)
    else if '0' <= c <= '9' then Some(c as int - '0' as int + 52)
    else if c == '-' || c == '+' then Some(62)
    else if c == '_' || c == '/' then Some(63)
    else None
  }

  function SextetsOf(c: char): seq<Sextet> {
    match SextetOf(c)
    case Some(s) => [s]
    case None => []
  }

  function Sextets(text: string): seq<Sextet> {
    if text == "" then []
    else SextetsOf(text[0]) + Sextets(text[1..])
  }

  function BytesOfFour(a: nat, b: nat, c: nat, d: nat): seq<Byte>
    requires a < 64 && b < 64 && c < 64 && d < 64
  {
    var group := ((a * 64 + b) * 64 + c) * 64 + d;
    [group / 65536, group / 256 % 256, group % 256]
  }

  function BytesOfThree(a: nat, b: nat, c: nat): seq<Byte>
    requires a < 64 && b < 64 && c < 64
  {
    var group := ((a * 64 + b) * 64 + c) / 4;
    [group / 256, group % 256]
  }

  function BytesOfTwo(a: nat, b: nat): seq<Byte>
    requires a < 64 && b < 64
  {
    [(a * 64 + b) / 16]
  }

  /** Four sextets are a 24-bit group of three bytes; a shorter last group keeps its whole bytes. */
  function DecodeSextets(s: seq<Sextet>): seq<Byte> {
    if |s| >= 4 then BytesOfFour(s[0], s[1], s[2], s[3]) + DecodeSextets(s[4..])
    else if |s| == 3 then BytesOfThree(s[0], s[1], s[2])
    else if |s| == 2 then BytesOfTwo(s[0], s[1])
    else []
  }

  function SextetsOfThree(x: nat, y: nat, z: nat): seq<Sextet>
    requires x < 256 && y < 256 && z < 256
  {
    var group := (x * 256 + y) * 256 + z;
    [group / 262144, group / 4096 % 64, group / 64 % 64, group % 64]
  }

  function SextetsOfTwo(x: nat, y: nat): seq<Sextet>
    requires x < 256 && y < 256
  {
    var group := (x * 256 + y) * 4;
    [group / 4096, group / 64 % 64, group % 64]
  }

  function SextetsOfOne(x: nat): seq<Sextet>
    requires x < 256
  {
    [x * 16 / 64, x * 16 % 64]
  }

  function EncodeBytes(b: seq<Byte>): seq<Sextet> {
    if |b| >= 3 then SextetsOfThree(b[0], b[1], b[2]) + EncodeBytes(b[3..])
    else if |b| == 2 then SextetsOfTwo(b[0], b[1])
    else if |b| == 1 then SextetsOfOne(b[0])
    else []
  }

  function CharOf(s: Sextet): char {
    if s < 26 then 'A' + s as char
    else if s < 52 then 'a' + (s - 26) as char
    else if s < 62 then '0' + (s - 52) as char
    else if s == 62 then '-'
    else '_'
  }

  function CharsOf(s: seq<Sextet>): string {
    if s == [] then "" else [CharOf(s[0])] + CharsOf(s[1..])
  }

  function Encode(bytes: seq<Byte>): string {
    CharsOf(EncodeBytes(bytes))
  }

  function Decode(text: string): seq<Byte> {
    DecodeSextets(Sextets(text))
  }

  // ----- The accumulator -----

  datatype Accumulator = Accumulator(val: int, valb: int, out: seq<Byte>)

  /** Reduction to a 32-bit two's complement int. */
  function Wrap32(x: int): int {
    (x + 0x8000_0000) % 0x1_0000_0000 - 0x8000_0000
  }

  function Pow2(n: nat): nat {
    if n == 0 then 1 else 2 * Pow2(n - 1)
  }

  lemma {:induction false} Pow2Positive(n: nat)
    ensures Pow2(n) > 0
  {
    if n > 0 {
      Pow2Positive(n - 1);
    }
  }

  /** An arithmetic right shift, and its lowest byte. */
  function LowByte(val: int, shift: nat): Byte
  {
    Pow2Positive(shift);
    val / Pow2(shift) % 256
  }

  function Shifted(val: int, s: nat, wraps: bool): int {
    (if wraps then Wrap32(val * 64) else val * 64) + s
  }

  function Emit(val: int, valb: int, out: seq<Byte>): Accumulator {
    if valb >= 0 then Accumulator(val, valb - 8, out + [LowByte(val, valb)]) else Accumulator(val, valb, out)
  }

  function Accumulate(a: Accumulator, s: Sextet, wraps: bool): Accumulator {
    Emit(Shifted(a.val, s, wraps), a.valb + 6, a.out)
  }

  const START: Accumulator := Accumulator(0, -8, [])

  function Run(s: seq<Sextet>, wraps: bool): Accumulator {
    if s == [] then START else Accumulate(Run(s[..|s| - 1], wraps), s[|s| - 1], wraps)
  }

  /** The byte that a sextet completes, from the sextet before it. */
  function Completed(position: nat, previous: nat, s: nat): seq<Byte>
    requires previous < 64 && s < 64
  {
    var pair := previous * 64 + s;
    if position % 4 == 0 then []
    else if position % 4 == 1 then [pair / 16]
    else if position % 4 == 2 then [pair / 4 % 256]
    else [pair % 256]
  }

  lemma CompletedRepeats(position: nat, previous: nat, s: nat)
    requires position >= 4 && previous < 64 && s < 64
    ensures Completed(position, previous, s) == Completed(position - 4, previous, s)
    ensures position == 4 ==> Completed(position, previous, s) == []
  {
    assert (position - 4) % 4 == position % 4;
  }

  /** Whole multiples of 256 do not reach the low byte. */
  lemma SplitByte(high: int, low: nat)
    ensures (high * 256 + low) / 256 == high + low / 256 && (high * 256 + low) % 256 == low % 256
  {
  }

  lemma ThreeOfGroup(a: nat, b: nat, c: nat)
    requires a < 64 && b < 64 && c < 64
    ensures BytesOfThree(a, b, c) == BytesOfTwo(a, b) + Completed(2, b, c)
  {
    var pair := b * 64 + c;
    assert ((a * 64 + b) * 64 + c) / 4 == (a * 64 + b) * 16 + c / 4;
    assert (a * 64 + b) * 16 + c / 4 == a * 1024 + pair / 4;
    SplitByte(a * 4, pair / 4);
    assert (a * 1024 + pair / 4) / 256 == (a * 64 + b) / 16;
  }

  lemma FourthByte(three: nat, d: nat)
    requires d < 64
    ensures (three * 64 + d) / 256 == three / 4 && (three * 64 + d) / 65536 == three / 4 / 256
  {
    assert (three * 64 + d) / 256 == three / 4;
  }

  lemma FourOfGroup(a: nat, b: nat, c: nat, d: nat)
    requires a < 64 && b < 64 && c < 64 && d < 64
    ensures BytesOfFour(a, b, c, d) == BytesOfThree(a, b, c) + Completed(3, c, d)
  {
    var whole := ((a * 64 + b) * 64 + c) * 64 + d;
    var head := ((a * 64 + b) * 64 + c) / 4;
    FourthByte((a * 64 + b) * 64 + c, d);
    SplitByte((a * 64 + b) * 16, c * 64 + d);
    assert whole == (a * 64 + b) * 16 * 256 + (c * 64 + d);
    assert whole / 65536 == head / 256;
  }

  /** The reference grows by the bytes the last sextet completes. */
  lemma {:induction false} DecodeOneMore(s: seq<Sextet>, x: Sextet)
    ensures DecodeSextets(s + [x]) == DecodeSextets(s) + Completed(|s|, if s == [] then 0 else s[|s| - 1], x)
  {
    if |s| >= 4 {
      assert (s + [x])[4..] == s[4..] + [x];
      DecodeOneMore(s[4..], x);
      CompletedRepeats(|s|, s[|s| - 1], x);
      var rest := s[4..];
      assert Completed(|rest|, if rest == [] then 0 else rest[|rest| - 1], x) == Completed(|s|, s[|s| - 1], x);
      ConcatIsAssociative(BytesOfFour(s[0], s[1], s[2], s[3]), DecodeSextets(s[4..]),
                   Completed(|s|, s[|s| - 1], x));
    } else if |s| == 3 {
      FourOfGroup(s[0], s[1], s[2], x);
      assert (s + [x])[4..] == [];
    } else if |s| == 2 {
      ThreeOfGroup(s[0], s[1], x);
    }
  }

  lemma WrapIsShift(y: int) returns (k: int)
    ensures Wrap32(y) == y - k * 0x1_0000_0000
  {
    k := (y + 0x8000_0000) / 0x1_0000_0000;
  }

  lemma Remainders(q: int, r: nat)
    requires r < 4096
    ensures (q * 4096 + r) % 4096 == r && (q * 4096 + r) % 64 == r % 64
  {
  }

  /** Only the last sextet matters to the low bits of the next value: wrapping keeps it. */
  lemma LowBitsSurvive(val: int, previous: nat, s: nat, wraps: bool)
    requires val % 64 == previous && s < 64
    ensures var next := Shifted(val, s, wraps);
      next % 4096 == previous * 64 + s && next % 64 == s
  {
    var k := WrapIsShift(val * 64);
    var q := val / 64 - if wraps then k * 1048576 else 0;
    var next := Shifted(val, s, wraps);
    assert next == q * 4096 + (previous * 64 + s);
    Remainders(q, previous * 64 + s);
    assert (previous * 64 + s) % 64 == s;
  }

  lemma Quotients(q: int, pair: nat)
    ensures (q * 4096 + pair) / 4 == q * 4 * 256 + pair / 4
    ensures (q * 4096 + pair) / 16 == q * 256 + pair / 16
    ensures q * 4096 + pair == q * 16 * 256 + pair
  {
  }

  lemma ByteOfPair(val: int, pair: nat)
    requires pair < 4096 && val % 4096 == pair
    ensures LowByte(val, 0) == pair % 256 && LowByte(val, 2) == pair / 4 % 256 && LowByte(val, 4) == pair / 16
  {
    assert Pow2(0) == 1 && Pow2(1) == 2 && Pow2(2) == 4 && Pow2(3) == 8 && Pow2(4) == 16;
    var q := val / 4096;
    Quotients(q, pair);
    SplitByte(q * 16, pair);
    SplitByte(q * 4, pair / 4);
    SplitByte(q, pair / 16);
  }

  /** How many bits wait for the next byte, by the number of sextets read. */
  function Waiting(sextets: nat): int {
    if sextets % 4 == 0 then -8 else if sextets % 4 == 1 then -2 else if sextets % 4 == 2 then -4 else -6
  }

  lemma EmitCompleted(val: int, sextets: nat, previous: nat, s: nat, out: seq<Byte>)
    requires previous < 64 && s < 64 && val % 4096 == previous * 64 + s
    ensures var next := Emit(val, Waiting(sextets) + 6, out);
      next.valb == Waiting(sextets + 1) && next.out == out + Completed(sextets, previous, s) && next.val == val
  {
    ByteOfPair(val, previous * 64 + s);
    assert out + [] == out;
  }

  lemma StepIsReference(a: Accumulator, sextets: nat, previous: Sextet, s: Sextet, wraps: bool)
    requires a.valb == Waiting(sextets) && a.val % 64 == previous
    ensures var next := Accumulate(a, s, wraps);
      && next.valb == Waiting(sextets + 1) && next.val % 64 == s
      && next.out == a.out + Completed(sextets, previous, s)
  {
    LowBitsSurvive(a.val, previous, s, wraps);
    EmitCompleted(Shifted(a.val, s, wraps), sextets, previous, s, a.out);
  }

  /** Wrapping or not, the accumulator produces the reference's bytes. */
  lemma {:induction false} RunIsReference(s: seq<Sextet>, wraps: bool)
    ensures Run(s, wraps).out == DecodeSextets(s)
    ensures Run(s, wraps).valb == Waiting(|s|)
    ensures Run(s, wraps).val % 64 == if s == [] then 0 else s[|s| - 1]
  {
    if s != [] {
      var before, last := s[..|s| - 1], s[|s| - 1];
      var previous := if before == [] then 0 else before[|before| - 1];
      RunIsReference(before, wraps);
      assert s == before + [last];
      DecodeOneMore(before, last);
      StepIsReference(Run(before, wraps), |before|, previous, last, wraps);
    }
  }

  lemma WrappingIsHarmless(s: seq<Sextet>)
    ensures Run(s, true).out == Run(s, false).out
  {
    RunIsReference(s, true);
    RunIsReference(s, false);
  }

  lemma {:induction false} SextetsOneMore(text: string, c: char)
    ensures Sextets(text + [c]) == Sextets(text) + SextetsOf(c)
  {
    if text == "" {
      assert (text + [c])[1..] == "";
      assert SextetsOf(c) + [] == SextetsOf(c);
    } else {
      assert (text + [c])[1..] == text[1..] + [c];
      SextetsOneMore(text[1..], c);
      ConcatIsAssociative(SextetsOf(text[0]), Sextets(text[1..]), SextetsOf(c));
    }
  }

  /** base64url_decode. */
  method Base64UrlDecode(input: string) returns (out: seq<Byte>)
    ensures out == Decode(input)
  {
    out := [];
    var val, valb := 0, -8;
    ghost var read: seq<Sextet> := [];
    for i := 0 to |input|
      invariant read == Sextets(input[..i])
      invariant Run(read, true) == Accumulator(val, valb, out)
    {
      SextetsOneMore(input[..i], input[i]);
      assert input[..i + 1] == input[..i] + [input[i]];
      var b := SextetOf(input[i]);
      if b.Some? {
        assert (read + [b.value])[..|read|] == read;
        RunIsReference(read + [b.value], true);
        val := Wrap32(val * 64) + b.value;
        valb := valb + 6;
        if valb >= 0 {
          out := out + [LowByte(val, valb)];
          valb := valb - 8;
        }
        read := read + [b.value];
      }
    }
    assert input[..|input|] == input;
    RunIsReference(read, true);
  }

  // ----- Properties -----

  /** How many characters of a text belong to the alphabet. */
  function AlphabetCount(text: string): nat {
    if text == "" then 0 else (if SextetOf(text[0]).Some? then 1 else 0) + AlphabetCount(text[1..])
  }

  lemma {:induction false} EachStandsForASextet(text: string)
    ensures |Sextets(text)| == AlphabetCount(text)
  {
    if text != "" {
      EachStandsForASextet(text[1..]);
    }
  }

  lemma {:induction false} DecodedLength(s: seq<Sextet>)
    ensures |DecodeSextets(s)| == 6 * |s| / 8
  {
    if |s| >= 4 {
      DecodedLength(s[4..]);
    }
  }

  /** A text with n alphabet characters, whatever else it holds, decodes to floor(6n / 8) bytes. */
  lemma DecodedTextLength(text: string)
    ensures |Decode(text)| == 6 * AlphabetCount(text) / 8
  {
    EachStandsForASextet(text);
    DecodedLength(Sextets(text));
  }

  lemma {:induction false} StrangersAddNothing(before: string, stranger: char, after: string)
    requires SextetOf(stranger).None?
    ensures Sextets(before + [stranger] + after) == Sextets(before + after)
  {
    if before == "" {
      assert (before + [stranger] + after)[1..] == after && before + after == after;
    } else {
      assert (before + [stranger] + after)[1..] == before[1..] + [stranger] + after;
      assert (before + after)[1..] == before[1..] + after;
      StrangersAddNothing(before[1..], stranger, after);
    }
  }

  /** Characters outside the alphabet never matter. */
  lemma {:induction false} StrangersAreIgnored(before: string, stranger: char, after: string)
    requires SextetOf(stranger).None?
    ensures Decode(before + [stranger] + after) == Decode(before + after)
  {
    StrangersAddNothing(before, stranger, after);
  }

  lemma {:induction false} SextetsOfChars(s: seq<Sextet>)
    ensures Sextets(CharsOf(s)) == s
  {
    if s != [] {
      SextetsOfChars(s[1..]);
      assert CharsOf(s)[1..] == CharsOf(s[1..]);
    }
  }

  /** The four sextets of a group, and the three bytes of one. */
  lemma GroupRoundTrip(group: nat)
    ensures ((group / 262144 * 64 + group / 4096 % 64) * 64 + group / 64 % 64) * 64 + group % 64 == group
  {
    assert group / 64 / 64 == group / 4096 && group / 4096 / 64 == group / 262144;
  }

  lemma BytesOfGroup(x: nat, y: nat, z: nat)
    requires x < 256 && y < 256 && z < 256
    ensures var group := (x * 256 + y) * 256 + z;
      group / 65536 == x && group / 256 % 256 == y && group % 256 == z
  {
    SplitByte(x * 256 + y, z);
    SplitByte(x, y);
  }

  lemma ThreeBytesRoundTrip(x: nat, y: nat, z: nat)
    requires x < 256 && y < 256 && z < 256
    ensures var s := SextetsOfThree(x, y, z);
      |s| == 4 && BytesOfFour(s[0], s[1], s[2], s[3]) == [x, y, z]
  {
    var group := (x * 256 + y) * 256 + z;
    GroupRoundTrip(group);
    BytesOfGroup(x, y, z);
    var s := SextetsOfThree(x, y, z);
    assert ((s[0] as int * 64 + s[1]) * 64 + s[2]) * 64 + s[3] == group;
  }

  lemma ThreeSextets(group: nat)
    ensures (group / 4096 * 64 + group / 64 % 64) * 64 + group % 64 == group
  {
    assert group / 64 / 64 == group / 4096;
  }

  lemma TwoBytesRoundTrip(x: nat, y: nat)
    requires x < 256 && y < 256
    ensures var s := SextetsOfTwo(x, y); BytesOfThree(s[0], s[1], s[2]) == [x, y]
  {
    var pair := x * 256 + y;
    ThreeSextets(pair * 4);
    assert pair * 4 / 4 == pair;
    SplitByte(x, y);
  }

  lemma OneByteRoundTrip(x: nat)
    requires x < 256
    ensures var s := SextetsOfOne(x); BytesOfTwo(s[0], s[1]) == [x]
  {
    assert x * 16 / 64 * 64 + x * 16 % 64 == x * 16;
  }

  lemma {:induction false} BytesRoundTrip(b: seq<Byte>)
    ensures DecodeSextets(EncodeBytes(b)) == b
  {
    if |b| >= 3 {
      ThreeBytesRoundTrip(b[0], b[1], b[2]);
      BytesRoundTrip(b[3..]);
      assert EncodeBytes(b)[4..] == EncodeBytes(b[3..]);
      assert b == [b[0], b[1], b[2]] + b[3..];
    } else if |b| == 2 {
      assert b == [b[0], b[1]];
      TwoBytesRoundTrip(b[0], b[1]);
    } else if |b| == 1 {
      assert b == [b[0]];
      OneByteRoundTrip(b[0]);
    }
  }

  /** Decoding the unpadded encoding of any bytes gives them back. */
  lemma DecodeEncode(bytes: seq<Byte>)
    ensures Decode(Encode(bytes)) == bytes
  {
    SextetsOfChars(EncodeBytes(bytes));
    BytesRoundTrip(bytes);
  }
}
