/**
 Streaming MD5 (RFC 1321) as the server computes it for digest authentication.

 The compression function is a parameter: everything here holds for whatever the rounds compute.
 */
module Md5 {
  type byte = x: int | 0 <= x < 256
  type word = x: int | 0 <= x < WORD

  const WORD := 0x1_0000_0000
  const TWO_WORDS := 0x1_0000_0000_0000_0000

  /** The four chaining words A, B, C and D. */
  datatype Chain = Chain(a: word, b: word, c: word, d: word)

  const INITIAL := Chain(0x67452301, 0xefcdab89, 0x98badcfe, 0x10325476)

  type Compression = (Chain, seq<byte>) -> Chain

  // ----- The one-shot definition -----

  /** Fold the complete 64-byte blocks of a message. */
  function Absorb(compress: Compression, chain: Chain, message: seq<byte>): Chain
    decreases |message|
  {
    if |message| < 64 then chain else Absorb(compress, compress(chain, message[..64]), message[64..])
  }

  function Zeros(n: nat): (r: seq<byte>)
    ensures |r| == n
  {
    seq(n, _ => 0)
  }

  function LittleEndian(w: word): (r: seq<byte>)
    ensures |r| == 4
  {
    [w % 256, w / 0x100 % 256, w / 0x1_0000 % 256, w / 0x100_0000]
  }

  /** A one bit and zeros up to 8 bytes before a block boundary (section 3.1). */
  function PaddedBeforeLength(message: seq<byte>): seq<byte> {
    message + [0x80] + Zeros((55 - |message|) % 64)
  }

  /** Then the length in bits modulo 2^64, its low word first (section 3.2). */
  function Padded(message: seq<byte>): seq<byte> {
    var bits := 8 * |message| % TWO_WORDS;
    PaddedBeforeLength(message) + LittleEndian(bits % WORD) + LittleEndian(bits / WORD)
  }

  function DigestOf(compress: Compression, message: seq<byte>): seq<byte> {
    Bytes(Absorb(compress, INITIAL, Padded(message)))
  }

  function Bytes(chain: Chain): (r: seq<byte>)
    ensures |r| == 16
  {
    LittleEndian(chain.a) + LittleEndian(chain.b) + LittleEndian(chain.c) + LittleEndian(chain.d)
  }

  // ----- The order of the bytes -----

  /** The number that bytes stand for when the byte at index i counts 256^i. */
  function Value(bytes: seq<byte>): nat {
    if bytes == [] then 0 else bytes[0] + 0x100 * Value(bytes[1..])
  }

  lemma ValueOfFour(a: byte, b: byte, c: byte, d: byte)
    ensures Value([a, b, c, d]) == a + 0x100 * b + 0x1_0000 * c + 0x100_0000 * d
  {
    assert [a, b, c, d][1..] == [b, c, d] && [b, c, d][1..] == [c, d] && [c, d][1..] == [d] && [d][1..] == [];
    assert Value([d]) == d;
    assert Value([c, d]) == c + 0x100 * d;
    assert Value([b, c, d]) == b + 0x100 * c + 0x1_0000 * d;
  }

  lemma BytesOfWord(w: word)
    ensures var b := LittleEndian(w);
            b[0] as int + 0x100 * (b[1] as int) + 0x1_0000 * (b[2] as int) + 0x100_0000 * (b[3] as int) == w
  {
    var x, y := w / 0x100, w / 0x1_0000;
    assert y == x / 0x100 && w / 0x100_0000 == y / 0x100;
    assert w == 0x100 * x + w % 0x100 && x == 0x100 * y + x % 0x100 && y == 0x100 * (y / 0x100) + y % 0x100;
  }

  /** A word is written with its low byte first. */
  lemma LittleEndianValue(w: word)
    ensures Value(LittleEndian(w)) == w
  {
    BytesOfWord(w);
    var b := LittleEndian(w);
    ValueOfFour(b[0], b[1], b[2], b[3]);
    hide Value, LittleEndian;
    assert b == [b[0], b[1], b[2], b[3]];
  }

  lemma {:induction false} ValueAppend(low: seq<byte>, high: seq<byte>)
    requires |low| == 4
    ensures Value(low + high) == Value(low) + WORD * Value(high)
  {
    var a, b, c, d := low[0], low[1], low[2], low[3];
    ValueOfFour(a, b, c, d);
    assert low == [a, b, c, d];
    var all := low + high;
    assert all[1..] == [b, c, d] + high && ([b, c, d] + high)[1..] == [c, d] + high;
    assert ([c, d] + high)[1..] == [d] + high && ([d] + high)[1..] == high;
    assert Value([d] + high) == d + 0x100 * Value(high);
    assert Value([c, d] + high) == c + 0x100 * Value([d] + high);
    assert Value([b, c, d] + high) == b + 0x100 * Value([c, d] + high);
  }

  /**
   The padded message is whole blocks: the message, the byte 0x80, as few zeros as possible, and eight bytes that
   stand for the length in bits modulo 2^64.
   */
  lemma PaddedMeans(message: seq<byte>)
    ensures var p, n := Padded(message), |message|;
            && |p| % 64 == 0 && n + 9 <= |p| < n + 73
            && p[..n] == message && p[n] == 0x80
            && (forall i :: n < i < |p| - 8 ==> p[i] == 0)
            && Value(p[|p| - 8..]) == 8 * n % TWO_WORDS
  {
    var n := |message|;
    var bits := 8 * n % TWO_WORDS;
    var low, high: word := bits % WORD, bits / WORD;
    var tail := LittleEndian(low) + LittleEndian(high);
    PaddedLength(message);
    ValueAppend(LittleEndian(low), LittleEndian(high));
    LittleEndianValue(low);
    LittleEndianValue(high);
    hide LittleEndian, Value;
    assert Padded(message) == PaddedBeforeLength(message) + tail;
    assert Padded(message)[|PaddedBeforeLength(message)|..] == tail;
  }

  lemma PaddedLength(message: seq<byte>)
    ensures var p, n := PaddedBeforeLength(message), |message|;
            && (|p| + 8) % 64 == 0 && n + 1 <= |p| < n + 65 && p[..n] == message && p[n] == 0x80
            && forall i :: n < i < |p| ==> p[i] == 0
  {
    var n := |message|;
    var zeros := (55 - n) % 64;
    ZerosToBoundary(n, n % 64);
    assert n == 64 * (n / 64) + n % 64;
    assert n % 64 + zeros == 55 || n % 64 + zeros == 119;
    Modulo64(n + 1 + zeros + 8, n / 64 + 1);
  }

  /** The sixteen bytes of a digest stand for the four words of the chain. */
  lemma BytesMean(chain: Chain)
    ensures var b := Bytes(chain);
            && Value(b[..4]) == chain.a && Value(b[4..8]) == chain.b
            && Value(b[8..12]) == chain.c && Value(b[12..]) == chain.d
  {
    LittleEndianValue(chain.a);
    LittleEndianValue(chain.b);
    LittleEndianValue(chain.c);
    LittleEndianValue(chain.d);
    hide LittleEndian, Value;
    var a, b, c, d := LittleEndian(chain.a), LittleEndian(chain.b), LittleEndian(chain.c), LittleEndian(chain.d);
    var all := Bytes(chain);
    assert all[..4] == a && all[4..8] == b && all[8..12] == c && all[12..] == d;
  }

  /** Written out, the initial chain is the bytes 01 23 .. ef fe dc .. 10 (section 3.3). */
  lemma InitialBytes()
    ensures Bytes(INITIAL) == [0x01, 0x23, 0x45, 0x67, 0x89, 0xab, 0xcd, 0xef,
                               0xfe, 0xdc, 0xba, 0x98, 0x76, 0x54, 0x32, 0x10]
  {
  }

  /** So the digest stands for the chain that the padded message folds to. */
  lemma DigestMeans(compress: Compression, message: seq<byte>)
    ensures var chain, digest := Absorb(compress, INITIAL, Padded(message)), DigestOf(compress, message);
            && |digest| == 16
            && Value(digest[..4]) == chain.a && Value(digest[4..8]) == chain.b
            && Value(digest[8..12]) == chain.c && Value(digest[12..]) == chain.d
  {
    BytesMean(Absorb(compress, INITIAL, Padded(message)));
    hide Value, Padded, Absorb;
  }

  lemma {:induction false} AbsorbAppend(compress: Compression, chain: Chain, m: seq<byte>, rest: seq<byte>)
    requires |m| % 64 == 0
    ensures Absorb(compress, chain, m + rest) == Absorb(compress, Absorb(compress, chain, m), rest)
    decreases |m|
  {
    if |m| == 0 {
      assert m + rest == rest;
    } else {
      assert (m + rest)[..64] == m[..64] && (m + rest)[64..] == m[64..] + rest;
      AbsorbAppend(compress, compress(chain, m[..64]), m[64..], rest);
    }
  }

  /** One more block. */
  lemma AbsorbBlock(compress: Compression, chain: Chain, m: seq<byte>, block: seq<byte>)
    requires |m| % 64 == 0 && |block| == 64
    ensures Absorb(compress, chain, m + block) == compress(Absorb(compress, chain, m), block)
  {
    AbsorbAppend(compress, chain, m, block);
    assert block[..64] == block && block[64..] == [];
  }

  // ----- The context -----

  /** The part of a message that is already folded. */
  function Whole(message: seq<byte>): (r: seq<byte>)
    ensures |r| % 64 == 0
  {
    message[..|message| - |message| % 64]
  }

  function Rest(message: seq<byte>): (r: seq<byte>)
    ensures |r| == |message| % 64
  {
    message[|message| - |message| % 64..]
  }

  method CopyInto(dst: array<byte>, at: nat, src: seq<byte>)
    requires at + |src| <= dst.Length
    modifies dst
    ensures dst[..] == old(dst[..at]) + src + old(dst[at + |src|..])
  {
    forall i | 0 <= i < |src| {
      dst[at + i] := src[i];
    }
  }

  /** The sum of two words in 32 bits. */
  function Wrap(x: nat): word
    requires x < 2 * WORD
  {
    if x >= WORD then x - WORD else x
  }

  class Context {
    const compress: Compression
    const block: array<byte>
    var buf: Chain
    var bits0: word
    var bits1: word
    ghost var message: seq<byte>   // everything added so far
    ghost var wraps: nat           // how often the counter has wrapped around

    /** The chain folds the whole blocks, the block buffer starts with the rest, the counter is the length in bits. */
    ghost predicate Valid()
      reads this, block
    {
      && block.Length == 64
      && buf == Absorb(compress, INITIAL, Whole(message))
      && block[..|message| % 64] == Rest(message)
      && bits0 + WORD * bits1 + TWO_WORDS * wraps == 8 * |message|
    }

    constructor (compress: Compression)
      ensures Valid() && fresh(block) && message == [] && this.compress == compress
    {
      this.compress := compress;
      buf, bits0, bits1, message, wraps := INITIAL, 0, 0, [], 0;
      block := new byte[64](_ => 0);
    }

    /** How full the block buffer is, read off the counter. */
    function Used(): (r: nat)
      requires Valid()
      reads this, block
      ensures r == |message| % 64
    {
      UsedBytes(bits0, bits1 + WORD * wraps, |message|);
      bits0 / 8 % 64
    }

    /** Both words of the counter, with the carry between them. */
    method Count(len: nat)
      requires len < WORD
      modifies `bits0, `bits1, `wraps
      ensures bits0 + WORD * bits1 + TWO_WORDS * wraps == old(bits0 + WORD * bits1 + TWO_WORDS * wraps) + 8 * len
    {
      var t := bits0;
      bits0 := Wrap(t + 8 * (len % 0x2000_0000));
      if bits0 < t {
        if bits1 + 1 >= WORD { wraps := wraps + 1; }
        bits1 := Wrap(bits1 + 1);
      }
      if bits1 + len / 0x2000_0000 >= WORD { wraps := wraps + 1; }
      bits1 := Wrap(bits1 + len / 0x2000_0000);
    }

    method Transform(ghost folded: seq<byte>)
      requires block.Length == 64 && |folded| % 64 == 0
      requires buf == Absorb(compress, INITIAL, folded)
      modifies `buf
      ensures buf == Absorb(compress, INITIAL, folded + block[..])
    {
      AbsorbBlock(compress, INITIAL, folded, block[..]);
      buf := compress(buf, block[..]);
    }

    /** Complete a started block, when the data suffices for it. */
    method FinishBlock(used: nat, data: seq<byte>) returns (ghost folded: seq<byte>)
      requires block.Length == 64 && used == |message| % 64 && used + |data| >= 64
      requires buf == Absorb(compress, INITIAL, Whole(message)) && block[..used] == Rest(message)
      modifies `buf, block
      ensures folded == message + data[..64 - used] && |folded| % 64 == 0
      ensures block.Length == 64 && buf == Absorb(compress, INITIAL, folded)
    {
      CopyInto(block, used, data[..64 - used]);
      BlockBoundary(message, data);
      Transform(Whole(message));
      folded := Whole(message) + block[..];
    }

    /** Fold the whole blocks of the data from p on, straight from the data. */
    method FoldBlocks(data: seq<byte>, from: nat, ghost folded: seq<byte>) returns (p: nat, ghost blocks: nat)
      requires block.Length == 64 && from <= |data| && |folded| % 64 == 0
      requires buf == Absorb(compress, INITIAL, folded)
      modifies `buf, block
      ensures p == from + 64 * blocks && p <= |data| < p + 64
      ensures buf == Absorb(compress, INITIAL, folded + data[from..p])
    {
      hide Absorb;
      p, blocks := from, 0;
      ghost var before := folded;
      while |data| - p >= 64
        invariant p == from + 64 * blocks && p <= |data|
        invariant before == folded + data[from..p] && |before| % 64 == 0
        invariant buf == Absorb(compress, INITIAL, before)
      {
        CopyInto(block, 0, data[p..p + 64]);
        assert block[..] == data[p..p + 64];
        Transform(before);
        NextSlice(folded, data, from, p);
        before := before + data[p..p + 64];
        p, blocks := p + 64, blocks + 1;
      }
    }

    /** Add data to the message, whatever its length. */
    method Update(data: seq<byte>)
      requires Valid() && |data| < WORD
      modifies this, block
      ensures Valid() && message == old(message) + data
    {
      var used := Used();
      hide Absorb;
      Count(|data|);
      ghost var m, all := message, message + data;
      var p := 0;
      ghost var folded := m;
      if used != 0 {
        if |data| < 64 - used {
          CopyInto(block, used, data);
          UnfinishedBlock(m, data);
          message := all;
          return;
        }
        folded := FinishBlock(used, data);
        p := 64 - used;
      } else {
        assert Whole(m) == m;
      }
      AddBlocks(data, p, folded, all);
      message := all;
    }

    /** Fold what is left of the data, and keep the last bytes of it. */
    method AddBlocks(data: seq<byte>, from: nat, ghost folded: seq<byte>, ghost all: seq<byte>)
      requires block.Length == 64 && from <= |data| && |folded| % 64 == 0
      requires all == folded + data[from..]
      requires buf == Absorb(compress, INITIAL, folded)
      modifies `buf, block
      ensures buf == Absorb(compress, INITIAL, Whole(all)) && block[..|all| % 64] == Rest(all)
    {
      hide Absorb;
      var p, blocks := FoldBlocks(data, from, folded);
      CopyInto(block, 0, data[p..]);
      LastBlock(folded, data[from..], p - from, |folded| / 64 + blocks);
      assert data[from..][..p - from] == data[from..p] && data[from..][p - from..] == data[p..];
    }

    method Fill(from: nat, to: nat)
      requires from <= to <= block.Length
      modifies block
      ensures block[..] == old(block[..from]) + Zeros(to - from) + old(block[to..])
    {
      forall i | from <= i < to {
        block[i] := 0;
      }
    }

    /** No room for the length in this block: fold it, and start one that is all zeros. */
    method FinishWithZeros(from: nat, ghost before: seq<byte>) returns (ghost folded: seq<byte>)
      requires from <= block.Length == 64 && |before| % 64 == 0 && buf == Absorb(compress, INITIAL, before)
      modifies `buf, block
      ensures folded == before + (old(block[..from]) + Zeros(64 - from))
      ensures |folded| % 64 == 0 && buf == Absorb(compress, INITIAL, folded) && block[..56] == Zeros(56)
    {
      Fill(from, 64);
      Transform(before);
      folded := before + block[..];
      Fill(0, 56);
      assert block[..56] == Zeros(56);
    }

    /** Put the padding into the block buffer, up to the place for the length. */
    method Pad() returns (ghost folded: seq<byte>)
      requires Valid()
      modifies `buf, block
      ensures |folded| % 64 == 0 && buf == Absorb(compress, INITIAL, folded)
      ensures folded + block[..56] == PaddedBeforeLength(message)
    {
      var count := Used();
      hide Absorb, Zeros, Whole, Rest, PaddedBeforeLength;
      block[count] := 0x80;
      folded := Whole(message);
      assert block[..count + 1] == Rest(message) + [0x80];
      hide Valid;
      if 63 - count < 8 {
        folded := FinishWithZeros(count + 1, folded);
        PaddedTwoBlocks(message);
      } else {
        Fill(count + 1, 56);
        assert block[..56] == Rest(message) + [0x80] + Zeros(55 - count);
        PaddedOneBlock(message);
      }
    }

    /** Pad the message, fold the last one or two blocks, give out the chain and wipe the context. */
    method Final() returns (digest: seq<byte>)
      requires Valid()
      modifies this, block
      ensures digest == DigestOf(compress, old(message))
      ensures buf == Chain(0, 0, 0, 0) && bits0 == 0 && bits1 == 0 && block[..] == Zeros(64)
    {
      ghost var folded := Pad();
      LengthWords(bits0, bits1, wraps, |message|);
      hide Absorb, LittleEndian, PaddedBeforeLength;
      CopyInto(block, 56, LittleEndian(bits0) + LittleEndian(bits1));
      assert block[..] == block[..56] + (LittleEndian(bits0) + LittleEndian(bits1));
      assert folded + block[..] == Padded(message);
      Transform(folded);
      digest := Bytes(buf);
      buf, bits0, bits1 := Chain(0, 0, 0, 0), 0, 0;
      Fill(0, 64);
    }
  }

  lemma NextSlice(folded: seq<byte>, data: seq<byte>, from: nat, p: nat)
    requires from <= p && p + 64 <= |data|
    ensures folded + data[from..p] + data[p..p + 64] == folded + data[from..p + 64]
  {
    assert data[from..p] + data[p..p + 64] == data[from..p + 64];
  }

  lemma UnfinishedBlock(m: seq<byte>, data: seq<byte>)
    requires |m| % 64 + |data| < 64
    ensures Whole(m + data) == Whole(m) && Rest(m + data) == Rest(m) + data
  {
    var r, n := |m| % 64, |m| / 64;
    assert |m| == 64 * n + r;
    assert |m + data| == 64 * n + (r + |data|);
    assert |m + data| % 64 == r + |data|;
  }

  lemma BlockBoundary(m: seq<byte>, data: seq<byte>)
    requires |m| % 64 + |data| >= 64
    ensures Whole(m) + (Rest(m) + data[..64 - |m| % 64]) == m + data[..64 - |m| % 64]
    ensures |m + data[..64 - |m| % 64]| % 64 == 0
  {
    assert m == Whole(m) + Rest(m);
  }

  lemma LastBlock(m: seq<byte>, data: seq<byte>, p: nat, blocks: nat)
    requires p <= |data| < p + 64 && |m| + p == 64 * blocks
    ensures Whole(m + data) == m + data[..p] && Rest(m + data) == data[p..]
  {
    assert |m + data| == 64 * blocks + (|data| - p);
    assert |m + data| % 64 == |data| - p;
  }

  /** The low word of the counter knows how full the block buffer is. */
  lemma UsedBytes(bits0: word, high: nat, n: nat)
    requires bits0 + WORD * high == 8 * n
    ensures bits0 / 8 % 64 == n % 64
  {
    assert bits0 / 8 == n - 64 * (0x80_0000 * high);
    Modulo64(n, 0x80_0000 * high);
  }

  lemma Modulo64(n: int, k: int)
    ensures (n - 64 * k) % 64 == n % 64
  {
  }

  /** The counter holds the two words of the length in bits modulo 2^64. */
  lemma LengthWords(bits0: word, bits1: word, wraps: nat, n: nat)
    requires bits0 + WORD * bits1 + TWO_WORDS * wraps == 8 * n
    ensures 8 * n % TWO_WORDS % WORD == bits0 && 8 * n % TWO_WORDS / WORD == bits1
  {
    var low := bits0 + WORD * bits1;
    assert 8 * n % TWO_WORDS == low;
  }

  lemma PaddedOneBlock(m: seq<byte>)
    ensures |m| % 64 <= 55 ==> PaddedBeforeLength(m) == Whole(m) + (Rest(m) + [0x80] + Zeros(55 - |m| % 64))
  {
    if |m| % 64 <= 55 {
      ZerosToBoundary(|m|, |m| % 64);
      assert m == Whole(m) + Rest(m);
    }
  }

  lemma PaddedTwoBlocks(m: seq<byte>)
    ensures |m| % 64 > 55 ==>
      PaddedBeforeLength(m) == Whole(m) + (Rest(m) + [0x80] + Zeros(63 - |m| % 64)) + Zeros(56)
  {
    var r := |m| % 64;
    if r > 55 {
      ZerosToBoundary(|m|, r);
      assert m == Whole(m) + Rest(m);
      assert Zeros(119 - r) == Zeros(63 - r) + Zeros(56);
    }
  }

  lemma ZerosToBoundary(n: nat, r: nat)
    requires r == n % 64
    ensures (55 - n) % 64 == if r <= 55 then 55 - r else 119 - r
  {
    assert 55 - n == 55 - r - 64 * (n / 64);
    Modulo64(55 - r, n / 64);
  }

  // ----- The digest of a list of strings -----

  function Concat(pieces: seq<seq<byte>>): seq<byte> {
    if pieces == [] then [] else Concat(pieces[..|pieces| - 1]) + pieces[|pieces| - 1]
  }

  /** The length of a piece is cast to 32 bits, so of a longer one only a prefix is digested. */
  function Cast(piece: seq<byte>): (r: seq<byte>)
    ensures |r| < WORD && r <= piece && |r| == |piece| % WORD
  {
    piece[..|piece| % WORD]
  }

  function CastAll(pieces: seq<seq<byte>>): (r: seq<seq<byte>>)
    ensures |r| == |pieces|
  {
    seq(|pieces|, i requires 0 <= i < |pieces| => Cast(pieces[i]))
  }

  lemma ShortPieces(pieces: seq<seq<byte>>)
    ensures (forall i :: 0 <= i < |pieces| ==> |pieces[i]| < WORD) ==> CastAll(pieces) == pieces
  {
    if forall i :: 0 <= i < |pieces| ==> |pieces[i]| < WORD {
      forall i | 0 <= i < |pieces|
        ensures CastAll(pieces)[i] == pieces[i]
      {
      }
    }
  }

  function HexDigit(x: int): char
    requires 0 <= x < 16
  {
    "0123456789abcdef"[x]
  }

  /** Two lower-case digits for each byte. */
  function Hex(p: seq<byte>): string {
    if p == [] then "" else Hex(p[..|p| - 1]) + [HexDigit(p[|p| - 1] / 16), HexDigit(p[|p| - 1] % 16)]
  }

  method Bin2Str(p: seq<byte>) returns (to: string)
    ensures to == Hex(p)
  {
    to := "";
    for i := 0 to |p|
      invariant to == Hex(p[..i])
    {
      assert p[..i + 1][..i] == p[..i];
      to := to + [HexDigit(p[i] / 16)] + [HexDigit(p[i] % 16)];
    }
    assert p[..|p|] == p;
  }

  /** The value of a digit that Hex writes. */
  function DigitValue(c: char): int {
    if '0' <= c <= '9' then c as int - '0' as int else c as int - 'a' as int + 10
  }

  lemma {:induction false} HexDecodes(p: seq<byte>, i: nat)
    requires i < |p|
    ensures |Hex(p)| == 2 * |p|
    ensures 16 * DigitValue(Hex(p)[2 * i]) + DigitValue(Hex(p)[2 * i + 1]) == p[i]
  {
    hide *;
    HexStep(p);
    if |p| == 1 {
      HexNothing();
    } else {
      HexDecodes(p[..|p| - 1], if i < |p| - 1 then i else 0);
    }
    DigitsOfByte(p[|p| - 1]);
  }

  lemma HexNothing()
    ensures Hex([]) == ""
  {
  }

  lemma HexStep(p: seq<byte>)
    requires p != []
    ensures Hex(p) == Hex(p[..|p| - 1]) + [HexDigit(p[|p| - 1] / 16), HexDigit(p[|p| - 1] % 16)]
    ensures |p| == 1 ==> p[..|p| - 1] == []
  {
  }

  lemma DigitsOfByte(b: byte)
    ensures 16 * DigitValue(HexDigit(b / 16)) + DigitValue(HexDigit(b % 16)) == b
  {
    DigitOfValue(b / 16);
    DigitOfValue(b % 16);
  }

  lemma DigitOfValue(x: int)
    requires 0 <= x < 16
    ensures DigitValue(HexDigit(x)) == x
  {
  }

  /** The digest of all the pieces, one after the other, in hexadecimal. */
  method MgMd5(compress: Compression, pieces: seq<seq<byte>>) returns (buf: string)
    ensures buf == Hex(DigestOf(compress, Concat(CastAll(pieces))))
    ensures (forall i :: 0 <= i < |pieces| ==> |pieces[i]| < WORD) ==> buf == Hex(DigestOf(compress, Concat(pieces)))
  {
    var ctx := new Context(compress);
    hide Absorb, Hex, Padded, Bytes, Cast;
    for i := 0 to |pieces|
      invariant ctx.Valid() && fresh(ctx) && fresh(ctx.block) && ctx.compress == compress
      invariant ctx.message == Concat(CastAll(pieces)[..i])
    {
      assert CastAll(pieces)[..i + 1][..i] == CastAll(pieces)[..i];
      ctx.Update(Cast(pieces[i]));
    }
    assert CastAll(pieces)[..|pieces|] == CastAll(pieces);
    var hash := ctx.Final();
    buf := Bin2Str(hash);
    ShortPieces(pieces);
  }
}
