/** MD5 over a message that comes in pieces. The block function is a parameter:
    what it computes does not matter here. */
module Md5 {
  import opened Rows

  type Byte = x: int | 0 <= x < 256
  type Word = x: int | 0 <= x < 0x1_0000_0000

  datatype Hash = Hash(a: Word, b: Word, c: Word, d: Word)

  type Block = s: seq<Word> | |s| == 16 witness seq(16, i => 0)

  type BlockFunction = (Hash, Block) -> Hash

  const INITIAL := Hash(0x67452301, 0xefcdab89, 0x98badcfe, 0x10325476)

  // ----- words and bytes -----

  /** Bytes as words, the low byte first. */
  function Words(b: seq<Byte>): (w: seq<Word>)
    requires |b| % 4 == 0
    ensures |w| == |b| / 4
  {
    if b == [] then []
    else [WordOf(b[0], b[1], b[2], b[3])] + Words(b[4..])
  }

  function WordOf(p: int, q: int, r: int, s: int): (w: Word)
    requires 0 <= p < 256 && 0 <= q < 256 && 0 <= r < 256 && 0 <= s < 256
  {
    p + 0x100 * q + 0x1_0000 * r + 0x100_0000 * s
  }

  function WordBytes(w: Word): (b: seq<Byte>)
    ensures |b| == 4
  {
    [w % 0x100, w / 0x100 % 0x100, w / 0x1_0000 % 0x100, w / 0x100_0000]
  }

  function Length(low: Word, high: Word): (b: seq<Byte>)
    ensures |b| == 8
  {
    WordBytes(low) + WordBytes(high)
  }

  lemma WordBack(w: Word)
    ensures Words(WordBytes(w)) == [w]
  {
    var b := WordBytes(w);
    assert b[4..] == [];
    BytesSpell(w);
  }

  lemma BytesSpell(w: Word)
    ensures WordOf(w % 0x100, w / 0x100 % 0x100, w / 0x1_0000 % 0x100, w / 0x100_0000) == w
  {
    assert w == 0x100 * (w / 0x100) + w % 0x100;
    assert w / 0x100 == 0x100 * (w / 0x1_0000) + w / 0x100 % 0x100;
    assert w / 0x1_0000 == 0x100 * (w / 0x100_0000) + w / 0x1_0000 % 0x100;
  }

  lemma WordsStep(x: seq<Byte>, rest: seq<Byte>)
    requires |x| == 4 && |rest| % 4 == 0
    ensures Words(x + rest) == [WordOf(x[0], x[1], x[2], x[3])] + Words(rest)
  {
    assert (x + rest)[4..] == rest;
  }

  lemma {:induction false} WordsJoin(a: seq<Byte>, b: seq<Byte>)
    requires |a| % 4 == 0 && |b| % 4 == 0
    ensures Words(a + b) == Words(a) + Words(b)
  {
    if a == [] {
      assert a + b == b;
    } else {
      var x, rest := a[..4], a[4..];
      assert x + (rest + b) == a + b && x + rest == a;
      WordsStep(x, rest + b);
      WordsStep(x, rest);
      WordsJoin(rest, b);
    }
  }

  /** Words 14 and 15 of the last block are the two words of the length. */
  lemma LastWords(start: seq<Byte>, low: Word, high: Word)
    requires |start| == 56
    ensures Words(start + Length(low, high)) == Words(start) + [low, high]
  {
    WordsJoin(start, Length(low, high));
    WordsJoin(WordBytes(low), WordBytes(high));
    WordBack(low);
    WordBack(high);
  }

  function HashBytes(h: Hash): (b: seq<Byte>)
    ensures |b| == 16
  {
    WordBytes(h.a) + WordBytes(h.b) + WordBytes(h.c) + WordBytes(h.d)
  }

  // ----- which byte stands where -----

  /** The weights of the bytes of a word, or of the bit count, lowest first. */
  function Weight(k: nat): (w: nat)
    ensures w > 0
  {
    if k == 0 then 1 else 0x100 * Weight(k - 1)
  }

  lemma SmallWeights()
    ensures Weight(0) == 1 && Weight(1) == 0x100 && Weight(2) == 0x1_0000 && Weight(3) == 0x100_0000
  {
    assert Weight(1) == 0x100 * Weight(0);
    assert Weight(2) == 0x100 * Weight(1);
    assert Weight(3) == 0x100 * Weight(2);
  }

  lemma WordByteAt(w: Word, k: nat)
    requires k < 4
    ensures WordBytes(w)[k] == w / Weight(k) % 0x100
  {
    SmallWeights();
  }

  /** Section 3.5 of RFC 1321: the digest is the words a, b, c, d, each with its low
      byte first. */
  lemma HashByteAt(h: Hash, i: nat, k: nat)
    requires i < 4 && k < 4
    ensures HashBytes(h)[4 * i + k] == [h.a, h.b, h.c, h.d][i] / Weight(k) % 0x100
  {
    WordByteAt([h.a, h.b, h.c, h.d][i], k);
  }

  /** And so are the words of a block. */
  lemma {:induction false} WordAt(b: seq<Byte>, i: nat)
    requires |b| % 4 == 0 && 4 * i < |b|
    ensures Words(b)[i] as int == b[4 * i] as int
      + 0x100 * b[4 * i + 1] as int + 0x1_0000 * b[4 * i + 2] as int + 0x100_0000 * b[4 * i + 3] as int
  {
    if i > 0 {
      var rest := b[4..];
      WordAt(rest, i - 1);
      assert b[4 * i] == rest[4 * (i - 1)] && b[4 * i + 1] == rest[4 * (i - 1) + 1];
      assert b[4 * i + 2] == rest[4 * (i - 1) + 2] && b[4 * i + 3] == rest[4 * (i - 1) + 3];
    }
  }

  /** Section 3.3 of RFC 1321, the bytes in the order in which it gives them. */
  lemma InitialBytes()
    ensures HashBytes(INITIAL) == [0x01, 0x23, 0x45, 0x67, 0x89, 0xab, 0xcd, 0xef,
                                   0xfe, 0xdc, 0xba, 0x98, 0x76, 0x54, 0x32, 0x10]
  {
    assert WordBytes(0x67452301) == [0x01, 0x23, 0x45, 0x67];
    assert WordBytes(0xefcdab89) == [0x89, 0xab, 0xcd, 0xef];
    assert WordBytes(0x98badcfe) == [0xfe, 0xdc, 0xba, 0x98];
    assert WordBytes(0x10325476) == [0x76, 0x54, 0x32, 0x10];
  }

  // ----- the whole message at once -----

  function Fold(f: BlockFunction, h: Hash, m: seq<Byte>): Hash
    decreases |m|
  {
    if |m| < 64 then h else Fold(f, f(h, Words(m[..64])), m[64..])
  }

  /** What is left of a message after its whole blocks. */
  function Tail(m: seq<Byte>): (t: seq<Byte>)
    ensures |t| == |m| % 64
  {
    if |m| < 64 then m else Tail(m[64..])
  }

  function Zeros(n: nat): (z: seq<Byte>)
    ensures |z| == n && forall i :: 0 <= i < n ==> z[i] == 0
  {
    seq(n, i => 0)
  }

  /** The number of bits modulo 2^64 as two words. */
  function LowBits(n: nat): Word {
    8 * n % 0x1_0000_0000
  }

  function HighBits(n: nat): Word {
    8 * n / 0x1_0000_0000 % 0x1_0000_0000
  }

  function ZeroCount(n: nat): nat {
    if n % 64 < 56 then 55 - n % 64 else 119 - n % 64
  }

  /** Sections 3.1 and 3.2 of RFC 1321: a one bit, as few zeros as bring the
      length to 56 bytes modulo 64, and the length, its low word first. */
  function Padding(n: nat): seq<Byte> {
    [0x80] + Zeros(ZeroCount(n)) + Length(LowBits(n), HighBits(n))
  }

  lemma PaddedWhole(m: seq<Byte>)
    ensures |m + Padding(|m|)| % 64 == 0
    ensures ZeroCount(|m|) < 64 && (|m| + 1 + ZeroCount(|m|)) % 64 == 56
  {
    WholeLength(|m|);
  }

  /** Byte by byte: 0x80 behind the message, zeros, and at the end eight bytes that
      are the number of its bits, the lowest first, as far as they reach. */
  lemma PaddedAt(m: seq<Byte>, i: nat)
    requires |m| <= i < |m + Padding(|m|)|
    ensures var padded, end := m + Padding(|m|), |m + Padding(|m|)| - 8;
      padded[i] == if i == |m| then 0x80 else if i < end then 0 else 8 * |m| / Weight(i - end) % 0x100
  {
    var n, zeros := |m|, Zeros(ZeroCount(|m|));
    var end := n + 1 + |zeros|;
    assert |m + Padding(n)| == end + 8;
    if i >= end {
      assert (m + Padding(n))[i] == Length(LowBits(n), HighBits(n))[i - end];
      LengthAt(n, i - end);
    } else if i > n {
      assert (m + Padding(n))[i] == zeros[i - n - 1];
    }
  }

  lemma LengthAt(n: nat, k: nat)
    requires k < 8
    ensures Length(LowBits(n), HighBits(n))[k] == 8 * n / Weight(k) % 0x100
  {
    SmallWeights();
    if k < 4 {
      WordByteAt(LowBits(n), k);
      LowByte(8 * n, Weight(k));
    } else {
      WordByteAt(HighBits(n), k - 4);
      HighWeight(k - 4);
      HighByte(8 * n, Weight(k - 4));
    }
  }

  lemma HighWeight(k: nat)
    requires k < 4
    ensures Weight(k + 4) == 0x1_0000_0000 * Weight(k)
    decreases k
  {
    if k == 0 {
      SmallWeights();
      assert Weight(4) == 0x100 * Weight(3);
    } else {
      HighWeight(k - 1);
    }
  }

  lemma LowByte(x: nat, w: nat)
    requires w in {1, 0x100, 0x1_0000, 0x100_0000}
    ensures x % 0x1_0000_0000 / w % 0x100 == x / w % 0x100
  {
    if w == 0x100 {
      LowByte1(x);
    } else if w == 0x1_0000 {
      LowByte2(x);
    } else if w == 0x100_0000 {
      LowByte3(x);
    }
  }

  lemma LowByte1(x: nat)
    ensures x % 0x1_0000_0000 / 0x100 % 0x100 == x / 0x100 % 0x100
  {
    var q, r := x / 0x1_0000_0000, x % 0x1_0000_0000;
    Shifted1(x, 0x100_0000 * q + r / 0x100, r % 0x100);
    LowOf(0x1_0000 * q, r / 0x100);
  }

  lemma LowByte2(x: nat)
    ensures x % 0x1_0000_0000 / 0x1_0000 % 0x100 == x / 0x1_0000 % 0x100
  {
    var q, r := x / 0x1_0000_0000, x % 0x1_0000_0000;
    Shifted2(x, 0x1_0000 * q + r / 0x1_0000, r % 0x1_0000);
    LowOf(0x100 * q, r / 0x1_0000);
  }

  lemma LowByte3(x: nat)
    ensures x % 0x1_0000_0000 / 0x100_0000 % 0x100 == x / 0x100_0000 % 0x100
  {
    var q, r := x / 0x1_0000_0000, x % 0x1_0000_0000;
    Shifted3(x, 0x100 * q + r / 0x100_0000, r % 0x100_0000);
    LowOf(q, r / 0x100_0000);
  }

  lemma Shifted1(x: nat, y: nat, c: nat)
    requires c < 0x100 && x == y * 0x100 + c
    ensures x / 0x100 == y
  {
  }

  lemma Shifted2(x: nat, y: nat, c: nat)
    requires c < 0x1_0000 && x == y * 0x1_0000 + c
    ensures x / 0x1_0000 == y
  {
  }

  lemma Shifted3(x: nat, y: nat, c: nat)
    requires c < 0x100_0000 && x == y * 0x100_0000 + c
    ensures x / 0x100_0000 == y
  {
  }

  lemma LowOf(q: nat, a: nat)
    ensures (0x100 * q + a) % 0x100 == a % 0x100
  {
    assert 0x100 * q + a == (q + a / 0x100) * 0x100 + a % 0x100;
  }

  lemma HighByte(x: nat, w: nat)
    requires w in {1, 0x100, 0x1_0000, 0x100_0000}
    ensures x / 0x1_0000_0000 % 0x1_0000_0000 / w % 0x100 == x / (0x1_0000_0000 * w) % 0x100
  {
    LowByte(x / 0x1_0000_0000, w);
    if w == 0x100 {
      assert x / 0x1_0000_0000 / 0x100 == x / 0x100_0000_0000;
    } else if w == 0x1_0000 {
      assert x / 0x1_0000_0000 / 0x1_0000 == x / 0x1_0000_0000_0000;
    } else if w == 0x100_0000 {
      assert x / 0x1_0000_0000 / 0x100_0000 == x / 0x100_0000_0000_0000;
    }
  }

  lemma WholeLength(n: nat)
    ensures (n + 1 + ZeroCount(n)) % 64 == 56 && (n + 9 + ZeroCount(n)) % 64 == 0
  {
    assert n == n / 64 * 64 + n % 64;
  }

  function Digest(f: BlockFunction, m: seq<Byte>): seq<Byte> {
    HashBytes(Fold(f, INITIAL, m + Padding(|m|)))
  }

  // ----- piece by piece -----

  lemma {:induction false} FoldOn(f: BlockFunction, h: Hash, m: seq<Byte>, more: seq<Byte>)
    ensures Fold(f, h, m + more) == Fold(f, Fold(f, h, m), Tail(m) + more)
    ensures Tail(m + more) == Tail(Tail(m) + more)
    decreases |m|
  {
    if |m| >= 64 {
      FoldOn(f, f(h, Words(m[..64])), m[64..], more);
      assert (m + more)[..64] == m[..64] && (m + more)[64..] == m[64..] + more;
    }
  }

  lemma FoldOne(f: BlockFunction, h: Hash, block: seq<Byte>, more: seq<Byte>)
    requires |block| == 64
    ensures Fold(f, h, block + more) == Fold(f, f(h, Words(block)), more) && Tail(block + more) == Tail(more)
  {
    assert (block + more)[..64] == block && (block + more)[64..] == more;
  }

  /** How the two words of the counter take in `len` bytes. */
  function AddLow(low: Word, len: Word): Word {
    (low + 8 * len % 0x1_0000_0000) % 0x1_0000_0000
  }

  function AddHigh(high: Word, low: Word, len: Word): Word {
    var carried := if AddLow(low, len) < low then (high + 1) % 0x1_0000_0000 else high;
    (carried + len / 0x2000_0000) % 0x1_0000_0000
  }

  lemma TwoWords(x: nat, q: nat, r: Word)
    requires x == q * 0x1_0000_0000 + r
    ensures x % 0x1_0000_0000 == r && x / 0x1_0000_0000 == q
  {
  }

  /** The two words count on, with the carry from one to the other. */
  lemma CountOn(n: nat, len: Word)
    ensures AddLow(LowBits(n), len) == LowBits(n + len)
    ensures AddHigh(HighBits(n), LowBits(n), len) == HighBits(n + len)
  {
    var q, p, t, u := 8 * n / 0x1_0000_0000, len / 0x2000_0000, LowBits(n), 8 * len % 0x1_0000_0000;
    TwoWords(8 * n, q, t);
    TwoWords(8 * len, p, u);
    if t + u < 0x1_0000_0000 {
      TwoWords(8 * (n + len), q + p, t + u);
    } else {
      TwoWords(8 * (n + len), q + p + 1, t + u - 0x1_0000_0000);
    }
    ModuloSum(q, p, if t + u < 0x1_0000_0000 then 0 else 1);
  }

  lemma ModuloSum(q: nat, p: nat, c: nat)
    requires c <= 1
    ensures ((q % 0x1_0000_0000 + c) % 0x1_0000_0000 + p) % 0x1_0000_0000 == (q + c + p) % 0x1_0000_0000
  {
    var k := q / 0x1_0000_0000;
    assert q == k * 0x1_0000_0000 + q % 0x1_0000_0000;
  }

  lemma BytesHeld(n: nat)
    ensures LowBits(n) / 8 % 64 == n % 64
  {
    var q := 8 * n / 0x1_0000_0000;
    assert 8 * n == q * 0x1_0000_0000 + LowBits(n);
    assert LowBits(n) / 8 == n - q * 0x2000_0000;
  }

  class Context {
    const transform: BlockFunction
    var buf: Hash
    var low: Word
    var high: Word
    const input: array<Byte>
    ghost var message: seq<Byte>

    /** The context has taken in the whole message so far. */
    ghost predicate Valid()
      reads this, input
    {
      && input.Length == 64
      && low == LowBits(|message|) && high == HighBits(|message|)
      && buf == Fold(transform, INITIAL, message)
      && input[..|message| % 64] == Tail(message)
    }

    constructor (transform: BlockFunction)
      ensures Valid() && message == [] && this.transform == transform && fresh(input)
    {
      this.transform := transform;
      buf, low, high, message := INITIAL, 0, 0, [];
      input := new Byte[64](_ => 0);
    }

    /** Copies bytes into the block buffer. */
    method Fill(at: nat, data: seq<Byte>)
      requires at + |data| <= input.Length
      modifies input
      ensures input[..at + |data|] == old(input[..at]) + data
    {
      for i := 0 to |data|
        invariant input[..at + i] == old(input[..at]) + data[..i]
      {
        input[at + i] := data[i];
      }
      assert data[..|data|] == data;
    }

    method Transform()
      requires input.Length == 64
      modifies this`buf
      ensures buf == transform(old(buf), Words(input[..]))
    {
      buf := transform(buf, Words(input[..]));
    }

    method Count(len: Word)
      requires low == LowBits(|message|) && high == HighBits(|message|)
      modifies this`low, this`high
      ensures low == LowBits(|message| + len) && high == HighBits(|message| + len)
    {
      CountOn(|message|, len);
      low, high := AddLow(low, len), AddHigh(high, low, len);
    }

    /** Takes in more of the message. */
    method Update(data: seq<Byte>)
      requires Valid() && |data| < 0x1_0000_0000
      modifies this, input
      ensures Valid() && message == old(message) + data
    {
      ghost var h, tail := buf, Tail(message);
      FoldOn(transform, INITIAL, message, data);
      BytesHeld(|message|);
      var t := low / 8 % 64;
      Count(|data|);
      message := message + data;
      var p := data;
      if t > 0 && |data| < 64 - t {
        Fill(t, data);
        return;
      }
      if t > 0 {
        p := FirstBlock(t, data, tail);
      } else {
        assert tail + data == data;
      }
      Blocks(p);
    }

    /** Completes the block begun earlier and works it in. */
    method FirstBlock(t: nat, data: seq<Byte>, ghost tail: seq<Byte>) returns (rest: seq<Byte>)
      requires input.Length == 64 && t == |tail| < 64 <= t + |data| && input[..t] == tail
      modifies this`buf, input
      ensures rest == data[64 - t..]
      ensures Fold(transform, buf, rest) == Fold(transform, old(buf), tail + data) && Tail(rest) == Tail(tail + data)
    {
      var k := 64 - t;
      Fill(t, data[..k]);
      assert input[..] == tail + data[..k];
      Transform();
      rest := data[k..];
      assert tail + data == (tail + data[..k]) + rest;
      FoldOne(transform, old(buf), tail + data[..k], rest);
    }

    /** Works in whole blocks and keeps the rest. */
    method Blocks(data: seq<Byte>)
      requires input.Length == 64
      modifies this`buf, input
      ensures buf == Fold(transform, old(buf), data) && input[..|data| % 64] == Tail(data)
    {
      var p := data;
      while |p| >= 64
        invariant Fold(transform, buf, p) == Fold(transform, old(buf), data) && Tail(p) == Tail(data)
        invariant |p| % 64 == |data| % 64
        decreases |p|
      {
        NextBlock(p[..64]);
        assert p == p[..64] + p[64..];
        FoldOne(transform, buf, p[..64], p[64..]);
        p := p[64..];
      }
      Fill(0, p);
    }

    method NextBlock(block: seq<Byte>)
      requires input.Length == |block| == 64
      modifies this`buf, input
      ensures buf == transform(old(buf), Words(block))
    {
      Fill(0, block);
      assert input[..] == block;
      Transform();
    }

    /** The one bit after the message, and zeros up to some place. */
    method PadTo(count: nat, upto: nat, ghost tail: seq<Byte>)
      requires input.Length == 64 && count == |tail| < upto <= 64 && input[..count] == tail
      modifies input
      ensures input[..upto] == Ended(tail, upto)
    {
      Fill(count, [0x80]);
      Fill(count + 1, Zeros(upto - 1 - count));
    }

    /** The length behind 56 bytes, and the last block. */
    method LastBlock(ghost start: seq<Byte>)
      requires input.Length == 64 && |start| == 56 && input[..56] == start
      modifies this`buf, input
      ensures buf == transform(old(buf), Words(start + Length(low, high)))
      ensures input[56..] == Length(low, high)
    {
      Fill(56, WordBytes(low));
      Fill(60, WordBytes(high));
      assert input[..64] == input[..];
      assert start + WordBytes(low) + WordBytes(high) == start + Length(low, high);
      assert (start + Length(low, high))[56..] == Length(low, high);
      Transform();
    }

    /** Pads the message, works in what is left, and gives the digest. The wiping
        afterwards reaches two of the four words of the state and nothing else. */
    method Final() returns (digest: seq<Byte>)
      requires Valid()
      modifies this, input
      ensures digest == Digest(transform, old(message))
      ensures buf.a == buf.b == 0 && digest[8..] == WordBytes(buf.c) + WordBytes(buf.d)
      ensures input[56..] == old(Length(low, high))
    {
      BytesHeld(|message|);
      FoldPadding(transform, buf, message);
      var count := low / 8 % 64;
      LastBlocks(count, Tail(message));
      digest := HashBytes(buf);
      HashHalf(buf);
      buf := Hash(0, 0, buf.c, buf.d);
    }

    method EndBlock(count: nat, ghost tail: seq<Byte>)
      requires input.Length == 64 && count == |tail| < 64 && input[..count] == tail
      modifies this`buf, input
      ensures buf == transform(old(buf), Words(Ended(tail, 64)))
    {
      PadTo(count, 64, tail);
      assert input[..64] == input[..];
      Transform();
    }

    method OneBlock(count: nat, ghost tail: seq<Byte>)
      requires input.Length == 64 && count == |tail| < 56 && input[..count] == tail
      modifies this`buf, input
      ensures buf == transform(old(buf), Words(Ended(tail, 56) + Length(low, high)))
      ensures input[56..] == Length(low, high)
    {
      PadTo(count, 56, tail);
      LastBlock(Ended(tail, 56));
    }

    method TwoBlocks(count: nat, ghost tail: seq<Byte>)
      requires input.Length == 64 && count == |tail| < 64 && input[..count] == tail
      modifies this`buf, input
      ensures buf == transform(transform(old(buf), Words(Ended(tail, 64))), Words(Zeros(56) + Length(low, high)))
      ensures input[56..] == Length(low, high)
    {
      EndBlock(count, tail);
      EmptyBlock();
    }

    /** A last block with nothing of the message in it. */
    method EmptyBlock()
      requires input.Length == 64
      modifies this`buf, input
      ensures buf == transform(old(buf), Words(Zeros(56) + Length(low, high)))
      ensures input[56..] == Length(low, high)
    {
      Fill(0, Zeros(56));
      assert input[..56] == Zeros(56);
      LastBlock(Zeros(56));
    }

    method LastBlocks(count: nat, ghost tail: seq<Byte>)
      requires input.Length == 64 && count == |tail| < 64 && input[..count] == tail
      modifies this`buf, input
      ensures buf == FinalHash(transform, old(buf), tail, Length(low, high))
      ensures input[56..] == Length(low, high)
    {
      if 64 - 1 - count < 8 {
        TwoBlocks(count, tail);
      } else {
        OneBlock(count, tail);
      }
    }
  }

  lemma HashHalf(h: Hash)
    ensures HashBytes(h)[8..] == WordBytes(h.c) + WordBytes(h.d)
  {
  }

  /** The end of a message with the one bit and zeros. */
  function Ended(tail: seq<Byte>, upto: nat): (b: seq<Byte>)
    requires |tail| < upto
    ensures |b| == upto
  {
    tail + [0x80] + Zeros(upto - 1 - |tail|)
  }

  /** The state after one or two last blocks. */
  function FinalHash(f: BlockFunction, h: Hash, tail: seq<Byte>, length: seq<Byte>): Hash
    requires |tail| < 64 && |length| == 8
  {
    if |tail| < 56 then f(h, Words(Ended(tail, 56) + length))
    else f(f(h, Words(Ended(tail, 64))), Words(Zeros(56) + length))
  }

  /** One or two blocks remain when the padding is added. */
  lemma FoldPadding(f: BlockFunction, h: Hash, m: seq<Byte>)
    requires h == Fold(f, INITIAL, m)
    ensures Fold(f, INITIAL, m + Padding(|m|)) == FinalHash(f, h, Tail(m), Length(LowBits(|m|), HighBits(|m|)))
  {
    FoldOn(f, INITIAL, m, Padding(|m|));
    if |Tail(m)| < 56 {
      FoldShort(f, h, Tail(m), |m|);
    } else {
      FoldLong(f, h, Tail(m), |m|);
    }
  }

  lemma FoldShort(f: BlockFunction, h: Hash, tail: seq<Byte>, n: nat)
    requires |tail| == n % 64 < 56
    ensures Fold(f, h, tail + Padding(n)) == FinalHash(f, h, tail, Length(LowBits(n), HighBits(n)))
  {
    ShortPadding(tail, n);
    FoldOnce(f, h, Ended(tail, 56) + Length(LowBits(n), HighBits(n)));
  }

  lemma FoldLong(f: BlockFunction, h: Hash, tail: seq<Byte>, n: nat)
    requires |tail| == n % 64 >= 56
    ensures Fold(f, h, tail + Padding(n)) == FinalHash(f, h, tail, Length(LowBits(n), HighBits(n)))
  {
    var last := Zeros(56) + Length(LowBits(n), HighBits(n));
    LongPadding(tail, n);
    FoldOne(f, h, Ended(tail, 64), last);
    FoldOnce(f, f(h, Words(Ended(tail, 64))), last);
  }

  lemma FoldOnce(f: BlockFunction, h: Hash, block: seq<Byte>)
    requires |block| == 64
    ensures Fold(f, h, block) == f(h, Words(block))
  {
    assert block[..64] == block;
  }

  lemma ShortPadding(tail: seq<Byte>, n: nat)
    requires |tail| == n % 64 < 56
    ensures tail + Padding(n) == Ended(tail, 56) + Length(LowBits(n), HighBits(n))
  {
    RegroupFour(tail, [0x80], Zeros(ZeroCount(n)), Length(LowBits(n), HighBits(n)));
  }

  lemma LongPadding(tail: seq<Byte>, n: nat)
    requires |tail| == n % 64 >= 56
    ensures tail + Padding(n) == Ended(tail, 64) + (Zeros(56) + Length(LowBits(n), HighBits(n)))
  {
    var length := Length(LowBits(n), HighBits(n));
    assert Zeros(ZeroCount(n)) == Zeros(63 - |tail|) + Zeros(56);
    RegroupFour(tail, [0x80], Zeros(63 - |tail|) + Zeros(56), length);
    RegroupFour(tail + [0x80], Zeros(63 - |tail|), Zeros(56), length);
  }

  // ----- digests of several strings -----

  function Hex(p: seq<Byte>): string {
    if p == [] then "" else [HexDigit(p[0] / 16), HexDigit(p[0] % 16)] + Hex(p[1..])
  }

  function HexDigit(d: nat): char
    requires d < 16
  {
    "0123456789abcdef"[d]
  }

  /** The digits of each byte, the higher one first, by their ASCII codes. */
  lemma {:induction false} HexAt(p: seq<Byte>, i: nat)
    requires i < |p|
    ensures |Hex(p)| == 2 * |p|
    ensures var high, low := p[i] / 16, p[i] % 16;
      && Hex(p)[2 * i] as int == (if high < 10 then 48 + high else 87 + high)
      && Hex(p)[2 * i + 1] as int == (if low < 10 then 48 + low else 87 + low)
  {
    HexCode(p[i] / 16);
    HexCode(p[i] % 16);
    if i > 0 {
      HexAt(p[1..], i - 1);
    } else if |p| > 1 {
      HexAt(p[1..], 0);
    }
  }

  lemma HexCode(d: nat)
    requires d < 16
    ensures HexDigit(d) as int == if d < 10 then 48 + d else 87 + d
  {
    var codes := "0123456789abcdef";
    assert codes[0] == '0' && codes[9] == '9' && codes[10] == 'a' && codes[15] == 'f';
  }

  method BinToStr(p: seq<Byte>) returns (to: string)
    ensures to == Hex(p)
  {
    to := "";
    var rest := p;
    while rest != []
      invariant to + Hex(rest) == Hex(p)
      decreases |rest|
    {
      HexOn(to, rest);
      to := to + [HexDigit(rest[0] / 16), HexDigit(rest[0] % 16)];
      rest := rest[1..];
    }
    assert to + "" == to;
  }

  lemma HexOn(to: string, rest: seq<Byte>)
    requires rest != []
    ensures to + [HexDigit(rest[0] / 16), HexDigit(rest[0] % 16)] + Hex(rest[1..]) == to + Hex(rest)
  {
  }

  function Concat(strings: seq<seq<Byte>>): seq<Byte> {
    if strings == [] then [] else strings[0] + Concat(strings[1..])
  }

  /** The digest of strings one after another is that of their concatenation,
      however the message is split among them. */
  method MgMd5(transform: BlockFunction, strings: seq<seq<Byte>>) returns (out: string)
    requires forall i :: 0 <= i < |strings| ==> |strings[i]| < 0x1_0000_0000
    ensures out == Hex(Digest(transform, Concat(strings)))
  {
    var ctx := new Context(transform);
    assert strings[0..] == strings;
    for i := 0 to |strings|
      invariant ctx.Valid() && ctx.transform == transform && fresh(ctx) && fresh(ctx.input)
      invariant ctx.message + Concat(strings[i..]) == Concat(strings)
    {
      assert strings[i..][1..] == strings[i + 1..];
      assert ctx.message + (strings[i] + Concat(strings[i + 1..]))
        == ctx.message + strings[i] + Concat(strings[i + 1..]);
      ctx.Update(strings[i]);
    }
    assert ctx.message + [] == ctx.message;
    var hash := ctx.Final();
    out := BinToStr(hash);
  }
}
