/** The streaming SHA-224 digest: arrays written in place, fed in pieces of any size. */
module Sha224 {
  import Bytes
  import opened Sha224Spec

  // ---- The code's form of the rounds ----

  /** Four bytes of data as one word. */
  method LoadWord(a: Byte, b: Byte, c: Byte, d: Byte) returns (w: Word)
    ensures w == ToWord(a, b, c, d)
  {
    w := ((a as Word) << 24) | ((b as Word) << 16) | ((c as Word) << 8) | ((d as Word) << 0);
  }

  method RotateSmall0(x: Word) returns (r: Word)
    ensures r == SmallSigma0(x)
  {
    r := x.RotateRight(7) ^ x.RotateRight(18) ^ (x >> 3);
  }

  method RotateSmall1(x: Word) returns (r: Word)
    ensures r == SmallSigma1(x)
  {
    r := x.RotateRight(17) ^ x.RotateRight(19) ^ (x >> 10);
  }

  method RotateBig0(x: Word) returns (r: Word)
    ensures r == BigSigma0(x)
  {
    r := x.RotateRight(2) ^ x.RotateRight(13) ^ x.RotateRight(22);
  }

  method RotateBig1(x: Word) returns (r: Word)
    ensures r == BigSigma1(x)
  {
    r := x.RotateRight(6) ^ x.RotateRight(11) ^ x.RotateRight(25);
  }

  /** The next word of the schedule, from the words 2, 7, 15 and 16 places before. */
  method ExtendWord(v1: Word, w7: Word, v2: Word, w16: Word) returns (w: Word)
    ensures w == Plus(Plus(Plus(SmallSigma1(v1), w7), SmallSigma0(v2)), w16)
  {
    var t1 := RotateSmall1(v1);
    var t2 := RotateSmall0(v2);
    w := Plus(Plus(Plus(t1, w7), t2), w16);
  }

  lemma PlusIsSum(x: Word, y: Word)
    ensures Plus(x, y) == x + y
  {
  }

  lemma SumAssociates(x: Word, y: Word, z: Word)
    ensures (x + y) + z == x + (y + z)
  {
  }

  lemma PlusLeft(x: Word, y: Word, z: Word)
    ensures Plus(Plus(x, y), z) == (x + y) + z
  {
    PlusIsSum(x, y);
    PlusIsSum(x + y, z);
  }

  lemma PlusRight(x: Word, y: Word, z: Word)
    ensures Plus(x, Plus(y, z)) == x + (y + z)
  {
    PlusIsSum(y, z);
    PlusIsSum(x, y + z);
  }

  lemma PlusAssociates(x: Word, y: Word, z: Word)
    ensures Plus(Plus(x, y), z) == Plus(x, Plus(y, z))
  {
    PlusLeft(x, y, z);
    PlusRight(x, y, z);
    SumAssociates(x, y, z);
  }

  lemma PlusCommutes(x: Word, y: Word)
    ensures Plus(x, y) == Plus(y, x)
  {
  }

  /** The code adds the parts of the first temporary in another order than the standard. */
  lemma SumOrder(h: Word, sigma: Word, ch: Word, k: Word, w: Word)
    ensures Plus(sigma, Plus(Plus(Plus(ch, h), k), w)) == Plus(Plus(Plus(Plus(h, sigma), ch), k), w)
  {
    PlusAssociates(sigma, Plus(Plus(ch, h), k), w);
    PlusAssociates(sigma, Plus(ch, h), k);
    PlusAssociates(sigma, ch, h);
    PlusCommutes(Plus(sigma, ch), h);
    PlusAssociates(h, sigma, ch);
  }

  method Choose(x: Word, y: Word, z: Word) returns (r: Word)
    ensures r == Ch(x, y, z)
  {
    r := (x & y) ^ (!x & z);
  }

  method Majority(x: Word, y: Word, z: Word) returns (r: Word)
    ensures r == Maj(x, y, z)
  {
    r := (x & y) ^ (x & z) ^ (y & z);
  }

  method FirstTemporary(v: Hash, k: Word, w: Word) returns (t1: Word)
    ensures t1 == Temporary1(v, k, w)
  {
    var sigma := RotateBig1(v.e);
    var choice := Choose(v.e, v.f, v.g);
    t1 := Plus(sigma, Plus(Plus(Plus(choice, v.h), k), w));
    SumOrder(v.h, sigma, choice, k, w);
  }

  method SecondTemporary(v: Hash) returns (t2: Word)
    ensures t2 == Temporary2(v)
  {
    var sigma := RotateBig0(v.a);
    var majority := Majority(v.a, v.b, v.c);
    t2 := Plus(sigma, majority);
  }

  /** One round on the working variables, shifted along by one. */
  method MixRound(v: Hash, k: Word, w: Word) returns (v': Hash)
    ensures v' == Round(v, k, w)
  {
    var t1 := FirstTemporary(v, k, w);
    var t2 := SecondTemporary(v);
    v' := Hash(Plus(t1, t2), v.a, v.b, v.c, Plus(v.d, t1), v.e, v.f, v.g);
  }

  function HashOf(s: seq<Word>): Hash
    requires |s| == 8
  {
    Hash(s[0], s[1], s[2], s[3], s[4], s[5], s[6], s[7])
  }

  lemma HashOfWords(h: Hash)
    ensures HashOf(Words(h)) == h
  {
  }

  /** The longest prefix of whole blocks. */
  function Whole(n: nat): (w: nat)
    ensures w <= n && w % 64 == 0 && n - w < 64
  {
    n / 64 * 64
  }

  lemma WholeUnique(n: nat, w: nat)
    requires w <= n < w + 64 && w % 64 == 0
    ensures Whole(n) == w
  {
  }

  // ---- Folding a compression function over blocks ----

  type Compression = (Hash, seq<Byte>) -> Hash

  /** The function compresses blocks as the standard does. */
  ghost predicate Compresses(f: Compression) {
    forall h, block {:trigger Compress(h, block)} :: |block| == 64 ==> f(h, block) == Compress(h, block)
  }

  function Fold(f: Compression, h: Hash, blocks: seq<Byte>): Hash
    requires |blocks| % 64 == 0
    decreases |blocks|
  {
    if blocks == [] then h else Fold(f, f(h, blocks[..64]), blocks[64..])
  }

  lemma {:induction false} FoldAppend(f: Compression, h: Hash, x: seq<Byte>, y: seq<Byte>)
    requires |x| % 64 == 0 && |y| % 64 == 0
    ensures Fold(f, h, x + y) == Fold(f, Fold(f, h, x), y)
    decreases |x|
  {
    if x == [] {
      assert x + y == y;
    } else {
      assert (x + y)[..64] == x[..64] && (x + y)[64..] == x[64..] + y;
      FoldAppend(f, f(h, x[..64]), x[64..], y);
    }
  }

  lemma {:induction false} FoldCompresses(f: Compression, h: Hash, blocks: seq<Byte>)
    requires Compresses(f) && |blocks| % 64 == 0
    ensures Fold(f, h, blocks) == CompressAll(h, blocks)
    decreases |blocks|
  {
    if blocks != [] {
      var next := Compress(h, blocks[..64]);
      assert f(h, blocks[..64]) == next;
      FoldCompresses(f, next, blocks[64..]);
    }
  }

  /** A message that ends with a full block has nothing left over. */
  lemma BlockCompleted(f: Compression, m: seq<Byte>, whole: seq<Byte>, block: seq<Byte>)
    requires |whole| % 64 == 0 && |block| == 64 && m == whole + block
    ensures Whole(|m|) == |m| && m[..Whole(|m|)] == m && m[Whole(|m|)..] == []
    ensures Fold(f, INITIAL, m[..Whole(|m|)]) == Fold(f, Fold(f, INITIAL, whole), block)
  {
    WholeUnique(|m|, |m|);
    assert m[..|m|] == m;
    FoldAppend(f, INITIAL, whole, block);
  }

  /** The whole blocks of some data are its first block and the whole blocks of the rest. */
  lemma FirstBlock(p: seq<Byte>)
    requires |p| >= 64
    ensures p[..Whole(|p|)][..64] == p[..64] && p[..Whole(|p|)][64..] == p[64..][..Whole(|p| - 64)]
  {
  }

  class Digest {
    const s: array<Word>
    const x: array<Byte>
    var nx: nat
    var len: nat
    /** Everything written since the last reset. */
    ghost var message: seq<Byte>
    /** The compression function. The buffering does not depend on what it computes. */
    ghost const f: Compression

    /**
     * The chaining words are the compression of the full blocks of m, the buffer starts with what
     * is left over, and nx is its size.
     */
    ghost predicate Absorbed(m: seq<Byte>)
      reads this, s, x
    {
      && s.Length == 8 && x.Length == 64
      && nx == |m| - Whole(|m|)
      && HashOf(s[..]) == Fold(f, INITIAL, m[..Whole(|m|)])
      && x[..nx] == m[Whole(|m|)..]
    }

    ghost predicate Valid()
      reads this, s, x
    {
      Absorbed(message) && len == |message| % BITS64 && Compresses(f)
    }

    constructor ()
      ensures Valid() && message == []
      ensures fresh(s) && fresh(x)
    {
      f := (h, block) => if |block| == 64 then Compress(h, block) else h;
      s := new Word[8](i requires 0 <= i < 8 => Words(INITIAL)[i]);
      x := new Byte[64](i => 0);
      nx := 0;
      len := 0;
      message := [];
      new;
      assert s[..] == Words(INITIAL);
      HashOfWords(INITIAL);
      assert message[..Whole(0)] == [];
    }

    method Reset()
      requires s.Length == 8 && x.Length == 64 && Compresses(f)
      modifies this, s
      ensures Valid() && message == []
    {
      for i := 0 to 8
        invariant forall k :: 0 <= k < i ==> s[k] == Words(INITIAL)[k]
      {
        s[i] := Words(INITIAL)[i];
      }
      nx := 0;
      len := 0;
      message := [];
      assert s[..] == Words(INITIAL);
      HashOfWords(INITIAL);
      assert message[..Whole(0)] == [];
    }

    /** The message schedule of the first block of p. */
    method Expand(p: seq<Byte>) returns (w: array<Word>)
      requires |p| >= 64
      ensures fresh(w) && w.Length == 64
      ensures forall t :: 0 <= t < 64 ==> w[t] == Schedule(p[..64], t)
    {
      ghost var block := p[..64];
      w := new Word[64](i => 0);
      for i := 0 to 16
        invariant forall t :: 0 <= t < i ==> w[t] == Schedule(block, t)
      {
        var j := i * 4;
        var word := LoadWord(p[j], p[j + 1], p[j + 2], p[j + 3]);
        ScheduleStarts(block, i);
        w[i] := word;
      }
      for i := 16 to 64
        invariant forall t :: 0 <= t < i ==> w[t] == Schedule(block, t)
      {
        var word := ExtendWord(w[i - 2], w[i - 7], w[i - 15], w[i - 16]);
        ScheduleExtends(block, i);
        w[i] := word;
      }
    }

    /** The working variables after the sixty-four rounds. */
    method RunRounds(start: Hash, p: seq<Byte>) returns (v: Hash)
      requires |p| >= 64
      ensures v == Rounds(start, p[..64], 64)
    {
      ghost var block := p[..64];
      var w := Expand(p);
      v := start;
      for i := 0 to 64
        invariant forall t :: 0 <= t < 64 ==> w[t] == Schedule(block, t)
        invariant v == Rounds(start, block, i)
      {
        RoundsExtend(start, block, i);
        v := MixRound(v, K[i], w[i]);
      }
    }

    /** One block: the working variables are added to the chaining words. */
    method Mix(p: seq<Byte>)
      requires |p| >= 64 && s.Length == 8
      modifies s
      ensures HashOf(s[..]) == Compress(old(HashOf(s[..])), p[..64])
    {
      var v := RunRounds(Hash(s[0], s[1], s[2], s[3], s[4], s[5], s[6], s[7]), p);
      s[0] := Plus(s[0], v.a);
      s[1] := Plus(s[1], v.b);
      s[2] := Plus(s[2], v.c);
      s[3] := Plus(s[3], v.d);
      s[4] := Plus(s[4], v.e);
      s[5] := Plus(s[5], v.f);
      s[6] := Plus(s[6], v.g);
      s[7] := Plus(s[7], v.h);
    }

    /** All whole blocks of the data; what is left over is ignored. */
    method Block(data: seq<Byte>)
      requires s.Length == 8 && Compresses(f)
      modifies s
      ensures HashOf(s[..]) == Fold(f, old(HashOf(s[..])), data[..Whole(|data|)])
    {
      var p := data;
      ghost var all := data[..Whole(|data|)];
      while |p| >= 64
        invariant Fold(f, old(HashOf(s[..])), all) == Fold(f, HashOf(s[..]), p[..Whole(|p|)])
        decreases |p|
      {
        FirstBlock(p);
        Mix(p);
        p := p[64..];
      }
      assert p[..Whole(|p|)] == [];
    }

    /** Copy the data into the buffer from a position on. */
    method Fill(start: nat, data: seq<Byte>)
      requires start + |data| <= x.Length
      modifies x
      ensures x[..start + |data|] == old(x[..start]) + data
    {
      for i := 0 to |data|
        invariant x[..start + i] == old(x[..start]) + data[..i]
      {
        x[start + i] := data[i];
        assert x[..start + i + 1] == x[..start + i] + [data[i]];
      }
      assert data[..|data|] == data;
    }

    /** First phase of `Write`: fill up a buffer already begun, and compress it when it is full. */
    method TopUp(ghost m: seq<Byte>, data: seq<Byte>) returns (p: seq<Byte>)
      requires Absorbed(m) && Compresses(f) && nx > 0
      modifies this`nx, s, x
      ensures |p| <= |data| && p == data[|data| - |p|..]
      ensures Absorbed(m + data[..|data| - |p|])
      ensures p != [] ==> nx == 0
    {
      var start := nx;
      var n := if |data| < 64 - start then |data| else 64 - start;
      ghost var whole := m[..Whole(|m|)];
      ghost var tail := m[Whole(|m|)..];
      Fill(start, data[..n]);
      nx := nx + n;
      p := data[n..];
      ghost var m' := m + data[..n];
      assert m' == whole + x[..nx];
      if nx == 64 {
        var block := x[..];
        assert x[..64] == block;
        WholeUnique(64, 64);
        assert block[..Whole(64)] == block;
        BlockCompleted(f, m', whole, block);
        Block(block);
        nx := 0;
      } else {
        WholeUnique(|m'|, |whole|);
        assert m'[..|whole|] == whole;
      }
    }

    /** Second phase of `Write`: compress whole blocks straight from the data. */
    method Bulk(ghost m: seq<Byte>, data: seq<Byte>) returns (p: seq<Byte>)
      requires Absorbed(m) && Compresses(f) && nx == 0 && 64 <= |data| < BITS64
      modifies s
      ensures |p| < 64 && p == data[|data| - |p|..]
      ensures Absorbed(m + data[..|data| - |p|])
    {
      var n := Whole(|data| % BITS64);
      Bytes.SmallMod(|data|, BITS64);
      var buf := data[..n];
      assert Whole(n) == n && buf[..Whole(n)] == buf;
      assert Whole(|m|) == |m| && m[..|m|] == m;
      FoldAppend(f, INITIAL, m, buf);
      Block(buf);
      p := data[n..];
      assert (m + buf)[..Whole(|m| + n)] == m + buf;
    }

    /** Third phase of `Write`: keep what is left in the buffer. */
    method Keep(ghost m: seq<Byte>, data: seq<Byte>)
      requires Absorbed(m) && nx == 0 && 0 < |data| < 64
      modifies this`nx, x
      ensures Absorbed(m + data)
    {
      Fill(0, data);
      assert x[..|data|] == data;
      nx := |data|;
      assert Whole(|m + data|) == |m| && (m + data)[..|m|] == m[..Whole(|m|)];
    }

    /**
     * Whatever has been written before, in pieces of any size, the digest afterwards is that of the
     * concatenation.
     */
    method Write(data: seq<Byte>)
      requires Valid() && |data| < BITS64
      modifies this, s, x
      ensures Valid() && message == old(message) + data
    {
      len := (len + |data| % BITS64) % BITS64;
      LengthAdds(|message|, |data|);
      Store(message, data);
      message := message + data;
    }

    /** The phases of `Write`, each as far as the data goes. */
    method Store(ghost m: seq<Byte>, data: seq<Byte>)
      requires Absorbed(m) && Compresses(f) && |data| < BITS64
      modifies this`nx, s, x
      ensures Absorbed(m + data)
    {
      if nx > 0 {
        var p := TopUp(m, data);
        Rejoin(m, data, |data| - |p|);
        StoreWhole(m + data[..|data| - |p|], p);
      } else {
        StoreWhole(m, data);
      }
    }

    method StoreWhole(ghost m: seq<Byte>, data: seq<Byte>)
      requires Absorbed(m) && Compresses(f) && |data| < BITS64 && (data != [] ==> nx == 0)
      modifies this`nx, s, x
      ensures Absorbed(m + data)
    {
      if |data| >= 64 {
        var p := Bulk(m, data);
        Rejoin(m, data, |data| - |p|);
        StoreRest(m + data[..|data| - |p|], p);
      } else {
        StoreRest(m, data);
      }
    }

    method StoreRest(ghost m: seq<Byte>, data: seq<Byte>)
      requires Absorbed(m) && |data| < 64 && (data != [] ==> nx == 0)
      modifies this`nx, x
      ensures Absorbed(m + data)
    {
      if |data| > 0 {
        Keep(m, data);
      } else {
        assert m + data == m;
      }
    }

    /** The padding is written like data: 0x80 and zeros, then the length in bits, big-endian. */
    method WritePadding()
      requires Valid()
      modifies this, s, x
      ensures Valid() && message == old(message) + Padding(old(|message|)) && nx == 0
    {
      ghost var (before, length) := (message, |message|);
      var n := len;
      LengthResidue(length);
      LengthBits(length);
      var zeros := PadBytes(n % 64);
      Write(zeros);
      n := n * 8 % BITS64;
      var bits := LengthBytes(n);
      Write(bits);
      PaddingParts(before, zeros, bits);
    }

    /** The digest of everything written, as section 6.3 of FIPS 180-4 has it for lengths below 2^64 bits. */
    method Sum() returns (hash: seq<Byte>)
      requires Valid()
      modifies this, s, x
      ensures hash == Sha224(old(message))
      ensures Valid() && message == old(message) + Padding(old(|message|)) && nx == 0
    {
      WritePadding();
      WholeUnique(|message|, |message|);
      assert message[..Whole(|message|)] == message;
      FoldCompresses(f, INITIAL, message);
      hash := Output(s[..]);
    }
  }

  /**
   * Two digests that have been written the same bytes are in the same state, however the bytes were
   * split into pieces: the same chaining words, the same leftover, the same counters.
   */
  lemma SameMessageSameState(d: Digest, e: Digest)
    requires d.Valid() && e.Valid() && d.message == e.message
    ensures d.nx == e.nx && d.len == e.len
    ensures d.s[..] == e.s[..] && d.x[..d.nx] == e.x[..e.nx]
  {
    var blocks := d.message[..Whole(|d.message|)];
    FoldCompresses(d.f, INITIAL, blocks);
    FoldCompresses(e.f, INITIAL, blocks);
    WordsOfHash(d.s[..]);
    WordsOfHash(e.s[..]);
  }

  lemma Rejoin(m: seq<Byte>, data: seq<Byte>, k: nat)
    requires k <= |data|
    ensures (m + data[..k]) + data[k..] == m + data
  {
  }

  lemma Rejoin3(m: seq<Byte>, x: seq<Byte>, y: seq<Byte>)
    ensures (m + x) + y == m + (x + y)
  {
  }

  lemma PaddingParts(m: seq<Byte>, zeros: seq<Byte>, bits: seq<Byte>)
    requires zeros == [0x80] + Zeros(ZeroBytes(|m|)) && bits == Length64(8 * |m| % BITS64)
    ensures m + zeros + bits == m + Padding(|m|)
    ensures Whole(|m + zeros + bits|) == |m + zeros + bits|
  {
    Rejoin3(m, zeros, bits);
    assert (|m| + |Padding(|m|)|) % 64 == 0;
    WholeUnique(|m + zeros + bits|, |m + zeros + bits|);
  }

  /** 0x80 and the least zeros, for t bytes in the last block. */
  method PadBytes(t: nat) returns (bytes: seq<Byte>)
    requires t < 64
    ensures |bytes| <= 64
    ensures forall length: nat :: length % 64 == t ==> bytes == [0x80] + Zeros(ZeroBytes(length))
  {
    var m := if 56 > t then 56 - t else 120 - t;
    var buf := new Byte[m](i => 0);
    buf[0] := 0x80;
    bytes := buf[..];
    assert bytes == [0x80] + Zeros(ZeroBytes(t));
  }

  method LengthBytes(n: nat) returns (bytes: seq<Byte>)
    ensures bytes == Length64(n)
  {
    var buf := new Byte[8](i => 0);
    for i := 0 to 8
      invariant forall k :: 0 <= k < i ==> buf[k] == Length64(n)[k]
    {
      buf[i] := (n / Bytes.Pow2(56 - 8 * i) % 256) as Byte;
    }
    bytes := buf[..];
  }

  /** The first seven words, byte by byte. */
  method Output(s: seq<Word>) returns (hash: seq<Byte>)
    requires |s| == 8
    ensures hash == Truncate(HashOf(s))
  {
    var out := new Byte[28](i => 0);
    for i := 0 to 7
      invariant forall n :: 0 <= n < 4 * i ==> out[n] == Truncate(HashOf(s))[n]
    {
      for j := 0 to 4
        invariant forall n :: 0 <= n < 4 * i + j ==> out[n] == Truncate(HashOf(s))[n]
      {
        TruncateAt(HashOf(s), i, j);
        WordsOfHash(s);
        var byte := ByteOf(s[i], j);
        out[4 * i + j] := byte;
      }
    }
    hash := out[..];
  }

  lemma TruncateAt(h: Hash, i: nat, j: nat)
    requires i < 7 && j < 4
    ensures Truncate(h)[4 * i + j] == ByteOf(Words(h)[i], j)
  {
    TruncateIndex(h, 4 * i + j);
    assert (4 * i + j) / 4 == i && (4 * i + j) % 4 == j;
  }

  lemma TruncateIndex(h: Hash, n: nat)
    requires n < 28
    ensures Truncate(h)[n] == ByteOf(Words(h)[n / 4], n % 4)
  {
  }

  lemma WordsOfHash(s: seq<Word>)
    requires |s| == 8
    ensures Words(HashOf(s)) == s
  {
  }

  lemma LengthAdds(a: nat, b: nat)
    ensures (a % BITS64 + b % BITS64) % BITS64 == (a + b) % BITS64
  {
  }

  lemma LengthResidue(length: nat)
    ensures length % BITS64 % 64 == length % 64
  {
  }

  lemma LengthBits(length: nat)
    ensures length % BITS64 * 8 % BITS64 == 8 * length % BITS64
  {
  }

  /** The one-shot function. */
  method Hash224(data: seq<Byte>) returns (hash: seq<Byte>)
    requires |data| < BITS64
    ensures hash == Sha224(data)
  {
    var digest := new Digest();
    digest.Write(data);
    assert digest.message == data;
    hash := digest.Sum();
  }
}
