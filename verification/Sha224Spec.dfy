/** SHA-224 as FIPS 180-4 defines it (sections 3.2, 4.1.2, 4.2.2, 5.1.1, 5.3.2, 6.2.2 and 6.3). */
module Sha224Spec {
  import Bytes

  type Byte = bv8
  type Word = bv32

  const K0: seq<Word> := [
    0x428a2f98, 0x71374491, 0xb5c0fbcf, 0xe9b5dba5, 0x3956c25b, 0x59f111f1, 0x923f82a4, 0xab1c5ed5,
    0xd807aa98, 0x12835b01, 0x243185be, 0x550c7dc3, 0x72be5d74, 0x80deb1fe, 0x9bdc06a7, 0xc19bf174
  ]

  const K1: seq<Word> := [
    0xe49b69c1, 0xefbe4786, 0x0fc19dc6, 0x240ca1cc, 0x2de92c6f, 0x4a7484aa, 0x5cb0a9dc, 0x76f988da,
    0x983e5152, 0xa831c66d, 0xb00327c8, 0xbf597fc7, 0xc6e00bf3, 0xd5a79147, 0x06ca6351, 0x14292967
  ]

  const K2: seq<Word> := [
    0x27b70a85, 0x2e1b2138, 0x4d2c6dfc, 0x53380d13, 0x650a7354, 0x766a0abb, 0x81c2c92e, 0x92722c85,
    0xa2bfe8a1, 0xa81a664b, 0xc24b8b70, 0xc76c51a3, 0xd192e819, 0xd6990624, 0xf40e3585, 0x106aa070
  ]

  const K3: seq<Word> := [
    0x19a4c116, 0x1e376c08, 0x2748774c, 0x34b0bcb5, 0x391c0cb3, 0x4ed8aa4a, 0x5b9cca4f, 0x682e6ff3,
    0x748f82ee, 0x78a5636f, 0x84c87814, 0x8cc70208, 0x90befffa, 0xa4506ceb, 0xbef9a3f7, 0xc67178f2
  ]

  /** The constants of section 4.2.2, in four rows. */
  const K: seq<Word> := K0 + K1 + K2 + K3

  datatype Hash = Hash(a: Word, b: Word, c: Word, d: Word, e: Word, f: Word, g: Word, h: Word)

  const INITIAL := Hash(0xc1059ed8, 0x367cd507, 0x3070dd17, 0xf70e5939, 0xffc00b31, 0x68581511, 0x64f98fa7, 0xbefa4fa4)

  // ---- Functions on words (sections 3.2 and 4.1.2) ----

  /** Addition modulo 2^32. */
  function Plus(x: Word, y: Word): Word { x + y }

  function Ch(x: Word, y: Word, z: Word): Word { (x & y) ^ (!x & z) }

  function Maj(x: Word, y: Word, z: Word): Word { (x & y) ^ (x & z) ^ (y & z) }

  // The rotation of x to the right by n is (x >> n) | (x << 32 - n).

  function BigSigma0(x: Word): Word {
    ((x >> 2) | (x << 30)) ^ ((x >> 13) | (x << 19)) ^ ((x >> 22) | (x << 10))
  }

  function BigSigma1(x: Word): Word {
    ((x >> 6) | (x << 26)) ^ ((x >> 11) | (x << 21)) ^ ((x >> 25) | (x << 7))
  }

  function SmallSigma0(x: Word): Word {
    ((x >> 7) | (x << 25)) ^ ((x >> 18) | (x << 14)) ^ (x >> 3)
  }

  function SmallSigma1(x: Word): Word {
    ((x >> 17) | (x << 15)) ^ ((x >> 19) | (x << 13)) ^ (x >> 10)
  }

  // ---- One block (section 6.2.2) ----

  function ToWord(a: Byte, b: Byte, c: Byte, d: Byte): Word {
    ((a as Word) << 24) | ((b as Word) << 16) | ((c as Word) << 8) | (d as Word)
  }

  /** Word t of the message schedule. */
  function Schedule(block: seq<Byte>, t: nat): Word
    requires |block| == 64 && t < 64
  {
    if t < 16 then ToWord(block[4 * t], block[4 * t + 1], block[4 * t + 2], block[4 * t + 3])
    else Plus(Plus(Plus(SmallSigma1(Schedule(block, t - 2)), Schedule(block, t - 7)),
                   SmallSigma0(Schedule(block, t - 15))), Schedule(block, t - 16))
  }

  lemma ScheduleStarts(block: seq<Byte>, t: nat)
    requires |block| == 64 && t < 16
    ensures Schedule(block, t) == ToWord(block[4 * t], block[4 * t + 1], block[4 * t + 2], block[4 * t + 3])
  {
  }

  lemma ScheduleExtends(block: seq<Byte>, t: nat)
    requires |block| == 64 && 16 <= t < 64
    ensures Schedule(block, t) == Plus(Plus(Plus(SmallSigma1(Schedule(block, t - 2)), Schedule(block, t - 7)),
                                            SmallSigma0(Schedule(block, t - 15))), Schedule(block, t - 16))
  {
  }

  function Temporary1(v: Hash, k: Word, w: Word): Word {
    Plus(Plus(Plus(Plus(v.h, BigSigma1(v.e)), Ch(v.e, v.f, v.g)), k), w)
  }

  function Temporary2(v: Hash): Word {
    Plus(BigSigma0(v.a), Maj(v.a, v.b, v.c))
  }

  function Round(v: Hash, k: Word, w: Word): Hash {
    var (t1, t2) := (Temporary1(v, k, w), Temporary2(v));
    Hash(Plus(t1, t2), v.a, v.b, v.c, Plus(v.d, t1), v.e, v.f, v.g)
  }

  /** The working variables after t rounds. */
  function Rounds(v: Hash, block: seq<Byte>, t: nat): Hash
    requires |block| == 64 && t <= 64
  {
    if t == 0 then v else Round(Rounds(v, block, t - 1), K[t - 1], Schedule(block, t - 1))
  }

  lemma RoundsExtend(v: Hash, block: seq<Byte>, t: nat)
    requires |block| == 64 && t < 64
    ensures Rounds(v, block, t + 1) == Round(Rounds(v, block, t), K[t], Schedule(block, t))
  {
  }

  function Add(x: Hash, y: Hash): Hash {
    Hash(Plus(x.a, y.a), Plus(x.b, y.b), Plus(x.c, y.c), Plus(x.d, y.d),
         Plus(x.e, y.e), Plus(x.f, y.f), Plus(x.g, y.g), Plus(x.h, y.h))
  }

  function Compress(h: Hash, block: seq<Byte>): Hash
    requires |block| == 64
  {
    Add(h, Rounds(h, block, 64))
  }

  /** The hash value after all blocks of a message. */
  function CompressAll(h: Hash, blocks: seq<Byte>): Hash
    requires |blocks| % 64 == 0
    decreases |blocks|
  {
    if blocks == [] then h else CompressAll(Compress(h, blocks[..64]), blocks[64..])
  }

  // ---- Padding (section 5.1.1) and output (section 6.3) ----

  const BITS64 := 0x1_0000_0000_0000_0000

  /** How many zero bytes follow the byte that holds the 1 bit. */
  function ZeroBytes(length: nat): (z: nat)
    ensures (length + (1 + z + 8)) % 64 == 0
  {
    var z := if length % 64 < 56 then 55 - length % 64 else 119 - length % 64;
    FillsBlocks(length, z);
    z
  }

  lemma FillsBlocks(length: nat, z: nat)
    requires length % 64 + z == 55 || length % 64 + z == 119
    ensures (length + (1 + z + 8)) % 64 == 0
  {
    var q := length / 64;
    assert length + (1 + z + 8) == 64 * (q + 1) || length + (1 + z + 8) == 64 * (q + 2);
  }

  function Zeros(n: nat): (z: seq<Byte>)
    ensures |z| == n
    ensures forall i :: 0 <= i < n ==> z[i] == 0
  {
    if n == 0 then [] else Zeros(n - 1) + [0]
  }

  /** The 64-bit big-endian form of a number. */
  function Length64(n: nat): (bytes: seq<Byte>)
    ensures |bytes| == 8
  {
    seq(8, i requires 0 <= i < 8 => (n / Bytes.Pow2(56 - 8 * i) % 256) as Byte)
  }

  function Padding(length: nat): (p: seq<Byte>)
    ensures (length + |p|) % 64 == 0
  {
    var z := ZeroBytes(length);
    var p := [0x80] + Zeros(z) + Length64(8 * length % BITS64);
    assert |p| == 1 + z + 8;
    p
  }

  /** Byte j of a word, the most significant first. */
  function ByteOf(w: Word, j: nat): Byte
    requires j < 4
  {
    if j == 0 then ((w >> 24) & 0xff) as Byte
    else if j == 1 then ((w >> 16) & 0xff) as Byte
    else if j == 2 then ((w >> 8) & 0xff) as Byte
    else (w & 0xff) as Byte
  }

  function Words(h: Hash): (words: seq<Word>)
    ensures |words| == 8
  {
    [h.a, h.b, h.c, h.d, h.e, h.f, h.g, h.h]
  }

  /** The first seven words, as 28 bytes. */
  function Truncate(h: Hash): (bytes: seq<Byte>)
    ensures |bytes| == 28
  {
    seq(28, n requires 0 <= n < 28 => ByteOf(Words(h)[n / 4], n % 4))
  }

  function Sha224(message: seq<Byte>): (digest: seq<Byte>)
    ensures |digest| == 28
  {
    Truncate(CompressAll(INITIAL, message + Padding(|message|)))
  }

  function Naturals(bytes: seq<Byte>): seq<Bytes.byte> {
    seq(|bytes|, i requires 0 <= i < |bytes| => bytes[i] as int)
  }

  lemma NextByte(b: Byte)
    requires b < 255
    ensures (b + 1) as int == b as int + 1
  {
  }

  lemma SmallByte(b: Byte)
    requires b as int < 255
    ensures b < 255
  {
  }

  lemma {:induction false} ByteOfInt(x: nat) returns (b: Byte)
    requires x < 256
    ensures b as int == x
  {
    b := 0;
    if x > 0 {
      var c := ByteOfInt(x - 1);
      SmallByte(c);
      NextByte(c);
      b := c + 1;
    }
  }

  lemma ByteThroughInt(b: Byte)
    ensures (b as int) as Byte == b
  {
  }

  lemma ByteAsInt(x: nat)
    requires x < 256
    ensures (x as Byte) as int == x
  {
    var b := ByteOfInt(x);
    ByteThroughInt(b);
  }

  lemma EightBytes()
    ensures Bytes.Pow256(8) == BITS64
  {
    assert Bytes.Pow256(4) == 0x1_0000_0000;
  }

  /** Byte i of the length field is digit i of the big-endian form. */
  lemma Length64Digit(n: nat, i: nat)
    requires i < 8
    ensures Length64(n)[i] as int == Bytes.BigEndian(n, 8)[i]
  {
    var digit := n / Bytes.Pow2(56 - 8 * i) % 256;
    assert Bytes.BigEndian(n, 8)[i] == digit by {
      Bytes.BigEndianAt(n, 8, i);
      Bytes.Pow2IsPow256(7 - i);
    }
    ByteAsInt(digit);
  }

  /** The length field is the big-endian form of the number, so it says the number back. */
  lemma Length64Reads(n: nat)
    requires n < BITS64
    ensures Bytes.ToNat(Naturals(Length64(n))) == n
  {
    var (bytes, digits) := (Naturals(Length64(n)), Bytes.BigEndian(n, 8));
    assert bytes == digits by {
      forall i | 0 <= i < 8
        ensures bytes[i] == digits[i]
      {
        Length64Digit(n, i);
      }
    }
    Bytes.ToNatBigEndian(n, 8);
    EightBytes();
    Bytes.SmallMod(n, BITS64);
  }

  /** The bits l, the 1 bit and k zero bits leave just room for the length in the last block. */
  predicate Aligned(l: nat, k: nat) {
    (l + 1 + k) % 512 == 448
  }

  lemma DropMultiple(a: nat, q: nat)
    ensures (512 * q + a) % 512 == a % 512
  {
  }

  /** The zero bits of the padding are as few as alignment allows. */
  lemma FewestZeros(length: nat, k: nat)
    requires Aligned(8 * length, k)
    ensures k >= 7 + 8 * ZeroBytes(length)
  {
    var (q, r) := (length / 64, length % 64);
    var a := 8 * r + 1 + k;
    assert 8 * length + 1 + k == 512 * q + a;
    DropMultiple(a, q);
    assert a % 512 == 448;
    var d := a / 512;
    assert a == 512 * d + 448 && d >= 0;
  }

  lemma ZerosAlign(length: nat)
    ensures Aligned(8 * length, 7 + 8 * ZeroBytes(length))
  {
    var (q, r) := (length / 64, length % 64);
    assert 8 * length == 512 * q + 8 * r;
  }

  /**
   * For a message of length l bits below 2^64: a 1 bit, then k zero bits with k the least that makes
   * l + 1 + k congruent to 448 modulo 512, then l itself as a 64-bit big-endian number.
   */
  lemma PaddingIsFips(length: nat, l: nat, k: nat)
    requires l == 8 * length < BITS64 && k == 7 + 8 * ZeroBytes(length)
    ensures Aligned(l, k) && forall fewer: nat :: Aligned(l, fewer) ==> k <= fewer
    ensures Padding(length) == [0x80] + Zeros(ZeroBytes(length)) + Length64(l)
    ensures |Padding(length)| * 8 == 1 + k + 64
    ensures Bytes.ToNat(Naturals(Length64(l))) == l
  {
    Bytes.SmallMod(l, BITS64);
    Length64Reads(l);
    ZerosAlign(length);
    forall fewer: nat | Aligned(l, fewer)
      ensures k <= fewer
    {
      FewestZeros(length, fewer);
    }
  }
}
