/** CRC-32: the table-driven loop, and the bit-at-a-time checksum it stands for. */
module Crc32 {

  type Byte = bv8
  type Word = bv32

  const SEED: Word := 0xffffffff

  // ---- One bit at a time ----

  /**
   * Shift one bit out of the register, and subtract the polynomial when it was a one:
   * 0xedb88320 is the reflected polynomial of section 8 of RFC 1952.
   */
  function OneBit(r: Word): Word {
    if r & 1 == 1 then (r >> 1) ^ 0xedb88320 else r >> 1
  }

  function EightBits(r: Word): Word {
    OneBit(OneBit(OneBit(OneBit(OneBit(OneBit(OneBit(OneBit(r))))))))
  }

  /** A byte is added to the low end of the register. */
  function Mix(crc: Word, b: Byte): Word {
    crc ^ (b as Word)
  }

  /** The register after all bytes: each is added to the low end, and then shifted out bit by bit. */
  function Register(start: Word, data: seq<Byte>): Word {
    if data == [] then start
    else EightBits(Mix(Register(start, data[..|data| - 1]), data[|data| - 1]))
  }

  function Crc(data: seq<Byte>): Word {
    Register(SEED, data) ^ SEED
  }

  // ---- The table ----

  const ROW0: seq<Word> := [
    0x00000000, 0x77073096, 0xee0e612c, 0x990951ba, 0x076dc419, 0x706af48f, 0xe963a535, 0x9e6495a3,
    0x0edb8832, 0x79dcb8a4, 0xe0d5e91e, 0x97d2d988, 0x09b64c2b, 0x7eb17cbd, 0xe7b82d07, 0x90bf1d91
  ]

  const ROW1: seq<Word> := [
    0x1db71064, 0x6ab020f2, 0xf3b97148, 0x84be41de, 0x1adad47d, 0x6ddde4eb, 0xf4d4b551, 0x83d385c7,
    0x136c9856, 0x646ba8c0, 0xfd62f97a, 0x8a65c9ec, 0x14015c4f, 0x63066cd9, 0xfa0f3d63, 0x8d080df5
  ]

  const ROW2: seq<Word> := [
    0x3b6e20c8, 0x4c69105e, 0xd56041e4, 0xa2677172, 0x3c03e4d1, 0x4b04d447, 0xd20d85fd, 0xa50ab56b,
    0x35b5a8fa, 0x42b2986c, 0xdbbbc9d6, 0xacbcf940, 0x32d86ce3, 0x45df5c75, 0xdcd60dcf, 0xabd13d59
  ]

  const ROW3: seq<Word> := [
    0x26d930ac, 0x51de003a, 0xc8d75180, 0xbfd06116, 0x21b4f4b5, 0x56b3c423, 0xcfba9599, 0xb8bda50f,
    0x2802b89e, 0x5f058808, 0xc60cd9b2, 0xb10be924, 0x2f6f7c87, 0x58684c11, 0xc1611dab, 0xb6662d3d
  ]

  const ROW4: seq<Word> := [
    0x76dc4190, 0x01db7106, 0x98d220bc, 0xefd5102a, 0x71b18589, 0x06b6b51f, 0x9fbfe4a5, 0xe8b8d433,
    0x7807c9a2, 0x0f00f934, 0x9609a88e, 0xe10e9818, 0x7f6a0dbb, 0x086d3d2d, 0x91646c97, 0xe6635c01
  ]

  const ROW5: seq<Word> := [
    0x6b6b51f4, 0x1c6c6162, 0x856530d8, 0xf262004e, 0x6c0695ed, 0x1b01a57b, 0x8208f4c1, 0xf50fc457,
    0x65b0d9c6, 0x12b7e950, 0x8bbeb8ea, 0xfcb9887c, 0x62dd1ddf, 0x15da2d49, 0x8cd37cf3, 0xfbd44c65
  ]

  const ROW6: seq<Word> := [
    0x4db26158, 0x3ab551ce, 0xa3bc0074, 0xd4bb30e2, 0x4adfa541, 0x3dd895d7, 0xa4d1c46d, 0xd3d6f4fb,
    0x4369e96a, 0x346ed9fc, 0xad678846, 0xda60b8d0, 0x44042d73, 0x33031de5, 0xaa0a4c5f, 0xdd0d7cc9
  ]

  const ROW7: seq<Word> := [
    0x5005713c, 0x270241aa, 0xbe0b1010, 0xc90c2086, 0x5768b525, 0x206f85b3, 0xb966d409, 0xce61e49f,
    0x5edef90e, 0x29d9c998, 0xb0d09822, 0xc7d7a8b4, 0x59b33d17, 0x2eb40d81, 0xb7bd5c3b, 0xc0ba6cad
  ]

  const ROW8: seq<Word> := [
    0xedb88320, 0x9abfb3b6, 0x03b6e20c, 0x74b1d29a, 0xead54739, 0x9dd277af, 0x04db2615, 0x73dc1683,
    0xe3630b12, 0x94643b84, 0x0d6d6a3e, 0x7a6a5aa8, 0xe40ecf0b, 0x9309ff9d, 0x0a00ae27, 0x7d079eb1
  ]

  const ROW9: seq<Word> := [
    0xf00f9344, 0x8708a3d2, 0x1e01f268, 0x6906c2fe, 0xf762575d, 0x806567cb, 0x196c3671, 0x6e6b06e7,
    0xfed41b76, 0x89d32be0, 0x10da7a5a, 0x67dd4acc, 0xf9b9df6f, 0x8ebeeff9, 0x17b7be43, 0x60b08ed5
  ]

  const ROWA: seq<Word> := [
    0xd6d6a3e8, 0xa1d1937e, 0x38d8c2c4, 0x4fdff252, 0xd1bb67f1, 0xa6bc5767, 0x3fb506dd, 0x48b2364b,
    0xd80d2bda, 0xaf0a1b4c, 0x36034af6, 0x41047a60, 0xdf60efc3, 0xa867df55, 0x316e8eef, 0x4669be79
  ]

  const ROWB: seq<Word> := [
    0xcb61b38c, 0xbc66831a, 0x256fd2a0, 0x5268e236, 0xcc0c7795, 0xbb0b4703, 0x220216b9, 0x5505262f,
    0xc5ba3bbe, 0xb2bd0b28, 0x2bb45a92, 0x5cb36a04, 0xc2d7ffa7, 0xb5d0cf31, 0x2cd99e8b, 0x5bdeae1d
  ]

  const ROWC: seq<Word> := [
    0x9b64c2b0, 0xec63f226, 0x756aa39c, 0x026d930a, 0x9c0906a9, 0xeb0e363f, 0x72076785, 0x05005713,
    0x95bf4a82, 0xe2b87a14, 0x7bb12bae, 0x0cb61b38, 0x92d28e9b, 0xe5d5be0d, 0x7cdcefb7, 0x0bdbdf21
  ]

  const ROWD: seq<Word> := [
    0x86d3d2d4, 0xf1d4e242, 0x68ddb3f8, 0x1fda836e, 0x81be16cd, 0xf6b9265b, 0x6fb077e1, 0x18b74777,
    0x88085ae6, 0xff0f6a70, 0x66063bca, 0x11010b5c, 0x8f659eff, 0xf862ae69, 0x616bffd3, 0x166ccf45
  ]

  const ROWE: seq<Word> := [
    0xa00ae278, 0xd70dd2ee, 0x4e048354, 0x3903b3c2, 0xa7672661, 0xd06016f7, 0x4969474d, 0x3e6e77db,
    0xaed16a4a, 0xd9d65adc, 0x40df0b66, 0x37d83bf0, 0xa9bcae53, 0xdebb9ec5, 0x47b2cf7f, 0x30b5ffe9
  ]

  const ROWF: seq<Word> := [
    0xbdbdf21c, 0xcabac28a, 0x53b39330, 0x24b4a3a6, 0xbad03605, 0xcdd70693, 0x54de5729, 0x23d967bf,
    0xb3667a2e, 0xc4614ab8, 0x5d681b02, 0x2a6f2b94, 0xb40bbe37, 0xc30c8ea1, 0x5a05df1b, 0x2d02ef8d
  ]

  /** The table of the program, written in rows of sixteen. */
  const ROWS: seq<seq<Word>> := [
    ROW0, ROW1, ROW2, ROW3, ROW4, ROW5, ROW6, ROW7, ROW8, ROW9, ROWA, ROWB, ROWC, ROWD, ROWE, ROWF
  ]

  function Join(rows: seq<seq<Word>>): seq<Word> {
    if rows == [] then [] else Join(rows[..|rows| - 1]) + rows[|rows| - 1]
  }

  const TABLE: seq<Word> := Join(ROWS)

  lemma {:induction false} JoinAt(rows: seq<seq<Word>>, n: nat)
    requires forall row :: row in rows ==> |row| == 16
    requires n < 16 * |rows|
    ensures |Join(rows)| == 16 * |rows|
    ensures Join(rows)[n] == rows[n / 16][n % 16]
  {
    var last := |rows| - 1;
    if last > 0 {
      JoinAt(rows[..last], if n < 16 * last then n else 0);
    }
  }

  /** A function on words, taken as given in the proofs that do not depend on what it computes. */
  type Step = Word -> Word

  ghost predicate IsOneBit(g: Step) {
    forall r {:trigger OneBit(r)} :: g(r) == OneBit(r)
  }

  ghost predicate IsEightBits(f: Step) {
    forall r {:trigger EightBits(r)} :: f(r) == EightBits(r)
  }

  lemma GivenOneBit() returns (g: Step)
    ensures IsOneBit(g)
  {
    g := r => OneBit(r);
  }

  function Value(x: Word): nat {
    x as int
  }

  ghost predicate IsValue(v: Word -> nat) {
    forall x {:trigger Value(x)} :: v(x) == Value(x)
  }

  lemma GivenValue() returns (v: Word -> nat)
    ensures IsValue(v)
  {
    v := x => Value(x);
  }

  lemma GivenEightBits() returns (f: Step)
    ensures IsEightBits(f)
  {
    f := r => EightBits(r);
  }

  ghost predicate RowAgrees(f: Step, v: Word -> nat, row: seq<Word>, start: nat) {
    && |row| == 16
    && forall x {:trigger v(x)} :: start <= v(x) < start + 16 ==> row[v(x) - start] == f(x)
  }

  lemma Row0(f: Step, v: Word -> nat)
    requires IsEightBits(f) && IsValue(v)
    ensures RowAgrees(f, v, ROW0, 0)
  {
    forall x {:trigger v(x)} | 0 <= v(x) < 16
      ensures ROW0[v(x) - 0] == f(x)
    {
      var (i, r) := (Value(x), EightBits(x));
    }
  }

  lemma Row1(f: Step, v: Word -> nat)
    requires IsEightBits(f) && IsValue(v)
    ensures RowAgrees(f, v, ROW1, 16)
  {
    forall x {:trigger v(x)} | 16 <= v(x) < 32
      ensures ROW1[v(x) - 16] == f(x)
    {
      var (i, r) := (Value(x), EightBits(x));
    }
  }

  lemma Row2(f: Step, v: Word -> nat)
    requires IsEightBits(f) && IsValue(v)
    ensures RowAgrees(f, v, ROW2, 32)
  {
    forall x {:trigger v(x)} | 32 <= v(x) < 48
      ensures ROW2[v(x) - 32] == f(x)
    {
      var (i, r) := (Value(x), EightBits(x));
    }
  }

  lemma Row3(f: Step, v: Word -> nat)
    requires IsEightBits(f) && IsValue(v)
    ensures RowAgrees(f, v, ROW3, 48)
  {
    forall x {:trigger v(x)} | 48 <= v(x) < 64
      ensures ROW3[v(x) - 48] == f(x)
    {
      var (i, r) := (Value(x), EightBits(x));
    }
  }

  lemma Row4(f: Step, v: Word -> nat)
    requires IsEightBits(f) && IsValue(v)
    ensures RowAgrees(f, v, ROW4, 64)
  {
    forall x {:trigger v(x)} | 64 <= v(x) < 80
      ensures ROW4[v(x) - 64] == f(x)
    {
      var (i, r) := (Value(x), EightBits(x));
    }
  }

  lemma Row5(f: Step, v: Word -> nat)
    requires IsEightBits(f) && IsValue(v)
    ensures RowAgrees(f, v, ROW5, 80)
  {
    forall x {:trigger v(x)} | 80 <= v(x) < 96
      ensures ROW5[v(x) - 80] == f(x)
    {
      var (i, r) := (Value(x), EightBits(x));
    }
  }

  lemma Row6(f: Step, v: Word -> nat)
    requires IsEightBits(f) && IsValue(v)
    ensures RowAgrees(f, v, ROW6, 96)
  {
    forall x {:trigger v(x)} | 96 <= v(x) < 112
      ensures ROW6[v(x) - 96] == f(x)
    {
      var (i, r) := (Value(x), EightBits(x));
    }
  }

  lemma Row7(f: Step, v: Word -> nat)
    requires IsEightBits(f) && IsValue(v)
    ensures RowAgrees(f, v, ROW7, 112)
  {
    forall x {:trigger v(x)} | 112 <= v(x) < 128
      ensures ROW7[v(x) - 112] == f(x)
    {
      var (i, r) := (Value(x), EightBits(x));
    }
  }

  lemma Row8(f: Step, v: Word -> nat)
    requires IsEightBits(f) && IsValue(v)
    ensures RowAgrees(f, v, ROW8, 128)
  {
    forall x {:trigger v(x)} | 128 <= v(x) < 144
      ensures ROW8[v(x) - 128] == f(x)
    {
      var (i, r) := (Value(x), EightBits(x));
    }
  }

  lemma Row9(f: Step, v: Word -> nat)
    requires IsEightBits(f) && IsValue(v)
    ensures RowAgrees(f, v, ROW9, 144)
  {
    forall x {:trigger v(x)} | 144 <= v(x) < 160
      ensures ROW9[v(x) - 144] == f(x)
    {
      var (i, r) := (Value(x), EightBits(x));
    }
  }

  lemma RowA(f: Step, v: Word -> nat)
    requires IsEightBits(f) && IsValue(v)
    ensures RowAgrees(f, v, ROWA, 160)
  {
    forall x {:trigger v(x)} | 160 <= v(x) < 176
      ensures ROWA[v(x) - 160] == f(x)
    {
      var (i, r) := (Value(x), EightBits(x));
    }
  }

  lemma RowB(f: Step, v: Word -> nat)
    requires IsEightBits(f) && IsValue(v)
    ensures RowAgrees(f, v, ROWB, 176)
  {
    forall x {:trigger v(x)} | 176 <= v(x) < 192
      ensures ROWB[v(x) - 176] == f(x)
    {
      var (i, r) := (Value(x), EightBits(x));
    }
  }

  lemma RowC(f: Step, v: Word -> nat)
    requires IsEightBits(f) && IsValue(v)
    ensures RowAgrees(f, v, ROWC, 192)
  {
    forall x {:trigger v(x)} | 192 <= v(x) < 208
      ensures ROWC[v(x) - 192] == f(x)
    {
      var (i, r) := (Value(x), EightBits(x));
    }
  }

  lemma RowD(f: Step, v: Word -> nat)
    requires IsEightBits(f) && IsValue(v)
    ensures RowAgrees(f, v, ROWD, 208)
  {
    forall x {:trigger v(x)} | 208 <= v(x) < 224
      ensures ROWD[v(x) - 208] == f(x)
    {
      var (i, r) := (Value(x), EightBits(x));
    }
  }

  lemma RowE(f: Step, v: Word -> nat)
    requires IsEightBits(f) && IsValue(v)
    ensures RowAgrees(f, v, ROWE, 224)
  {
    forall x {:trigger v(x)} | 224 <= v(x) < 240
      ensures ROWE[v(x) - 224] == f(x)
    {
      var (i, r) := (Value(x), EightBits(x));
    }
  }

  lemma RowF(f: Step, v: Word -> nat)
    requires IsEightBits(f) && IsValue(v)
    ensures RowAgrees(f, v, ROWF, 240)
  {
    forall x {:trigger v(x)} | 240 <= v(x) < 256
      ensures ROWF[v(x) - 240] == f(x)
    {
      var (i, r) := (Value(x), EightBits(x));
    }
  }

  lemma RowsAgree(f: Step, v: Word -> nat)
    requires IsEightBits(f) && IsValue(v)
    ensures |ROWS| == 16 && forall k :: 0 <= k < 16 ==> RowAgrees(f, v, ROWS[k], 16 * k)
  {
    Row0(f, v);
    Row1(f, v);
    Row2(f, v);
    Row3(f, v);
    Row4(f, v);
    Row5(f, v);
    Row6(f, v);
    Row7(f, v);
    Row8(f, v);
    Row9(f, v);
    RowA(f, v);
    RowB(f, v);
    RowC(f, v);
    RowD(f, v);
    RowE(f, v);
    RowF(f, v);
  }

  lemma EntryOf(f: Step, v: Word -> nat, rows: seq<seq<Word>>, x: Word)
    requires |rows| == 16 && (forall k :: 0 <= k < 16 ==> RowAgrees(f, v, rows[k], 16 * k)) && v(x) < 256
    ensures |Join(rows)| == 256 && Join(rows)[v(x)] == f(x)
  {
    var k := v(x) / 16;
    assert RowAgrees(f, v, rows[k], 16 * k);
    assert forall row :: row in rows ==> |row| == 16;
    JoinAt(rows, v(x));
  }

  /** Every entry of the table is what eight single-bit steps make of its index. */
  lemma TableEntry(f: Step, v: Word -> nat, x: Word)
    requires IsEightBits(f) && IsValue(v) && v(x) < 256
    ensures |TABLE| == 256 && TABLE[v(x)] == f(x)
  {
    RowsAgree(f, v);
    EntryOf(f, v, ROWS, x);
  }

  // ---- One table step is eight bit steps ----

  lemma OddBit(r: Word)
    requires r & 1 == 1
    ensures OneBit(r) == (r >> 1) ^ 0xedb88320
  {
  }

  lemma EvenBit(r: Word)
    requires r & 1 == 0
    ensures OneBit(r) == r >> 1
  {
  }

  lemma LowBit(a: Word, h: Word)
    ensures a & 1 == 0 || a & 1 == 1
    ensures h & 1 == 0 ==> (a ^ h) & 1 == a & 1
  {
  }

  lemma OddShift(a: Word, h: Word)
    ensures ((a ^ h) >> 1) ^ 0xedb88320 == ((a >> 1) ^ 0xedb88320) ^ (h >> 1)
  {
  }

  lemma EvenShift(a: Word, h: Word)
    ensures (a ^ h) >> 1 == (a >> 1) ^ (h >> 1)
  {
  }

  lemma XorSame(a: Word, b: Word, h: Word)
    requires a == b
    ensures a ^ h == b ^ h
  {
  }

  lemma OddStep(a: Word, h: Word)
    requires h & 1 == 0 && a & 1 == 1
    ensures OneBit(a ^ h) == ((a >> 1) ^ 0xedb88320) ^ (h >> 1)
  {
    LowBit(a, h);
    OddBit(a ^ h);
    OddShift(a, h);
  }

  lemma EvenStep(a: Word, h: Word)
    requires h & 1 == 0 && a & 1 == 0
    ensures OneBit(a ^ h) == (a >> 1) ^ (h >> 1)
  {
    LowBit(a, h);
    EvenBit(a ^ h);
    EvenShift(a, h);
  }

  /** High bits pass through a single-bit step unchanged, one place lower. */
  lemma HighBitsPass(a: Word, h: Word)
    requires h & 1 == 0
    ensures OneBit(a ^ h) == OneBit(a) ^ (h >> 1)
  {
    LowBit(a, h);
    if a & 1 == 1 {
      OddStep(a, h);
      OddBit(a);
      XorSame(OneBit(a), (a >> 1) ^ 0xedb88320, h >> 1);
    } else {
      EvenStep(a, h);
      EvenBit(a);
      XorSame(OneBit(a), a >> 1, h >> 1);
    }
  }

  // ---- Any number of steps, by induction ----

  /** A step taken n times. */
  function Steps<T>(g: T -> T, n: nat, r: T): T {
    if n == 0 then r else Steps(g, n - 1, g(r))
  }

  /** Every one of h, s(h), s(s(h)), ... before the n-th is low. */
  predicate LowSteps<T>(low: T -> bool, s: T -> T, n: nat, h: T) {
    n == 0 || (low(h) && LowSteps(low, s, n - 1, s(h)))
  }

  ghost predicate Passes<T(!new)>(g: T -> T, x: (T, T) -> T, s: T -> T, low: T -> bool) {
    forall a, h {:trigger x(a, h)} :: low(h) ==> g(x(a, h)) == x(g(a), s(h))
  }

  /** When a step passes h on as s(h), n steps pass it on as n times s of it. */
  lemma {:induction false} StepsPass<T(!new)>(
    g: T -> T, x: (T, T) -> T, s: T -> T, low: T -> bool, n: nat, a: T, h: T)
    requires Passes(g, x, s, low) && LowSteps(low, s, n, h)
    ensures Steps(g, n, x(a, h)) == x(Steps(g, n, a), Steps(s, n, h))
  {
    if n > 0 {
      StepsPass(g, x, s, low, n - 1, g(a), s(h));
    }
  }

  function Xor(a: Word, b: Word): Word {
    a ^ b
  }

  function Shift(h: Word): Word {
    h >> 1
  }

  function Drop(h: Word): Word {
    h >> 8
  }

  function Low(r: Word): Word {
    r & 0xff
  }

  predicate Even(h: Word) {
    h & 1 == 0
  }

  lemma EightShifts(h: Word)
    requires h & 0xff == 0
    ensures LowSteps(Even, Shift, 8, h) && Steps(Shift, 8, h) == h >> 8
  {
  }

  lemma EightSteps(f: Step, g: Step, r: Word)
    requires IsEightBits(f) && IsOneBit(g)
    ensures f(r) == Steps(g, 8, r)
  {
    assert f(r) == EightBits(r);
    assert Steps(g, 8, r) == Steps(g, 6, g(g(r)));
    assert Steps(g, 6, g(g(r))) == Steps(g, 4, g(g(g(g(r)))));
    assert Steps(g, 4, g(g(g(g(r))))) == Steps(g, 2, g(g(g(g(g(g(r)))))));
    assert Steps(g, 2, g(g(g(g(g(g(r))))))) == g(g(g(g(g(g(g(g(r))))))));
  }

  lemma OneBitPasses(g: Step)
    requires IsOneBit(g)
    ensures Passes(g, Xor, Shift, Even)
  {
    forall a, h {:trigger Xor(a, h)} | Even(h)
      ensures g(Xor(a, h)) == Xor(g(a), Shift(h))
    {
      HighBitsPass(a, h);
    }
  }

  /** So eight steps of a register are eight steps of its low byte, with the rest eight places lower. */
  lemma EightBitsPass(f: Step, a: Word, h: Word)
    requires IsEightBits(f) && h & 0xff == 0
    ensures f(Xor(a, h)) == Xor(f(a), Drop(h))
  {
    var g := GivenOneBit();
    EightSteps(f, g, a ^ h);
    EightSteps(f, g, a);
    EightShifts(h);
    OneBitPasses(g);
    StepsPass(g, Xor, Shift, Even, 8, a, h);
  }

  lemma SplitLowByte(r: Word) returns (a: Word, h: Word)
    ensures a == Low(r) && Xor(a, h) == r && h & 0xff == 0 && Drop(h) == Drop(r)
  {
    a, h := r & 0xff, r & 0xffffff00;
  }

  lemma ByteStaysLow(crc: Word, b: Byte)
    ensures Drop(Mix(crc, b)) == Drop(crc)
  {
  }

  lemma EightBitsByLowByte(f: Step, r: Word)
    requires IsEightBits(f)
    ensures f(r) == Xor(f(Low(r)), Drop(r))
  {
    var a, h := SplitLowByte(r);
    EightBitsPass(f, a, h);
  }

  lemma LowByteValue(v: Word -> nat, r: Word)
    requires IsValue(v)
    ensures v(Low(r)) < 256
  {
    assert v(Low(r)) == Value(Low(r));
  }

  /** For every register and every byte, one step by the table is eight single-bit steps. */
  lemma TableStepsEightBits(f: Step, v: Word -> nat, crc: Word, b: Byte)
    requires IsEightBits(f) && IsValue(v)
    ensures |TABLE| == 256 && v(Low(Mix(crc, b))) < 256
    ensures Xor(TABLE[v(Low(Mix(crc, b)))], Drop(crc)) == f(Mix(crc, b))
  {
    var mixed := Mix(crc, b);
    LowByteValue(v, mixed);
    TableEntry(f, v, Low(mixed));
    EightBitsByLowByte(f, mixed);
    ByteStaysLow(crc, b);
  }

  /** The same said of the table and the bit steps themselves. */
  lemma TableRefinesBits(crc: Word, b: Byte)
    ensures |TABLE| == 256 && Value(Low(Mix(crc, b))) < 256
    ensures Xor(TABLE[Value(Low(Mix(crc, b)))], Drop(crc)) == EightBits(Mix(crc, b))
  {
    var f := GivenEightBits();
    var v := GivenValue();
    TableStepsEightBits(f, v, crc, b);
    assert v(Low(Mix(crc, b))) == Value(Low(Mix(crc, b)));
    assert f(Mix(crc, b)) == EightBits(Mix(crc, b));
  }

  // ---- The checksum ----

  function RegisterBy(f: Step, start: Word, data: seq<Byte>): Word {
    if data == [] then start
    else f(Mix(RegisterBy(f, start, data[..|data| - 1]), data[|data| - 1]))
  }

  lemma {:induction false} RegisterByEightBits(f: Step, start: Word, data: seq<Byte>)
    requires IsEightBits(f)
    ensures RegisterBy(f, start, data) == Register(start, data)
  {
    if data != [] {
      var before := data[..|data| - 1];
      RegisterByEightBits(f, start, before);
      var r := Mix(Register(start, before), data[|data| - 1]);
      assert f(r) == EightBits(r);
    }
  }

  lemma RegisterNext(f: Step, start: Word, data: seq<Byte>, i: nat, r: Word)
    requires i < |data| && r == RegisterBy(f, start, data[..i])
    ensures RegisterBy(f, start, data[..i + 1]) == f(Mix(r, data[i]))
  {
    assert data[..i + 1][..i] == data[..i];
  }

  /** The table-driven loop computes the bit-at-a-time checksum, whatever the bytes. */
  method OfBlob(blob: seq<Byte>) returns (checksum: Word)
    ensures checksum == Crc(blob)
  {
    var crc := SEED;
    ghost var f := GivenEightBits();
    ghost var v := GivenValue();
    for i := 0 to |blob|
      invariant crc == RegisterBy(f, SEED, blob[..i])
    {
      RegisterNext(f, SEED, blob, i, crc);
      TableStepsEightBits(f, v, crc, blob[i]);
      crc := Xor(TABLE[Value(Low(Mix(crc, blob[i])))], Drop(crc));
    }
    assert blob[..|blob|] == blob;
    RegisterByEightBits(f, SEED, blob);
    checksum := crc ^ SEED;
  }

  // ---- The residue ----

  /** The four bytes of a checksum, the lowest first, as they follow the data they check. */
  function LittleEndian(c: Word): seq<Byte> {
    [(c & 0xff) as Byte, ((c >> 8) & 0xff) as Byte, ((c >> 16) & 0xff) as Byte, ((c >> 24) & 0xff) as Byte]
  }

  function HighBytes(w: Word): Word {
    w & 0xffffff00
  }

  /** The byte cancels the low byte of w, up to ones. */
  predicate Cancels(b: Byte, w: Word) {
    (b as Word) == !w & 0xff
  }

  lemma MixCancels(k: Word, w: Word, b: Byte)
    requires Cancels(b, w)
    ensures Mix(Xor(k, w), b) == Xor(Xor(k, 0xff), HighBytes(w))
    ensures HighBytes(w) & 0xff == 0 && Drop(HighBytes(w)) == Drop(w)
  {
  }

  lemma CancelStep(f: Step, k: Word, w: Word, b: Byte)
    requires IsEightBits(f) && Cancels(b, w)
    ensures f(Mix(Xor(k, w), b)) == Xor(f(Xor(k, 0xff)), Drop(w))
  {
    MixCancels(k, w, b);
    EightBitsPass(f, Xor(k, 0xff), HighBytes(w));
  }

  lemma CancelConstants(f: Step)
    requires IsEightBits(f)
    ensures f(Xor(0, 0xff)) == 0x2d02ef8d && f(Xor(0x2d02ef8d, 0xff)) == 0xbe2612ff
    ensures f(Xor(0xbe2612ff, 0xff)) == 0x00be2612 && f(Xor(0x00be2612, 0xff)) == 0xdebb20e3
  {
    assert f(0xff) == EightBits(0xff);
    assert f(0x2d02ef8d ^ 0xff) == EightBits(0x2d02ef8d ^ 0xff);
    assert f(0xbe2612ff ^ 0xff) == EightBits(0xbe2612ff ^ 0xff);
    assert f(0x00be2612 ^ 0xff) == EightBits(0x00be2612 ^ 0xff);
  }

  lemma ChecksumCancels(r: Word, c: Word)
    requires c == r ^ SEED
    ensures Cancels(LittleEndian(c)[0], r) && Cancels(LittleEndian(c)[1], Drop(r))
    ensures Cancels(LittleEndian(c)[2], Drop(Drop(r))) && Cancels(LittleEndian(c)[3], Drop(Drop(Drop(r))))
  {
  }

  lemma NothingLeft(r: Word, k: Word)
    ensures Xor(0, r) == r && Xor(k, Drop(Drop(Drop(Drop(r))))) == k
  {
  }

  lemma FourMore(f: Step, start: Word, data: seq<Byte>, a: Byte, b: Byte, c: Byte, d: Byte)
    ensures RegisterBy(f, start, data + [a, b, c, d])
         == f(Mix(f(Mix(f(Mix(f(Mix(RegisterBy(f, start, data), a)), b)), c)), d))
  {
    var all := data + [a, b, c, d];
    var n := |data|;
    assert all[..n] == data && all[..n + 1][..n] == data && all[..n + 2][..n + 1] == all[..n + 1];
    assert all[..n + 3][..n + 2] == all[..n + 2] && all[..n + 4] == all;
    RegisterNext(f, start, all, n, RegisterBy(f, start, all[..n]));
    RegisterNext(f, start, all, n + 1, RegisterBy(f, start, all[..n + 1]));
    RegisterNext(f, start, all, n + 2, RegisterBy(f, start, all[..n + 2]));
    RegisterNext(f, start, all, n + 3, RegisterBy(f, start, all[..n + 3]));
  }

  lemma RegisterOfChecked(f: Step, data: seq<Byte>)
    requires IsEightBits(f)
    ensures RegisterBy(f, SEED, data + LittleEndian(RegisterBy(f, SEED, data) ^ SEED)) == 0xdebb20e3
  {
    var r := RegisterBy(f, SEED, data);
    var bytes := LittleEndian(r ^ SEED);
    ChecksumCancels(r, r ^ SEED);
    CancelConstants(f);
    NothingLeft(r, 0xdebb20e3);
    CancelStep(f, 0, r, bytes[0]);
    CancelStep(f, 0x2d02ef8d, Drop(r), bytes[1]);
    CancelStep(f, 0xbe2612ff, Drop(Drop(r)), bytes[2]);
    CancelStep(f, 0x00be2612, Drop(Drop(Drop(r))), bytes[3]);
    FourMore(f, SEED, data, bytes[0], bytes[1], bytes[2], bytes[3]);
  }

  /** Whatever the data, with its checksum behind it the checksum is always the same. */
  lemma ResidueIsConstant(data: seq<Byte>)
    ensures Crc(data + LittleEndian(Crc(data))) == 0x2144df1c
  {
    var f := GivenEightBits();
    RegisterByEightBits(f, SEED, data);
    RegisterByEightBits(f, SEED, data + LittleEndian(Crc(data)));
    RegisterOfChecked(f, data);
  }
}
