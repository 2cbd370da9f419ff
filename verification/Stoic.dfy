/** Token identifiers as the Stoic wallet writes them: "\x0Atid", the canister, and a 32-bit index. */
module Stoic {
  import opened Wrappers
  import opened Bytes

  datatype Token = Token(index: nat, canister: seq<byte>)

  /** "\x0Atid". */
  const TDS: seq<byte> := [10, 116, 105, 100]

  function Encode(t: Token): (bytes: seq<byte>)
    ensures |bytes| == |t.canister| + 8
  {
    TDS + t.canister + BigEndian(t.index, 4)
  }

  predicate Prefixed(bytes: seq<byte>) {
    |bytes| >= 4 && bytes[..4] == TDS
  }

  /** What decoding the bytes of an identifier gives. */
  function Decoded(bytes: seq<byte>): Outcome<Token> {
    if |bytes| < 4 then Value(Token(0, []))
    else if !Prefixed(bytes) then Value(Token(0, bytes))
    else if |bytes| > 255 then Trap
    else if |bytes| < 8 then Value(Token(ToNat(bytes[4..]), []))
    else Value(Token(ToNat(bytes[|bytes| - 4..]), bytes[4..|bytes| - 4]))
  }

  // ---- The decoder ----

  /** x << s on 32-bit naturals: the distance counts modulo 32, and bits shifted out are lost. */
  function ShiftLeft32(x: nat, s: nat): nat {
    x * Pow2(s % 32) % MAX32
  }

  lemma Scaled(b: nat, p: nat, n: nat)
    ensures (b * p + n) * 256 == b * (256 * p) + n * 256
  {
  }

  lemma {:induction false} ToNatPrepend(b: byte, bytes: seq<byte>)
    ensures ToNat([b] + bytes) == b * Pow256(|bytes|) + ToNat(bytes)
    decreases |bytes|
  {
    if bytes != [] {
      var init := bytes[..|bytes| - 1];
      assert ([b] + bytes)[..|bytes|] == [b] + init;
      ToNatPrepend(b, init);
      Scaled(b, Pow256(|init|), ToNat(init));
    }
  }

  lemma ShiftByte(b: byte, k: nat)
    requires k < 4
    ensures ShiftLeft32(b, 8 * k) == b * Pow256(k)
  {
    Pow2IsPow256(k);
    assert Pow256(1) == 256 && Pow256(2) == 256 * 256 && Pow256(3) == 256 * 256 * 256;
  }

  lemma ToNatFits(bytes: seq<byte>)
    requires |bytes| <= 4
    ensures ToNat(bytes) < MAX32
  {
    assert Pow256(1) == 256 && Pow256(2) == 256 * 256 && Pow256(3) == 256 * 256 * 256;
    assert Pow256(4) == MAX32 && Pow256(0) == 1;
    assert Pow256(|bytes|) <= MAX32;
  }

  /** What a byte with n others behind it counts: places repeat from four to four. */
  function Place(x: byte, n: nat): nat {
    x * Pow256(n % 4)
  }

  function PlaceSum(b: seq<byte>): nat {
    if b == [] then 0 else Place(b[0], |b| - 1) + PlaceSum(b[1..])
  }

  lemma SmallPlace(x: byte, n: nat)
    requires n < 4
    ensures Place(x, n) == x * Pow256(n)
  {
    assert n % 4 == n;
  }

  /** Up to four bytes count as the big-endian number they denote. */
  lemma {:induction false} ShortSum(b: seq<byte>)
    requires |b| <= 4
    ensures PlaceSum(b) == ToNat(b)
  {
    if b != [] {
      var rest := b[1..];
      assert [b[0]] + rest == b;
      ToNatPrepend(b[0], rest);
      SmallPlace(b[0], |rest|);
      ShortSum(rest);
    }
  }

  lemma ShiftRepeats(x: nat, s: nat, t: nat)
    requires s % 32 == t % 32
    ensures ShiftLeft32(x, s) == ShiftLeft32(x, t)
  {
  }

  lemma EightTimesMod(k: nat)
    ensures 8 * k % 32 == 8 * (k % 4) % 32
  {
  }

  lemma ShiftPlace(b: byte, k: nat)
    ensures ShiftLeft32(b, 8 * k) == Place(b, k)
  {
    EightTimesMod(k);
    ShiftRepeats(b, 8 * k, 8 * (k % 4));
    ShiftByte(b, k % 4);
  }

  lemma {:induction false} PlaceSumGrows(b: seq<byte>, i: nat)
    requires i <= |b|
    ensures PlaceSum(b[i..]) <= PlaceSum(b)
    decreases i
  {
    if i == 0 {
      assert b[0..] == b;
    } else {
      assert b[i - 1..][1..] == b[i..];
      PlaceSumGrows(b, i - 1);
    }
  }

  const MAX32 := 0x1_0000_0000

  /** One byte moved to its place by the shift. */
  method Shifted(b: byte, index: nat) returns (x: nat)
    requires index > 0
    ensures x == Place(b, index - 1)
  {
    ShiftPlace(b, index - 1);
    x := ShiftLeft32(b, (index - 1) * 8);
  }

  lemma OneMore(b: seq<byte>, i: nat)
    requires i < |b|
    ensures PlaceSum(b[i..]) == PlaceSum(b[i + 1..]) + Place(b[i], |b| - 1 - i)
    ensures PlaceSum(b[i..]) <= PlaceSum(b)
  {
    assert b[i..][1..] == b[i + 1..];
    PlaceSumGrows(b, i);
  }

  lemma ShortReads(b: seq<byte>)
    requires |b| <= 4
    ensures PlaceSum(b) == ToNat(b) < MAX32
  {
    ShortSum(b);
    ToNatFits(b);
  }

  /**
   * The fold from the right. The distances count modulo 32, so in longer arrays the places repeat; the
   * fold traps when the sum, or the distance itself, leaves 32 bits. The decoder passes on at most four
   * bytes, and for those it never traps.
   */
  method BytesToNat32(b: seq<byte>) returns (r: Outcome<nat>)
    ensures r == if PlaceSum(b) < MAX32 && 8 * |b| <= MAX32 then Value(PlaceSum(b)) else Trap
    ensures |b| <= 4 ==> r == Value(ToNat(b))
  {
    if |b| <= 4 {
      ShortReads(b);
    }
    var index := 0;
    var accum := 0;
    var i: nat := |b|;
    while i > 0
      invariant i <= |b| && index == |b| - i && 8 * index <= MAX32
      invariant accum == PlaceSum(b[i..]) < MAX32
    {
      i := i - 1;
      index := index + 1;
      OneMore(b, i);
      if (index - 1) * 8 >= MAX32 {
        return Trap;
      }
      var shifted := Shifted(b[i], index);
      if accum + shifted >= MAX32 {
        return Trap;
      }
      accum := accum + shifted;
    }
    assert b[0..] == b;
    r := Value(accum);
  }

  /** The first loop: count the bytes in a Nat8, and leave with None when the first four are not the prefix. */
  method CheckPrefix(bytes: seq<byte>) returns (length: Outcome<Option<byte>>)
    ensures length ==
      if |bytes| >= 4 && !Prefixed(bytes) then Value(None)
      else if |bytes| > 255 then Trap
      else Value(Some(|bytes|))
  {
    var count: byte := 0;
    var check: seq<byte> := [];
    for i := 0 to |bytes|
      invariant count == i
      invariant check == bytes[..if i < 4 then i else 4]
      invariant i >= 4 ==> Prefixed(bytes)
    {
      if count == 255 {
        return Trap;
      }
      count := count + 1;
      if count <= 4 {
        check := check + [bytes[i]];
      }
      if count == 4 {
        if check != TDS {
          return Value(None);
        }
      }
    }
    return Value(Some(count));
  }

  /** The second loop never takes the Nat8 index past 255, nor length - 4 below zero. */
  method SplitToken(bytes: seq<byte>, length: byte) returns (canister: seq<byte>, tokenIndex: seq<byte>)
    requires length == |bytes|
    ensures canister == if |bytes| >= 8 then bytes[4..|bytes| - 4] else []
    ensures tokenIndex ==
      if |bytes| >= 8 then bytes[|bytes| - 4..] else if |bytes| >= 4 then bytes[4..] else []
  {
    var index: byte := 0;
    canister, tokenIndex := [], [];
    for i := 0 to |bytes|
      invariant index == i
      invariant canister == if i <= 4 || length < 8 then [] else bytes[4..if i <= length - 4 then i else length - 4]
      invariant tokenIndex ==
        if i <= 4 then [] else if length < 8 then bytes[4..i] else if i <= length - 4 then [] else bytes[length - 4..i]
    {
      index := index + 1;
      if index >= 5 {
        if index <= length - 4 {
          canister := canister + [bytes[i]];
        } else {
          tokenIndex := tokenIndex + [bytes[i]];
        }
      }
    }
  }

  method DecodeToken(bytes: seq<byte>) returns (r: Outcome<Token>)
    ensures r == Decoded(bytes)
  {
    var length := CheckPrefix(bytes);
    match length
    case Trap => return Trap;
    case Value(None) => return Value(Token(0, bytes));
    case Value(Some(n)) =>
      var canister, tokenIndex := SplitToken(bytes, n);
      var index := BytesToNat32(tokenIndex);
      if index.Trap? {
        return Trap;
      }
      return Value(Token(index.value, canister));
  }

  // ---- Decoding undoes encoding ----

  /** Every canister and 32-bit index come back, as long as the Nat8 counters can count the identifier. */
  lemma DecodeEncode(t: Token)
    requires t.index < MAX32
    ensures Decoded(Encode(t)) == if |t.canister| <= 247 then Value(t) else Trap
  {
    var bytes := Encode(t);
    assert bytes[..4] == TDS;
    assert bytes[4..|bytes| - 4] == t.canister;
    assert bytes[|bytes| - 4..] == BigEndian(t.index, 4);
    ToNatBigEndian(t.index, 4);
    assert Pow256(2) == 256 * 256 && Pow256(4) == 256 * (256 * Pow256(2));
  }

  /** With the prefix written out: a line feed and "tid". */
  lemma DecodesPrefixed(canister: seq<byte>, index: nat)
    requires index < MAX32 && |canister| <= 247
    ensures Decoded([0x0A, 't' as byte, 'i' as byte, 'd' as byte] + canister + BigEndian(index, 4))
         == Value(Token(index, canister))
  {
    DecodeEncode(Token(index, canister));
  }

  /** Every identifier with the prefix and room for an index is the encoding of what it decodes to. */
  lemma EncodeDecode(bytes: seq<byte>)
    requires Prefixed(bytes) && 8 <= |bytes| <= 255
    ensures Decoded(bytes).Value? && Encode(Decoded(bytes).value) == bytes
    ensures Decoded(bytes).value.index < MAX32
  {
    var last := bytes[|bytes| - 4..];
    BigEndianToNat(last);
    ToNatFits(last);
    assert bytes == bytes[..4] + bytes[4..|bytes| - 4] + last;
  }

  /** So two different such identifiers never decode to the same token. */
  lemma DecodingIsInjective(a: seq<byte>, b: seq<byte>)
    requires Prefixed(a) && 8 <= |a| <= 255 && Prefixed(b) && 8 <= |b| <= 255
    requires Decoded(a) == Decoded(b)
    ensures a == b
  {
    EncodeDecode(a);
    EncodeDecode(b);
  }

  /** Without the prefix the identifier is the canister itself; it traps only when the counter overflows. */
  lemma DecodesExactly(bytes: seq<byte>)
    ensures Decoded(bytes).Trap? <==> Prefixed(bytes) && |bytes| > 255
    ensures Decoded(bytes) == Value(Token(0, bytes)) <==> bytes == [] || (|bytes| >= 4 && !Prefixed(bytes))
  {
  }
}
