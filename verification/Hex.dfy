/** Hexadecimal text, two upper-case digits a byte. */
module Hex {
  import opened Wrappers
  import opened Bytes

  const SYMBOLS := "0123456789ABCDEF"

  const NOT_ENOUGH_INPUT := "Not enough input!"

  function Unexpected(c: char): string {
    "Unexpected character: " + [c]
  }

  predicate IsDigit(c: char) {
    c in SYMBOLS
  }

  function EncodeByte(b: byte): string {
    [SYMBOLS[b / 16], SYMBOLS[b % 16]]
  }

  function Encode(bytes: seq<byte>): string {
    if bytes == [] then "" else Encode(bytes[..|bytes| - 1]) + EncodeByte(bytes[|bytes| - 1])
  }

  // ---- What decoding a text gives ----

  /** The position of the first character that is no digit, or the length of the text. */
  function FirstBad(text: string): (k: nat)
    ensures k <= |text|
    ensures forall i :: 0 <= i < k ==> IsDigit(text[i])
    ensures k < |text| ==> !IsDigit(text[k])
  {
    if text == [] || !IsDigit(text[0]) then 0 else 1 + FirstBad(text[1..])
  }

  function DigitValue(c: char): (d: nat)
    requires IsDigit(c)
    ensures d < 16 && SYMBOLS[d] == c
  {
    if '0' <= c <= '9' then c as int - '0' as int else c as int - 'A' as int + 10
  }

  function DecodePair(c1: char, c2: char): byte
    requires IsDigit(c1) && IsDigit(c2)
  {
    DigitValue(c1) * 16 + DigitValue(c2)
  }

  function DecodePairs(text: string): (bytes: seq<byte>)
    requires |text| % 2 == 0 && FirstBad(text) == |text|
    ensures |bytes| == |text| / 2
  {
    seq(|text| / 2, i requires 0 <= i < |text| / 2 => DecodePair(text[2 * i], text[2 * i + 1]))
  }

  /** The whole pairs of the text. */
  function WholePairs(text: string): string {
    text[..|text| - |text| % 2]
  }

  /** A bad character in a whole pair is reported before a missing last one. */
  function Decoded(text: string): Result<seq<byte>, string> {
    var k := FirstBad(WholePairs(text));
    if k < |WholePairs(text)| then Err(Unexpected(text[k]))
    else if |text| % 2 == 1 then Err(NOT_ENOUGH_INPUT)
    else Ok(DecodePairs(text))
  }

  // ---- The decoder ----

  method DecodeW4(c: char) returns (r: Result<byte, string>)
    ensures r == if IsDigit(c) then Ok(DigitValue(c)) else Err(Unexpected(c))
  {
    for i := 0 to 16
      invariant c !in SYMBOLS[..i]
    {
      if SYMBOLS[i] == c {
        return Ok(i);
      }
    }
    assert SYMBOLS[..16] == SYMBOLS;
    return Err(Unexpected(c));
  }

  function PairAt(text: string, at: nat): Result<byte, string>
    requires at + 1 < |text|
  {
    if !IsDigit(text[at]) then Err(Unexpected(text[at]))
    else if !IsDigit(text[at + 1]) then Err(Unexpected(text[at + 1]))
    else Ok(DecodePair(text[at], text[at + 1]))
  }

  /** Take the next two characters from the text, and their byte. */
  method Parse(text: string, at: nat) returns (r: Result<byte, string>, next: nat)
    requires at <= |text|
    ensures at <= next <= |text|
    ensures |text| - at < 2 ==> r == Err(NOT_ENOUGH_INPUT)
    ensures |text| - at >= 2 ==> next == at + 2 && r == PairAt(text, at)
  {
    next := at;
    if next == |text| {
      return Err(NOT_ENOUGH_INPUT), next;
    }
    var c1 := text[next];
    next := next + 1;
    if next == |text| {
      return Err(NOT_ENOUGH_INPUT), next;
    }
    var c2 := text[next];
    next := next + 1;
    var x1 := DecodeW4(c1);
    if x1.Err? {
      return Err(x1.error), next;
    }
    var x2 := DecodeW4(c2);
    if x2.Err? {
      return Err(x2.error), next;
    }
    return Ok(x1.value * 16 + x2.value), next;
  }

  /** The text begins with n digits. */
  ghost predicate Digits(text: string, n: nat) {
    n <= |text| && forall k :: 0 <= k < n ==> IsDigit(text[k])
  }

  lemma FirstBadIs(text: string, k: nat)
    requires Digits(text, k) && (k < |text| ==> !IsDigit(text[k]))
    ensures FirstBad(text) == k
  {
  }

  lemma Mixed(text: string, k: nat)
    requires Digits(text, k) && k < |WholePairs(text)| && !IsDigit(text[k])
    ensures Decoded(text) == Err(Unexpected(text[k]))
  {
    FirstBadIs(WholePairs(text), k);
  }

  lemma Short(text: string)
    requires |text| % 2 == 1 && Digits(text, |text| - 1)
    ensures Decoded(text) == Err(NOT_ENOUGH_INPUT)
  {
    FirstBadIs(WholePairs(text), |text| - 1);
  }

  ghost predicate IsPair(text: string, j: nat, b: byte) {
    2 * j + 1 < |text| && IsDigit(text[2 * j]) && IsDigit(text[2 * j + 1])
    && b == DecodePair(text[2 * j], text[2 * j + 1])
  }

  ghost predicate ArePairs(text: string, bytes: seq<byte>) {
    forall j :: 0 <= j < |bytes| ==> IsPair(text, j, bytes[j])
  }

  lemma Full(text: string, bytes: seq<byte>)
    requires |text| == 2 * |bytes| && Digits(text, |text|) && ArePairs(text, bytes)
    ensures Decoded(text) == Ok(bytes)
  {
    assert WholePairs(text) == text;
    FirstBadIs(text, |text|);
    forall j | 0 <= j < |bytes|
      ensures bytes[j] == DecodePairs(text)[j]
    {
      assert IsPair(text, j, bytes[j]);
    }
    assert bytes == DecodePairs(text);
  }

  lemma NextPair(text: string, bytes: seq<byte>, b: byte)
    requires ArePairs(text, bytes) && Digits(text, 2 * |bytes|) && IsPair(text, |bytes|, b)
    ensures ArePairs(text, bytes + [b]) && Digits(text, 2 * |bytes| + 2)
  {
  }

  lemma ParseFails(text: string, at: nat, error: string)
    requires at % 2 == 0 && at < |text| && Digits(text, at)
    requires |text| - at < 2 ==> error == NOT_ENOUGH_INPUT
    requires |text| - at >= 2 ==> PairAt(text, at) == Err(error)
    ensures Decoded(text) == Err(error)
  {
    if |text| - at < 2 {
      Short(text);
    } else {
      Mixed(text, if IsDigit(text[at]) then at + 1 else at);
    }
  }

  lemma ParseSucceeds(text: string, i: nat, b: byte)
    requires |text| - 2 * i >= 2 && PairAt(text, 2 * i) == Ok(b)
    ensures IsPair(text, i, b)
  {
  }

  method Decode(text: string) returns (r: Result<seq<byte>, string>)
    ensures r == Decoded(text)
  {
    var next := 0;
    var i := 0;
    var n := |text| / 2 + |text| % 2;
    var bytes := new byte[n](_ => 0);
    while i != n
      invariant i <= n && next == 2 * i && Digits(text, next)
      invariant ArePairs(text, bytes[..i])
    {
      var w8, at := Parse(text, next);
      if w8.Err? {
        ParseFails(text, next, w8.error);
        return Err(w8.error);
      }
      ParseSucceeds(text, i, w8.value);
      NextPair(text, bytes[..i], w8.value);
      ghost var before := bytes[..i];
      bytes[i], next := w8.value, at;
      i := i + 1;
      assert bytes[..i] == before + [w8.value];
    }
    assert bytes[..n] == bytes[..];
    Full(text, bytes[..]);
    return Ok(bytes[..]);
  }

  // ---- Encoding and decoding undo each other ----

  lemma {:induction false} EncodeAt(bytes: seq<byte>, i: nat)
    requires i < |bytes|
    ensures |Encode(bytes)| == 2 * |bytes|
    ensures Encode(bytes)[2 * i] == EncodeByte(bytes[i])[0]
    ensures Encode(bytes)[2 * i + 1] == EncodeByte(bytes[i])[1]
  {
    var last := |bytes| - 1;
    if i < last {
      EncodeAt(bytes[..last], i);
    } else if last > 0 {
      EncodeAt(bytes[..last], 0);
    }
  }

  lemma {:induction false} EncodeDigits(bytes: seq<byte>)
    ensures |Encode(bytes)| == 2 * |bytes| && Digits(Encode(bytes), |Encode(bytes)|)
  {
    if bytes != [] {
      EncodeDigits(bytes[..|bytes| - 1]);
    }
  }

  lemma SymbolValue(d: nat)
    requires d < 16
    ensures DigitValue(SYMBOLS[d]) == d
  {
  }

  lemma PairOfByte(b: byte)
    ensures DecodePair(EncodeByte(b)[0], EncodeByte(b)[1]) == b
  {
    SymbolValue(b / 16);
    SymbolValue(b % 16);
  }

  lemma ByteOfPair(c1: char, c2: char)
    requires IsDigit(c1) && IsDigit(c2)
    ensures EncodeByte(DecodePair(c1, c2)) == [c1, c2]
  {
    var x := DecodePair(c1, c2) as int;
    assert x / 16 == DigitValue(c1) && x % 16 == DigitValue(c2);
  }

  lemma EncodedPair(bytes: seq<byte>, j: nat)
    requires j < |bytes|
    ensures IsPair(Encode(bytes), j, bytes[j])
  {
    EncodeAt(bytes, j);
    PairOfByte(bytes[j]);
    EncodeDigits(bytes);
  }

  /** Decoding the encoding of any bytes gives them back. */
  lemma DecodeEncode(bytes: seq<byte>)
    ensures Decoded(Encode(bytes)) == Ok(bytes)
  {
    EncodeDigits(bytes);
    forall j | 0 <= j < |bytes|
      ensures IsPair(Encode(bytes), j, bytes[j])
    {
      EncodedPair(bytes, j);
    }
    Full(Encode(bytes), bytes);
  }

  /** The digits are 0 to 9 and upper-case A to F, with their usual values. */
  lemma DigitsWrittenOut(c: char)
    ensures IsDigit(c) <==> '0' <= c <= '9' || 'A' <= c <= 'F'
    ensures '0' <= c <= '9' ==> c == '0' + DigitValue(c) as char
    ensures 'A' <= c <= 'F' ==> c == 'A' + (DigitValue(c) - 10) as char
  {
  }

  /** Decoding succeeds on the texts of even length over these sixteen digits, and on no others. */
  lemma DecodesExactly(text: string)
    ensures Decoded(text).Ok? <==>
              |text| % 2 == 0 && forall c :: c in text ==> '0' <= c <= '9' || 'A' <= c <= 'F'
  {
    forall c: char
      ensures IsDigit(c) <==> '0' <= c <= '9' || 'A' <= c <= 'F'
    {
      DigitsWrittenOut(c);
    }
    DecodesDigits(text);
    assert forall k :: 0 <= k < |text| ==> text[k] in text;
  }

  lemma DecodesDigits(text: string)
    ensures Decoded(text).Ok? <==> |text| % 2 == 0 && Digits(text, |text|)
  {
    if |text| % 2 == 0 {
      assert WholePairs(text) == text;
    }
  }

  /** What an error says: the first bad character of the whole pairs, or else that a character is missing. */
  lemma ErrorsWrittenOut(text: string)
    requires Decoded(text).Err?
    ensures var k := FirstBad(WholePairs(text));
            Decoded(text).error ==
              if k < |WholePairs(text)| then "Unexpected character: " + [text[k]] else "Not enough input!"
  {
  }

  lemma DecodedAt(text: string, j: nat)
    requires Decoded(text).Ok? && j < |Decoded(text).value|
    ensures 2 * j + 1 < |text| && IsDigit(text[2 * j]) && IsDigit(text[2 * j + 1])
    ensures Decoded(text).value[j] == DecodePair(text[2 * j], text[2 * j + 1])
  {
    assert WholePairs(text) == text;
  }

  ghost predicate SamePair(s: string, t: string, j: nat) {
    2 * j + 1 < |s| == |t| && s[2 * j] == t[2 * j] && s[2 * j + 1] == t[2 * j + 1]
  }

  lemma SamePairs(s: string, t: string, n: nat)
    requires |s| == |t| == 2 * n && forall j :: 0 <= j < n ==> SamePair(s, t, j)
    ensures s == t
  {
    forall k | 0 <= k < |s|
      ensures s[k] == t[k]
    {
      assert SamePair(s, t, k / 2);
    }
  }

  lemma EncodesPair(text: string, bytes: seq<byte>, j: nat)
    requires Decoded(text) == Ok(bytes) && |text| == 2 * |bytes| == |Encode(bytes)| && j < |bytes|
    ensures SamePair(Encode(bytes), text, j)
  {
    var (c1, c2) := (text[2 * j], text[2 * j + 1]);
    DecodedAt(text, j);
    var e := EncodeByte(bytes[j]);
    assert e == [c1, c2] by {
      ByteOfPair(c1, c2);
    }
    EncodeAt(bytes, j);
  }

  /** What decodes is the encoding of what it decodes to. */
  lemma EncodeDecode(text: string)
    requires Decoded(text).Ok?
    ensures Encode(Decoded(text).value) == text
  {
    DecodesDigits(text);
    var bytes := Decoded(text).value;
    EncodeDigits(bytes);
    assert |text| == 2 * |bytes|;
    forall j | 0 <= j < |bytes|
      ensures SamePair(Encode(bytes), text, j)
    {
      EncodesPair(text, bytes, j);
    }
    SamePairs(Encode(bytes), text, |bytes|);
  }
}
