/** Little-endian integers and in-place edits of byte buffers. */
module Bytes {

  type byte = x: int | 0 <= x < 256

  const U16_LIMIT: int := 0x1_0000
  const U32_LIMIT: int := 0x1_0000_0000

  type u16 = x: int | 0 <= x < U16_LIMIT
  type u32 = x: int | 0 <= x < U32_LIMIT

  function Le16(bytes: seq<byte>, offset: nat): (v: u16)
    requires offset + 2 <= |bytes|
  {
    var b0: int, b1: int := bytes[offset], bytes[offset + 1];
    b0 + 256 * b1
  }

  function Le32(bytes: seq<byte>, offset: nat): (v: u32)
    requires offset + 4 <= |bytes|
  {
    var b0: int, b1: int := bytes[offset], bytes[offset + 1];
    var b2: int, b3: int := bytes[offset + 2], bytes[offset + 3];
    b0 + 256 * b1 + 65536 * b2 + 16777216 * b3
  }

  lemma ConcatAssoc<T>(a: seq<T>, b: seq<T>, c: seq<T>)
    ensures a + (b + c) == (a + b) + c
  {
  }

  /** The `k`-th base-256 digit, least significant first. */
  function Digit(v: u32, k: nat): (d: byte)
    requires k < 4
  {
    if k == 0 then v % 256
    else if k == 1 then v / 256 % 256
    else if k == 2 then v / 65536 % 256
    else v / 16777216 % 256
  }

  function Enc16(v: u16): (s: seq<byte>)
    ensures |s| == 2 && Le16(s, 0) == v
  {
    [v % 256, v / 256]
  }

  function Enc32(v: u32): (s: seq<byte>)
    ensures |s| == 4 && Le32(s, 0) == v
  {
    DigitsSum(v);
    [Digit(v, 0), Digit(v, 1), Digit(v, 2), Digit(v, 3)]
  }

  lemma DigitsSum(v: u32)
    ensures Digit(v, 0) + 256 * Digit(v, 1) + 65536 * Digit(v, 2) + 16777216 * Digit(v, 3) == v
  {
    assert v / 256 / 256 == v / 65536;
    assert v / 65536 / 256 == v / 16777216;
  }

  /** A table of 32-bit words laid out in a buffer, as pointer blocks hold them. */
  function EncWords(words: seq<u32>): (s: seq<byte>)
    ensures |s| == 4 * |words|
  {
    seq(4 * |words|, (j: nat) requires j < 4 * |words| => Digit(words[j / 4], j % 4))
  }

  lemma EncWordsRead(words: seq<u32>, i: nat)
    requires i < |words|
    ensures 4 * i + 4 <= |EncWords(words)|
    ensures Le32(EncWords(words), 4 * i) == words[i]
  {
    DigitsSum(words[i]);
    assert EncWords(words)[4 * i] == Digit(words[i], 0);
    assert EncWords(words)[4 * i + 1] == Digit(words[i], 1);
    assert EncWords(words)[4 * i + 2] == Digit(words[i], 2);
    assert EncWords(words)[4 * i + 3] == Digit(words[i], 3);
  }

  /** The buffer after `copy_from_slice` of `part` at `offset`. */
  function Splice(bytes: seq<byte>, offset: nat, part: seq<byte>): (s: seq<byte>)
    requires offset + |part| <= |bytes|
    ensures |s| == |bytes|
    ensures forall i :: 0 <= i < |bytes| ==>
                          s[i] == if offset <= i < offset + |part| then part[i - offset] else bytes[i]
  {
    bytes[..offset] + part + bytes[offset + |part|..]
  }

  lemma SpliceRead16(bytes: seq<byte>, offset: nat, v: u16)
    requires offset + 2 <= |bytes|
    ensures Le16(Splice(bytes, offset, Enc16(v)), offset) == v
  {
  }

  lemma SpliceRead32(bytes: seq<byte>, offset: nat, v: u32)
    requires offset + 4 <= |bytes|
    ensures Le32(Splice(bytes, offset, Enc32(v)), offset) == v
  {
    var s := Splice(bytes, offset, Enc32(v));
    assert s[offset] == Enc32(v)[0];
  }

  function Zeros(n: nat): (s: seq<byte>)
    ensures |s| == n && forall i :: 0 <= i < n ==> s[i] == 0
  {
    seq(n, _ => 0)
  }
}
