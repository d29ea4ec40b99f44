/** Bytes and the little-endian numbers written with them. */
module Bytes {
  type byte = x: int | 0 <= x < 256

  predicate Word(x: int) {
    0 <= x < 0x1_0000_0000
  }

  function Power(n: nat): nat {
    if n == 0 then 1 else 256 * Power(n - 1)
  }

  function Value(bytes: seq<byte>): nat {
    if bytes == [] then 0 else bytes[0] + 256 * Value(bytes[1..])
  }

  function LittleEndian(x: nat, n: nat): (r: seq<byte>)
    ensures |r| == n
  {
    if n == 0 then [] else [x % 256] + LittleEndian(x / 256, n - 1)
  }

  lemma {:induction false} ValueOfLittleEndian(x: nat, n: nat)
    requires x < Power(n)
    ensures Value(LittleEndian(x, n)) == x
  {
    if n > 0 {
      ValueOfLittleEndian(x / 256, n - 1);
      assert LittleEndian(x, n)[1..] == LittleEndian(x / 256, n - 1);
    }
  }

  lemma ByteSplits(low: byte, high: nat)
    ensures (low + 256 * high) % 256 == low && (low + 256 * high) / 256 == high
  {
  }

  lemma {:induction false} LittleEndianOfValue(bytes: seq<byte>)
    ensures Value(bytes) < Power(|bytes|)
    ensures LittleEndian(Value(bytes), |bytes|) == bytes
  {
    if bytes != [] {
      LittleEndianOfValue(bytes[1..]);
      ByteSplits(bytes[0], Value(bytes[1..]));
      assert bytes == [bytes[0]] + bytes[1..];
    }
  }

  lemma WordBytes(bytes: seq<byte>, x: int)
    requires |bytes| == 4 && Word(x)
    ensures Value(bytes) == x <==> bytes == LittleEndian(x, 4)
  {
    assert Power(4) == 0x1_0000_0000;
    ValueOfLittleEndian(x, 4);
    LittleEndianOfValue(bytes);
  }

  /** The first byte counts ones, the next 256 each, and so on. */
  lemma FourBytes(bytes: seq<byte>)
    requires |bytes| == 4
    ensures var a: int, b: int, c: int, d: int := bytes[0], bytes[1], bytes[2], bytes[3];
            Value(bytes) == a + 0x100 * b + 0x1_0000 * c + 0x100_0000 * d
  {
    var second, third, fourth := bytes[1..], bytes[1..][1..], bytes[1..][1..][1..];
    assert Value(fourth[1..]) == 0;
    assert Value(fourth) == bytes[3];
    assert Value(third) == bytes[2] + 0x100 * Value(fourth);
    assert Value(second) == bytes[1] + 0x100 * Value(third);
  }

  function Pow256(n: nat): nat {
    if n == 0 then 1 else if n == 1 then 0x100 else 0x1_0000 * Pow256(n - 2)
  }

  lemma {:induction false} PowersAgree(n: nat)
    ensures Power(n) == Pow256(n)
  {
    if n > 1 {
      PowersAgree(n - 2);
      assert Power(n) == 256 * (256 * Power(n - 2));
    }
  }

  lemma Distributes(a: nat, b: nat, c: nat)
    ensures 256 * (a + b * c) == 256 * a + (256 * b) * c
  {
  }

  /** However many bytes come first, the rest counts that many times 256 more. */
  lemma {:induction false} BytesHaveWeights(bytes: seq<byte>, i: nat)
    requires i <= |bytes|
    ensures Value(bytes) == Value(bytes[..i]) + Power(i) * Value(bytes[i..])
  {
    if i == 0 {
      assert bytes[0..] == bytes;
    } else {
      BytesHaveWeights(bytes[1..], i - 1);
      assert bytes[1..][..i - 1] == bytes[..i][1..] && bytes[1..][i - 1..] == bytes[i..];
      Distributes(Value(bytes[..i][1..]), Power(i - 1), Value(bytes[i..]));
    }
  }
}
