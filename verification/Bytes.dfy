/**
 Byte strings and big-endian numbers.

 Go's `string` and `[]byte` are one type here, `Bytes`.
 */
module ByteStrings {

  datatype Option<+T> = None | Some(value: T)

  type byte = x: int | 0 <= x < 256

  type Bytes = seq<byte>

  /** Go's conversion `byte(n)` of an int: the low eight bits, also of a negative number. */
  function ToByte(n: int): byte {
    n % 256
  }

  /** `big.Int.Bytes()`: the shortest big-endian form; zero has no bytes. */
  function ToBigEndian(n: nat): (b: Bytes)
    ensures n == 0 <==> b == []
    ensures n > 0 ==> b[0] != 0
  {
    if n == 0 then [] else ToBigEndian(n / 256) + [n % 256]
  }

  /** `big.Int.SetBytes`. */
  function FromBigEndian(b: Bytes): nat {
    if b == [] then 0 else FromBigEndian(b[..|b| - 1]) * 256 + b[|b| - 1]
  }

  lemma {:induction false} FromToBigEndian(n: nat)
    ensures FromBigEndian(ToBigEndian(n)) == n
  {
    if n > 0 {
      var b := ToBigEndian(n);
      assert b[..|b| - 1] == ToBigEndian(n / 256);
      FromToBigEndian(n / 256);
    }
  }

  /** The most significant byte comes first, in both directions. */
  lemma DigitsExact(high: nat, low: byte, b: Bytes)
    ensures high > 0 || low > 0 ==> ToBigEndian(256 * high + low) == ToBigEndian(high) + [low]
    ensures FromBigEndian(b + [low]) == 256 * FromBigEndian(b) + low && FromBigEndian([low]) == low
  {
    assert (256 * high + low) / 256 == high && (256 * high + low) % 256 == low;
    assert (b + [low])[..|b|] == b && [low][..0] == [];
  }

  function Pow256(k: nat): (p: nat)
    ensures p >= 1
  {
    if k == 0 then 1 else 256 * Pow256(k - 1)
  }

  /** A number needs at most `k` bytes exactly when it is below 256^k. */
  lemma {:induction false} BigEndianWidth(n: nat, k: nat)
    ensures |ToBigEndian(n)| <= k <==> n < Pow256(k)
  {
    if n > 0 && k > 0 {
      BigEndianWidth(n / 256, k - 1);
    }
  }

  /** 2^64: Go lengths and `uint64` values stay below it. */
  const MAX_LENGTH: nat := 0x1_0000_0000_0000_0000

  lemma LengthFitsEightBytes(n: nat)
    requires n < MAX_LENGTH
    ensures |ToBigEndian(n)| <= 8
  {
    assert Pow256(8) == 256 * Pow256(7) && Pow256(7) == 256 * Pow256(6) && Pow256(6) == 256 * Pow256(5);
    assert Pow256(5) == 256 * Pow256(4) && Pow256(4) == 256 * Pow256(3) && Pow256(3) == 256 * 65536;
    BigEndianWidth(n, 8);
  }

  /** A number is at least its leading digit. */
  lemma {:induction false} LeadingByteBound(b: Bytes)
    requires b != []
    ensures FromBigEndian(b) >= b[0]
  {
    if |b| > 1 {
      LeadingByteBound(b[..|b| - 1]);
    }
  }
}
