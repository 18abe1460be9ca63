/** Little-endian encodings of natural numbers as bytes. */
module LittleEndian {
  import opened Powers
  import opened ModArith

  type Byte = x: int | 0 <= x < 256

  function Pow256(n: nat): (r: nat)
    ensures r >= 1
  {
    PowPositive(256, n);
    Pow(256, n)
  }

  /** The `n` low-order bytes of `x`, least significant first. */
  function ToBytes(x: nat, n: nat): (b: seq<Byte>)
    ensures |b| == n
  {
    if n == 0 then [] else [x % 256] + ToBytes(x / 256, n - 1)
  }

  function FromBytes(b: seq<Byte>): (x: nat)
    ensures x < Pow256(|b|)
  {
    if b == [] then 0 else b[0] + 256 * FromBytes(b[1..])
  }

  lemma {:induction false} FromToBytes(x: nat, n: nat)
    requires x < Pow256(n)
    ensures FromBytes(ToBytes(x, n)) == x
  {
    if n > 0 {
      FromToBytes(x / 256, n - 1);
      assert ToBytes(x, n)[1..] == ToBytes(x / 256, n - 1);
    }
  }

  lemma {:induction false} ToFromBytes(b: seq<Byte>)
    ensures ToBytes(FromBytes(b), |b|) == b
  {
    if b != [] {
      ToFromBytes(b[1..]);
      LowByte(b[0], FromBytes(b[1..]));
      assert [b[0]] + b[1..] == b;
    }
  }

  lemma LowByte(low: Byte, high: nat)
    ensures (low + 256 * high) % 256 == low && (low + 256 * high) / 256 == high
  {}

  /** Byte i of an encoding is digit i in base 256, the lowest first. */
  lemma {:induction false} ByteAt(x: nat, n: nat, i: nat)
    requires i < n
    ensures ToBytes(x, n)[i] == (x / Pow256(i)) % 256
  {
    if i > 0 {
      ByteAt(x / 256, n - 1, i - 1);
      DivideTwice(x, Pow256(i - 1));
    }
  }

  lemma DivideTwice(x: nat, q: nat)
    requires q >= 1
    ensures (x / 256) / q == x / (256 * q)
  {
    var a := x / 256;
    var d := a / q;
    var b := x - 256 * a;
    var e := a - q * d;
    assert x == d * (256 * q) + (256 * e + b);
    assert 0 <= 256 * e + b < 256 * q;
    ModUnique(x, d, 256 * e + b, 256 * q);
  }
}
