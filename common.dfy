/** Small shared vocabulary: an optional value and the byte types of the two sides. */
module Common {

  datatype Option<+T> = None | Some(value: T)

  /** A byte as an int in 0..255: a uint8_t of the firmware, an element of a Python bytes object. */
  type Byte = b: int | 0 <= b < 256

  /** 256 to the power n, the range of an n-byte little-endian number. */
  function Pow256(n: nat): (p: nat)
    ensures p >= 1
  {
    if n == 0 then 1 else 256 * Pow256(n - 1)
  }

  /** The unsigned little-endian value of a byte string. */
  function LittleEndian(bs: seq<Byte>): (v: nat)
    ensures v < Pow256(|bs|)
  {
    if bs == [] then 0 else bs[0] + 256 * LittleEndian(bs[1..])
  }

  /** The n low bytes of u, least significant first. */
  function LittleEndianBytes(u: nat, n: nat): (bs: seq<Byte>)
    ensures |bs| == n
  {
    if n == 0 then [] else [u % 256] + LittleEndianBytes(u / 256, n - 1)
  }

  lemma {:induction false} LittleEndianRoundTrip(bs: seq<Byte>)
    ensures LittleEndianBytes(LittleEndian(bs), |bs|) == bs
  {
    if bs != [] {
      LittleEndianRoundTrip(bs[1..]);
      assert (bs[0] + 256 * LittleEndian(bs[1..])) / 256 == LittleEndian(bs[1..]);
    }
  }

  lemma {:induction false} LittleEndianBytesValue(u: nat, n: nat)
    requires u < Pow256(n)
    ensures LittleEndian(LittleEndianBytes(u, n)) == u
  {
    if n > 0 {
      LittleEndianBytesValue(u / 256, n - 1);
      var bs := LittleEndianBytes(u, n);
      assert bs[1..] == LittleEndianBytes(u / 256, n - 1);
    }
  }

  lemma {:induction false} LittleEndianAppend(a: seq<Byte>, b: seq<Byte>)
    ensures LittleEndian(a + b) == LittleEndian(a) + Pow256(|a|) * LittleEndian(b)
  {
    if a != [] {
      assert (a + b)[1..] == a[1..] + b;
      LittleEndianAppend(a[1..], b);
      var x, y, p := LittleEndian(a[1..]), LittleEndian(b), Pow256(|a| - 1);
      assert LittleEndian(a + b) == a[0] + 256 * (x + p * y);
      assert LittleEndian(a) == a[0] + 256 * x;
      assert Pow256(|a|) == 256 * p;
      Distribute(x, p, y);
    } else {
      assert a + b == b;
    }
  }

  lemma Distribute(x: int, p: int, y: int)
    ensures 256 * (x + p * y) == 256 * x + (256 * p) * y
  {
  }

  /** Division by p undoes p * y + x when the remainder x is below p. */
  lemma ModOfMultiplePlus(x: nat, y: nat, p: nat)
    requires x < p
    ensures (x + p * y) % p == x && (x + p * y) / p == y
  {
    var n := x + p * y;
    var q, r := n / p, n % p;
    assert n == q * p + r && 0 <= r < p;
    MulLe(q + 1, y, p);
    MulLe(y + 1, q, p);
  }

  lemma MulLe(a: int, b: int, p: nat)
    ensures a <= b ==> a * p <= b * p
  {
  }
}
