/** Bytes and the fields made of them, as they appear in memory, messages and requests. */
module Wire {

  type Byte = x: int | 0 <= x < 256

  const U32: nat := 0x1_0000_0000

  function BE32(n: nat): (b: seq<Byte>)
    requires n < U32
    ensures |b| == 4
  {
    [n / 0x100_0000, n / 0x1_0000 % 256, n / 0x100 % 256, n % 256]
  }

  function FromBE32(b: seq<Byte>): nat
    requires |b| == 4
  {
    var x: int, y: int, z: int, w: int := b[0], b[1], b[2], b[3];
    ((x * 256 + y) * 256 + z) * 256 + w
  }

  lemma FieldRoundTrip(n: nat)
    requires n < U32
    ensures FromBE32(BE32(n)) == n
  {
    var a, b := n / 256, n / 0x1_0000;
    assert n / 0x100 / 256 == b && b / 256 == n / 0x100_0000;
    assert a == b * 256 + a % 256;
  }

  /** The most significant byte comes first. */
  lemma NetworkOrder(n: nat)
    requires n < U32
    ensures BE32(n)[0] == n / 0x100_0000 && BE32(n)[3] == n % 256
    ensures BE32(0x0102_0304) == [1, 2, 3, 4]
  {
  }

  function Pow256(w: nat): nat { if w == 0 then 1 else 256 * Pow256(w - 1) }

  function LittleEndian(v: nat, w: nat): (b: seq<Byte>)
    ensures |b| == w
  {
    if w == 0 then [] else [v % 256] + LittleEndian(v / 256, w - 1)
  }

  function FromLittleEndian(b: seq<Byte>): nat {
    if b == [] then 0
    else
      var first: int := b[0];
      first + 256 * FromLittleEndian(b[1..])
  }

  lemma QuotientIs(n: nat, d: nat, q: nat, r: nat)
    requires r < d && n == d * q + r
    ensures n / d == q && n % d == r
  {
    var k := n / d - q;
    assert n % d == r - d * k;
    assert k >= 1 ==> d * k >= d;
    assert k <= -1 ==> d * k + d <= 0;
  }

  /** The remainder by 256 q has the remainder by 256 as its low byte. */
  lemma LowByteOfRemainder(n: nat, q: nat)
    requires q > 0
    ensures n % (256 * q) == 256 * (n / 256 % q) + n % 256
  {
    var m := n / 256;
    var t, u, c := m / q, m % q, n % 256;
    assert 256 * u + c < 256 * q;
    assert n == 256 * (q * t + u) + c == (256 * q) * t + (256 * u + c);
    QuotientIs(n, 256 * q, t, 256 * u + c);
  }

  /** The bytes written read back as the number, as far as they can hold it. */
  lemma {:induction false} LittleEndianReads(v: nat, w: nat)
    ensures Pow256(w) > 0 && FromLittleEndian(LittleEndian(v, w)) == v % Pow256(w)
  {
    if w > 0 {
      LittleEndianReads(v / 256, w - 1);
      assert LittleEndian(v, w)[1..] == LittleEndian(v / 256, w - 1);
      LowByteOfRemainder(v, Pow256(w - 1));
    }
  }

  lemma LowByteFirst(n: nat, low: nat, high: nat, w: nat)
    requires w > 0 && low < 256 && n == 256 * high + low
    ensures LittleEndian(n, w) == [low] + LittleEndian(high, w - 1)
  {
    assert n % 256 == low && n / 256 == high;
  }

  lemma Regroup(hi: nat, p: nat, q: nat, l: nat, low: nat)
    requires p == 256 * q
    ensures hi * p + (256 * l + low) == 256 * (hi * q + l) + low
  {
    assert hi * p == 256 * (hi * q);
  }

  /** A number given by quotient and remainder is written remainder first. */
  lemma {:induction false} LittleEndianSplit(hi: nat, lo: nat, p: nat, a: nat, b: nat)
    requires lo < p == Pow256(a)
    ensures LittleEndian(hi * p + lo, a + b) == LittleEndian(lo, a) + LittleEndian(hi, b)
    decreases a
  {
    if a == 0 {
      assert hi * p + lo == hi;
    } else {
      var q, l, low := Pow256(a - 1), lo / 256, lo % 256;
      LittleEndianSplit(hi, l, q, a - 1, b);
      Regroup(hi, p, q, l, low);
      LowByteFirst(lo, low, l, a);
      LowByteFirst(hi * p + lo, low, hi * q + l, a + b);
    }
  }

  function Flatten<T>(ss: seq<seq<T>>): seq<T> {
    if ss == [] then [] else ss[0] + Flatten(ss[1..])
  }

  lemma {:induction false} FlattenAppend<T>(ss: seq<seq<T>>, s: seq<T>)
    ensures Flatten(ss + [s]) == Flatten(ss) + s
  {
    if ss == [] {
      assert ss + [s] == [s] && Flatten([s]) == s + Flatten([]);
    } else {
      assert (ss + [s])[1..] == ss[1..] + [s];
      FlattenAppend(ss[1..], s);
    }
  }
}
