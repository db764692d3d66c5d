/** Octets, 16-bit fields, an Option type and the little-endian layout that
    the HCI UART transport uses for multi-byte fields. */
module Bytes {

  type byte = x: int | 0 <= x < 0x100
  type u16 = x: int | 0 <= x < 0x1_0000

  datatype Option<+T> = None | Some(value: T)

  /** 256 to the power n: the number of values an n-byte field holds. */
  function Pow256(n: nat): (p: nat)
    ensures p > 0
  {
    if n == 0 then 1 else 0x100 * Pow256(n - 1)
  }

  /** The value of a 16-bit field stored low byte first. */
  function FromLe16(lo: byte, hi: byte): u16
  {
    lo + 0x100 * hi
  }

  /** A 16-bit field written low byte first (an opcode on the wire). */
  function Le16(v: u16): (r: seq<byte>)
    ensures |r| == 2 && FromLe16(r[0], r[1]) == v
  {
    [v % 0x100, v / 0x100]
  }

  /** The value of a little-endian byte string. */
  function FromLe(s: seq<byte>): nat
  {
    if s == [] then 0 else s[0] + 0x100 * FromLe(s[1..])
  }

  /** v stored into an n-byte little-endian field: C keeps v modulo 256^n
      (two's complement for a negative v). */
  function LeBytes(v: int, n: nat): (r: seq<byte>)
    ensures |r| == n
    decreases n
  {
    if n == 0 then [] else [v % 0x100] + LeBytes(v / 0x100, n - 1)
  }

  /** A positive multiple of a positive number is at least that number. */
  lemma {:induction false} MulAtLeast(d: int, k: int)
    requires d > 0 && k >= 1
    ensures d * k >= d
    decreases k
  {
    if k > 1 {
      MulAtLeast(d, k - 1);
      assert d * k == d * (k - 1) + d;
    }
  }

  /** Euclidean division has one quotient and one remainder. */
  lemma ModUnique(v: int, d: int, q: int, r: int)
    requires d > 0 && v == d * q + r && 0 <= r < d
    ensures v % d == r && v / d == q
  {
    var q', r' := v / d, v % d;
    assert v == d * q' + r';
    if q' < q {
      assert d * q - d * q' == d * (q - q');
      MulAtLeast(d, q - q');
      assert false;
    } else if q' > q {
      assert d * q' - d * q == d * (q' - q);
      MulAtLeast(d, q' - q);
      assert false;
    }
  }

  /** Splitting off the low byte of the remainder modulo 256 * p. */
  lemma ModSplit(v: int, p: nat)
    requires p > 0
    ensures v % (0x100 * p) == v % 0x100 + 0x100 * ((v / 0x100) % p)
  {
    var r, q := v % 0x100, v / 0x100;
    var r2, q2 := q % p, q / p;
    assert v == 0x100 * q + r;
    assert q == p * q2 + r2;
    assert v == (0x100 * p) * q2 + (0x100 * r2 + r) by {
      assert 0x100 * q == 0x100 * (p * q2) + 0x100 * r2;
      assert 0x100 * (p * q2) == (0x100 * p) * q2;
    }
    assert 0x100 * r2 <= 0x100 * (p - 1);
    ModUnique(v, 0x100 * p, q2, 0x100 * r2 + r);
  }

  /** Reading back an n-byte field gives the stored value modulo 256^n. */
  lemma {:induction false} LeBytesValue(v: int, n: nat)
    ensures FromLe(LeBytes(v, n)) == v % Pow256(n)
    decreases n
  {
    if n > 0 {
      var s := LeBytes(v, n);
      assert s[1..] == LeBytes(v / 0x100, n - 1);
      LeBytesValue(v / 0x100, n - 1);
      ModSplit(v, Pow256(n - 1));
    }
  }
}
