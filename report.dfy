/** The 25-byte touch report of the Waveshare 7-inch controller, described
    independently of either driver: its length, where each of the five points
    lies, the byte order of each point, and what a bit of the pressed mask
    means. Both drivers are checked against these definitions. */
module Report {

  /** An unsigned 8-bit value, as read from the device. */
  type byte = b: int | 0 <= b < 256

  /** Every report the controller sends has exactly this many bytes. */
  const ReportLength: nat := 25

  /** A byte sequence of exactly the report length. */
  type RawReport = r: seq<byte> | |r| == ReportLength witness seq(ReportLength, _ => 0)

  /** Number of finger slots a report can describe. */
  const SlotCount: nat := 5

  /** An unsigned big-endian 16-bit number made of two bytes. */
  function Be16(hi: byte, lo: byte): (r: nat)
    ensures r < 0x1_0000
  {
    hi * 256 + lo
  }

  /** Offset of the four bytes that carry point k: 2 for the first point,
      then 8, 12, 16 and 20. */
  function PointOffset(k: nat): (off: nat)
    requires k < SlotCount
    ensures off + 4 <= ReportLength
    ensures k > 0 ==> off == 4 * k + 4
  {
    if k == 0 then 2 else 4 * k + 4
  }

  /** The X coordinate of point k. The first point is stored X then Y;
      points 2 to 5 are stored Y then X (a quirk of the hardware). */
  function ContactX(report: seq<byte>, k: nat): nat
    requires |report| == ReportLength && k < SlotCount
  {
    var off := PointOffset(k);
    if k == 0 then Be16(report[off], report[off + 1]) else Be16(report[off + 2], report[off + 3])
  }

  /** The Y coordinate of point k (see ContactX for the byte order). */
  function ContactY(report: seq<byte>, k: nat): nat
    requires |report| == ReportLength && k < SlotCount
  {
    var off := PointOffset(k);
    if k == 0 then Be16(report[off + 2], report[off + 3]) else Be16(report[off], report[off + 1])
  }

  /** 2 to the power k. */
  function Pow2(k: nat): (r: nat)
    ensures r >= 1
  {
    if k == 0 then 1 else 2 * Pow2(k - 1)
  }

  /** Bit k of n is one: what the C test `n & (1 << k)` being nonzero means
      for a non-negative n. */
  predicate HasBit(n: nat, k: nat)
  {
    if k == 0 then n % 2 == 1 else HasBit(n / 2, k - 1)
  }

  /** Number of one bits in n. */
  function PopCount(n: nat): nat
  {
    if n == 0 then 0 else n % 2 + PopCount(n / 2)
  }

  /** Number of one bits of n among bits 0 .. k-1. */
  function LowBitCount(n: nat, k: nat): nat
  {
    if k == 0 then 0 else LowBitCount(n, k - 1) + (if HasBit(n, k - 1) then 1 else 0)
  }

  /** Keeping the low k bits of n (the C mask `n & (2^k - 1)`, written
      `n % 2^k` here) keeps bits 0 .. k-1 as they were and clears every
      higher bit. */
  lemma {:induction false} LowBitsMask(n: nat, k: nat, j: nat)
    ensures HasBit(n % Pow2(k), j) <==> j < k && HasBit(n, j)
  {
    if k == 0 {
      assert n % Pow2(k) == 0;
      ZeroHasNoBits(j);
    } else if j == 0 {
      assert (n % Pow2(k)) % 2 == n % 2 by { ModPow2Split(n, k); }
    } else {
      ModPow2Split(n, k);
      assert (n % Pow2(k)) / 2 == (n / 2) % Pow2(k - 1);
      LowBitsMask(n / 2, k - 1, j - 1);
    }
  }

  lemma {:induction false} ZeroHasNoBits(j: nat)
    ensures !HasBit(0, j)
  {
    if j > 0 { ZeroHasNoBits(j - 1); }
  }

  /** The low k+1 bits of n are bit 0 followed by the low k bits of n / 2. */
  lemma ModPow2Split(n: nat, k: nat)
    requires k > 0
    ensures n % Pow2(k) == n % 2 + 2 * ((n / 2) % Pow2(k - 1))
    ensures (n % Pow2(k)) % 2 == n % 2
    ensures (n % Pow2(k)) / 2 == (n / 2) % Pow2(k - 1)
  {
    var p := Pow2(k - 1);
    assert Pow2(k) == 2 * p;
    ModDoubleSplit(n, p);
    HalfOfSplit(n % 2, (n / 2) % p);
  }

  /** Dividing by 2p is dividing by 2 and then by p. */
  lemma ModDoubleSplit(n: nat, p: nat)
    requires p > 0
    ensures n % (2 * p) == n % 2 + 2 * ((n / 2) % p)
  {
    var h, b := n / 2, n % 2;
    var q, s := h / p, h % p;
    DivMod(h, p);
    DivMod(n, 2);
    DoubleProduct(q, p);
    assert n == q * (2 * p) + (b + 2 * s);
    ModUnique(n, 2 * p, q, b + 2 * s);
  }

  lemma DoubleProduct(q: int, p: int)
    ensures 2 * (q * p) == q * (2 * p)
  {
  }

  lemma HalfOfSplit(b: nat, s: nat)
    requires b < 2
    ensures (b + 2 * s) % 2 == b && (b + 2 * s) / 2 == s
  {
    ModUnique(b + 2 * s, 2, s, b);
  }

  lemma DivMod(n: nat, d: nat)
    requires d > 0
    ensures n == (n / d) * d + n % d && 0 <= n % d < d
  {
  }

  /** The only multiple of d strictly between -d and d is 0. */
  lemma SmallMultiple(x: int, d: int)
    requires d > 0 && -d < x * d < d
    ensures x == 0
  {
  }

  /** Quotient and remainder are unique. */
  lemma ModUnique(n: nat, d: nat, q: nat, r: nat)
    requires d > 0 && r < d && n == q * d + r
    ensures n % d == r && n / d == q
  {
    var q', r' := n / d, n % d;
    DivMod(n, d);
    assert (q' - q) * d == r - r';
    SmallMultiple(q' - q, d);
  }

  /** The one bits of n below bit k, counted by halving, are the one bits
      of n among bits 0 .. k-1. */
  lemma {:induction false} PopCountOfLowBits(n: nat, k: nat)
    ensures PopCount(n % Pow2(k)) == LowBitCount(n, k)
  {
    if k == 0 {
      assert n % Pow2(k) == 0;
    } else {
      var m := n % Pow2(k);
      ModPow2Split(n, k);
      PopCountOfLowBits(n / 2, k - 1);
      LowBitCountShift(n, k);
      if m == 0 {
        assert m / 2 == 0;
      }
    }
  }

  /** Counting bits 0 .. k-1 of n is bit 0 plus counting bits 0 .. k-2 of n / 2. */
  lemma {:induction false} LowBitCountShift(n: nat, k: nat)
    requires k > 0
    ensures LowBitCount(n, k) == n % 2 + LowBitCount(n / 2, k - 1)
  {
    if k > 1 {
      LowBitCountShift(n, k - 1);
    }
  }

  /** Concatenation regrouped. */
  lemma AppendAssoc<T>(a: seq<T>, b: seq<T>, c: seq<T>)
    ensures a + b + c == a + (b + c)
  {
  }
}
