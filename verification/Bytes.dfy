/** Bytes, fixed-width integers on the wire, and slices. */
module Bytes {

  newtype byte = x: int | 0 <= x < 256
  type bytes = seq<byte>

  datatype Option<+T> = None | Some(value: T)

  // Big-endian encodings.  Like Go's uint16(n) conversion, Be16 keeps the low 16 bits only.

  function Byte(n: int): byte {
    (n % 256) as byte
  }

  function Be16(n: int): bytes {
    [Byte(n / 256), Byte(n)]
  }

  function Be24(n: int): bytes {
    [Byte(n / 0x1_0000)] + Be16(n)
  }

  function Be32(n: int): bytes {
    Be16(n / 0x1_0000) + Be16(n)
  }

  function U16(hi: byte, lo: byte): (n: nat)
    ensures n < 0x1_0000
  {
    256 * hi as nat + lo as nat
  }

  function U32(b3: byte, b2: byte, b1: byte, b0: byte): (n: nat)
    ensures n < 0x1_0000_0000
  {
    0x1_0000 * U16(b3, b2) + U16(b1, b0)
  }

  lemma Be16RoundTrip(n: int)
    ensures U16(Be16(n)[0], Be16(n)[1]) == n % 0x1_0000
  {
  }

  lemma Be32RoundTrip(n: int)
    ensures var b := Be32(n); U32(b[0], b[1], b[2], b[3]) == n % 0x1_0000_0000
  {
    Be16RoundTrip(n / 0x1_0000);
    Be16RoundTrip(n);
  }

  function Zeros(n: nat): (s: bytes)
    ensures |s| == n && forall i :: 0 <= i < n ==> s[i] == 0
  {
    seq(n, i => 0)
  }

  function Min(a: int, b: int): int {
    if a < b then a else b
  }

  function Reverse(s: bytes): (r: bytes)
    ensures |r| == |s|
    ensures forall i :: 0 <= i < |s| ==> r[i] == s[|s| - 1 - i]
  {
    seq(|s|, i requires 0 <= i < |s| => s[|s| - 1 - i])
  }

  // Exclusive or of the low k bits: bit i of the result is set when the operands' bits i differ.

  function Pow2(k: nat): nat {
    if k == 0 then 1 else 2 * Pow2(k - 1)
  }

  function XorBit(a: nat, b: nat): (r: nat)
    ensures r < 2
  {
    if a == b then 0 else 1
  }

  function XorBits(a: nat, b: nat, k: nat): (r: nat)
    ensures r < Pow2(k)
  {
    if k == 0 then 0 else 2 * XorBits(a / 2, b / 2, k - 1) + XorBit(a % 2, b % 2)
  }

  lemma LowBit(high: nat, low: nat)
    requires low < 2
    ensures (2 * high + low) / 2 == high && (2 * high + low) % 2 == low
  {
  }

  lemma {:induction false} XorBitsTwice(a: nat, b: nat, k: nat)
    requires a < Pow2(k)
    ensures XorBits(XorBits(a, b, k), b, k) == a
  {
    if k != 0 {
      var high, low := XorBits(a / 2, b / 2, k - 1), XorBit(a % 2, b % 2);
      LowBit(high, low);
      XorBitsTwice(a / 2, b / 2, k - 1);
    }
  }

  function Xor(a: byte, b: byte): byte {
    assert Pow2(8) == 256;
    XorBits(a as nat, b as nat, 8) as byte
  }

  lemma XorTwice(a: byte, b: byte)
    ensures Xor(Xor(a, b), b) == a
  {
    assert Pow2(8) == 256;
    XorBitsTwice(a as nat, b as nat, 8);
  }

  /** Bit i of a number. */
  function BitAt(x: nat, i: nat): nat {
    PowPositive(i);
    x / Pow2(i) % 2
  }

  lemma PowPositive(i: nat)
    ensures 0 < Pow2(i)
  {
  }

  lemma BitOfHalf(x: nat, i: nat)
    requires 0 < i < 8
    ensures BitAt(x, i) == BitAt(x / 2, i - 1)
  {
    assert Pow2(0) == 1 && Pow2(1) == 2 && Pow2(2) == 4 && Pow2(3) == 8;
    assert Pow2(4) == 16 && Pow2(5) == 32 && Pow2(6) == 64 && Pow2(7) == 128;
    HalveFirst(x);
  }

  lemma HalveFirst(x: nat)
    ensures x / 2 == x / 2 / 1 && x / 4 == x / 2 / 2 && x / 8 == x / 2 / 4 && x / 16 == x / 2 / 8
    ensures x / 32 == x / 2 / 16 && x / 64 == x / 2 / 32 && x / 128 == x / 2 / 64
  {
  }

  lemma {:induction false} XorBitsAt(a: nat, b: nat, k: nat, i: nat)
    requires i < k <= 8
    ensures BitAt(XorBits(a, b, k), i) == if BitAt(a, i) != BitAt(b, i) then 1 else 0
  {
    LowBit(XorBits(a / 2, b / 2, k - 1), XorBit(a % 2, b % 2));
    if i == 0 {
      assert Pow2(0) == 1;
    } else {
      BitOfHalf(XorBits(a, b, k), i);
      BitOfHalf(a, i);
      BitOfHalf(b, i);
      XorBitsAt(a / 2, b / 2, k - 1, i - 1);
    }
  }

  /** Exclusive or: a bit of the result is set exactly when the operands differ in it. */
  lemma XorAt(a: byte, b: byte, i: nat)
    requires i < 8
    ensures BitAt(Xor(a, b) as nat, i) == if BitAt(a as nat, i) != BitAt(b as nat, i) then 1 else 0
  {
    assert Pow2(8) == 256;
    XorBitsAt(a as nat, b as nat, 8, i);
  }

  /** Network byte order, spelled out. */
  lemma BigEndian16(a: byte, b: byte, n: nat)
    requires n == 256 * a as nat + b as nat
    ensures U16(a, b) == n && Be16(n) == [a, b]
  {
    LowHalf(0, a, b, n);
  }

  lemma BigEndian32(a: byte, b: byte, c: byte, d: byte, n: nat)
    requires n == 0x100_0000 * a as nat + 0x1_0000 * b as nat + 0x100 * c as nat + d as nat
    ensures U32(a, b, c, d) == n && Be32(n) == [a, b, c, d]
  {
    var high, low := 256 * a as nat + b as nat, 256 * c as nat + d as nat;
    HighHalf(high, low, n);
    LowHalf(high, c, d, n);
    LowHalf(0, a, b, high);
  }

  lemma HighHalf(high: nat, low: nat, n: nat)
    requires low < 0x1_0000 && n == 0x1_0000 * high + low
    ensures n / 0x1_0000 == high
  {
  }

  lemma LowHalf(high: int, a: byte, b: byte, n: int)
    requires n == 0x1_0000 * high + 256 * a as int + b as int
    ensures Be16(n) == [a, b]
  {
    var m := n / 256;
    assert m == 256 * high + a as int;
    assert m % 256 == a as int && n % 256 == b as int;
  }

  lemma ConcatAssoc(a: bytes, b: bytes, c: bytes)
    ensures (a + b) + c == a + (b + c)
  {
  }

  lemma SplitConcat(s: bytes, t: bytes, n: nat)
    requires n <= |s|
    ensures (s + t)[..n] == s[..n] && (s + t)[n..] == s[n..] + t
  {
  }

  /** Dropping twice is dropping once; the two facts every stream argument needs. */
  lemma DropDrop(s: bytes, i: nat, j: nat)
    requires i + j <= |s|
    ensures s[i..][j..] == s[i + j..]
    ensures s[i..][..j] == s[i..i + j]
  {
  }

  // Slices of slices.  Bounds are parameters of their own: the solver matches names better than sums.

  lemma SliceSlice(s: bytes, a: nat, b: nat, c: nat, d: nat, lo: nat, hi: nat)
    requires a <= lo <= hi <= b <= |s| && lo == a + c && hi == a + d
    ensures s[a..b][c..d] == s[lo..hi]
  {
    assert forall i :: 0 <= i < d - c ==> s[a..b][c..d][i] == s[lo..hi][i];
  }

  lemma SliceDrop(s: bytes, a: nat, b: nat, c: nat, lo: nat)
    requires a <= lo <= b <= |s| && lo == a + c
    ensures s[a..b][c..] == s[lo..b]
  {
  }

  lemma DropTo(s: bytes, a: nat, c: nat, lo: nat)
    requires a <= lo <= |s| && lo == a + c
    ensures s[a..][c..] == s[lo..]
  {
  }

  lemma DropSlice(s: bytes, a: nat, c: nat, d: nat, lo: nat, hi: nat)
    requires a <= lo <= hi <= |s| && lo == a + c && hi == a + d
    ensures s[a..][c..d] == s[lo..hi]
  {
    assert forall i :: 0 <= i < d - c ==> s[a..][c..d][i] == s[lo..hi][i];
  }

  /** part stands at position pos of s. */
  predicate Holds(s: bytes, pos: nat, part: bytes) {
    pos + |part| <= |s| && s[pos..pos + |part|] == part
  }

  lemma HoldsSplit(s: bytes, pos: nat, a: bytes, mid: nat, b: bytes)
    requires Holds(s, pos, a + b) && mid == pos + |a|
    ensures Holds(s, pos, a) && Holds(s, mid, b)
  {
    var whole := s[pos..pos + |a + b|];
    assert whole[..|a|] == a && whole[|a|..] == b;
    assert s[pos..mid] == whole[..|a|] && s[mid..mid + |b|] == whole[|a|..];
  }

  lemma HoldsByte(s: bytes, pos: nat, part: bytes, i: nat)
    requires Holds(s, pos, part) && i < |part|
    ensures s[pos + i] == part[i]
  {
    assert s[pos + i] == s[pos..pos + |part|][i];
  }

  /** Two-byte big-endian length at pos. */
  function LenAt(s: bytes, pos: nat): nat
    requires pos + 2 <= |s|
  {
    U16(s[pos], s[pos + 1])
  }

  lemma LenAtSlice(s: bytes, a: nat, b: nat, i: nat, at: nat)
    requires a <= b <= |s| && at == a + i && at + 2 <= b
    ensures LenAt(s[a..b], i) == LenAt(s, at)
  {
    assert s[a..b][i] == s[at] && s[a..b][i + 1] == s[at + 1];
  }

  lemma LenAtDrop(s: bytes, a: nat, i: nat, at: nat)
    requires a <= |s| && at == a + i && at + 2 <= |s|
    ensures LenAt(s[a..], i) == LenAt(s, at)
  {
    assert s[a..][i] == s[at] && s[a..][i + 1] == s[at + 1];
  }

  lemma HoldsLen(s: bytes, pos: nat, n: nat)
    requires Holds(s, pos, Be16(n)) && n < 0x1_0000
    ensures pos + 2 <= |s| && LenAt(s, pos) == n
  {
    HoldsByte(s, pos, Be16(n), 0);
    HoldsByte(s, pos, Be16(n), 1);
    Be16RoundTrip(n);
  }

  lemma HoldsWhole(s: bytes)
    ensures Holds(s, 0, s)
  {
  }
}
