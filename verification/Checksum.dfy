/** The Internet checksum of TunWorker, in 32-bit arithmetic (sections 1 and 2 of RFC 1071). */
module Checksum {
  import opened Bytes
  import opened Buffers

  /** Kotlin's Int: Dafny checks that no operation below leaves the range. */
  newtype int32 = x: int | -0x8000_0000 <= x < 0x8000_0000

  /** The sum of the 16-bit big-endian words, an odd last byte padded with zero. */
  function WordSum(s: bytes): nat {
    if s == [] then 0
    else if |s| == 1 then 256 * s[0] as nat
    else U16(s[0], s[1]) + WordSum(s[2..])
  }

  /** Carries added back in until the sum fits 16 bits. */
  function Fold(n: nat): nat {
    if n < 0x1_0000 then n else Fold(n % 0x1_0000 + n / 0x1_0000)
  }

  lemma Carry(n: nat)
    ensures var m := n % 0x1_0000 + n / 0x1_0000;
            m % 0xFFFF == n % 0xFFFF && (m == 0 <==> n == 0)
  {
    var q, r := n / 0x1_0000, n % 0x1_0000;
    assert n == (r + q) + 0xFFFF * q;
    SameResidue(r + q, q);
  }

  lemma {:induction false} SameResidue(m: nat, q: nat)
    ensures (m + 0xFFFF * q) % 0xFFFF == m % 0xFFFF
  {
  }

  /** The folded sum is the representative modulo 65535 that is zero only for a zero sum. */
  lemma {:induction false} FoldIs(n: nat)
    ensures Fold(n) <= 0xFFFF && Fold(n) % 0xFFFF == n % 0xFFFF && (Fold(n) == 0 <==> n == 0)
  {
    if 0x1_0000 <= n {
      Carry(n);
      FoldIs(n % 0x1_0000 + n / 0x1_0000);
    }
  }

  /** No other number is. */
  lemma FoldUnique(n: nat, r: nat)
    ensures r == Fold(n) <==> (r <= 0xFFFF && r % 0xFFFF == n % 0xFFFF && (r == 0 <==> n == 0))
  {
    FoldIs(n);
  }

  lemma AddResidues(a: nat, b: nat, a': nat, b': nat)
    requires a % 0xFFFF == a' % 0xFFFF && b % 0xFFFF == b' % 0xFFFF
    ensures (a + b) % 0xFFFF == (a' + b') % 0xFFFF
  {
    var r := a % 0xFFFF + b % 0xFFFF;
    SameResidue(r, a / 0xFFFF + b / 0xFFFF);
    SameResidue(r, a' / 0xFFFF + b' / 0xFFFF);
  }

  /** Folding two sums separately, adding and folding again is one fold of the whole. */
  lemma FoldParts(a: nat, b: nat)
    ensures Fold(Fold(a) + Fold(b)) == Fold(a + b)
  {
    FoldIs(a);
    FoldIs(b);
    AddResidues(Fold(a), Fold(b), a, b);
    FoldIs(Fold(a) + Fold(b));
    FoldUnique(a + b, Fold(Fold(a) + Fold(b)));
  }

  lemma {:induction false} WordSumConcat(a: bytes, b: bytes)
    requires |a| % 2 == 0
    ensures WordSum(a + b) == WordSum(a) + WordSum(b)
  {
    if a == [] {
      assert a + b == b;
    } else {
      assert (a + b)[2..] == a[2..] + b;
      WordSumConcat(a[2..], b);
    }
  }

  /** The same sum by position: bytes at even positions are the high halves of their words, an odd last one too. */
  function Weighed(s: bytes): nat {
    if s == [] then 0
    else
      var n := |s| - 1;
      Weighed(s[..n]) + s[n] as nat * (if n % 2 == 0 then 256 else 1)
  }

  lemma {:induction false} WordSumIsWeighed(s: bytes)
    ensures WordSum(s) == Weighed(s)
    decreases |s|
  {
    if s != [] {
      var n := |s| - 1;
      WordSumIsWeighed(s[..n]);
      WordSumSnoc(s[..n], s[n]);
      assert s[..n] + [s[n]] == s;
    }
  }

  lemma {:induction false} WordSumSnoc(s: bytes, b: byte)
    ensures WordSum(s + [b]) == WordSum(s) + b as nat * (if |s| % 2 == 0 then 256 else 1)
    decreases |s|
  {
    if |s| <= 1 {
      assert (s + [b])[|s|] == b;
      assert |s| == 1 ==> (s + [b])[2..] == [] && U16(s[0], b) == 256 * s[0] as nat + b as nat;
    } else {
      assert (s + [b])[2..] == s[2..] + [b];
      WordSumSnoc(s[2..], b);
    }
  }

  /** An odd last byte counts as if a zero byte followed (section 1 of RFC 1071). */
  lemma OddPadded(s: bytes)
    requires |s| % 2 == 1
    ensures WordSum(s) == WordSum(s + [0])
  {
    WordSumSnoc(s, 0);
  }

  predicate AllZero(s: bytes) {
    forall i :: 0 <= i < |s| ==> s[i] == 0
  }

  /** Only zero bytes have a zero sum, before and after folding. */
  lemma {:induction false} SumZeroIff(s: bytes)
    ensures WordSum(s) == 0 <==> AllZero(s)
    ensures Fold(WordSum(s)) == 0 <==> AllZero(s)
  {
    if 2 <= |s| {
      SumZeroIff(s[2..]);
      assert AllZero(s) <==> s[0] == 0 && s[1] == 0 && AllZero(s[2..]) by {
        assert forall i :: 2 <= i < |s| ==> s[i] == s[2..][i - 2];
      }
    }
    FoldIs(WordSum(s));
  }

  /** x.inv() and 0xFFFF. */
  function Complement(x: nat): (c: nat)
    requires x <= 0xFFFF
    ensures c == 0xFFFF - x
  {
    (-1 - x) % 0x1_0000
  }

  lemma WordAt(before: bytes, w: nat, after: bytes)
    requires |before| % 2 == 0 && w < 0x1_0000
    ensures WordSum(before + (Be16(w) + after)) == WordSum(before) + w + WordSum(after)
  {
    WordSumConcat(before, Be16(w) + after);
    WordSumConcat(Be16(w), after);
    OneWord(w);
  }

  /** Adding the complement of a non-zero folded sum gives all ones. */
  lemma ComplementCloses(sum: nat)
    ensures Fold(sum) <= 0xFFFF
    ensures 0 < sum ==> Fold(sum + Complement(Fold(sum))) == 0xFFFF
  {
    FoldIs(sum);
    var c := Complement(Fold(sum));
    AddResidues(sum, c, Fold(sum), c);
    FoldUnique(sum + c, 0xFFFF);
  }

  /** A checksum inserted at an even position where a zero word stood makes the whole sum 0xFFFF. */
  lemma InsertedVerifies(before: bytes, after: bytes, sum: nat, c: nat)
    requires |before| % 2 == 0 && sum == WordSum(before + (Be16(0) + after)) && 0 < sum
    requires Fold(sum) <= 0xFFFF && c == Complement(Fold(sum))
    ensures Fold(WordSum(before + (Be16(c) + after))) == 0xFFFF
  {
    InsertedSum(before, c, after);
    ComplementCloses(sum);
  }

  lemma InsertedSum(before: bytes, c: nat, after: bytes)
    requires |before| % 2 == 0 && c < 0x1_0000
    ensures WordSum(before + (Be16(c) + after)) == WordSum(before + (Be16(0) + after)) + c
  {
    WordAt(before, 0, after);
    WordAt(before, c, after);
  }

  lemma OneWord(n: nat)
    requires n < 0x1_0000
    ensures WordSum(Be16(n)) == n
  {
    Be16RoundTrip(n);
    assert Be16(n)[2..] == [];
  }

  // ---- The code ----

  /** The fold loop. */
  method FoldLoop(start: int32) returns (sum: int32)
    requires 0 <= start
    ensures sum as int == Fold(start as nat)
  {
    sum := start;
    while sum / 0x1_0000 != 0
      invariant 0 <= sum && Fold(sum as nat) == Fold(start as nat)
      decreases sum
    {
      sum := sum % 0x1_0000 + sum / 0x1_0000;
    }
  }

  /** Up to 65536 bytes, the running sum stays inside a signed 32-bit Int. */
  method OnesComplementSum(data: array<byte>, offset: nat, len: nat) returns (sum: int32)
    requires offset + len <= data.Length && len <= 0x1_0000
    ensures sum as int == Fold(WordSum(data[offset..offset + len])) == Fold(Weighed(data[offset..offset + len]))
    ensures sum == 0 <==> AllZero(data[offset..offset + len])
  {
    sum := SumWords(data, offset, len);
    sum := FoldLoop(sum);
    SumZeroIff(data[offset..offset + len]);
    WordSumIsWeighed(data[offset..offset + len]);
  }

  /** The loop over the words, and the odd last byte. */
  method SumWords(data: array<byte>, offset: nat, len: nat) returns (sum: int32)
    requires offset + len <= data.Length && len <= 0x1_0000
    ensures sum as int == WordSum(data[offset..offset + len])
  {
    sum := 0;
    ghost var s := data[offset..offset + len];
    var i := offset;
    ghost var words := 0;
    while i < offset + len - 1
      invariant i == offset + 2 * words <= offset + len
      invariant 0 <= sum as int <= 0xFFFF * words
      invariant sum as int + WordSum(s[2 * words..]) == WordSum(s)
    {
      var high, low := data[i] as int32, data[i + 1] as int32;
      ghost var rest := s[2 * words..];
      DropDrop(s, 2 * words, 2);
      assert U16(rest[0], rest[1]) == (high * 256 + low) as int;
      sum := sum + (high * 256 + low);
      i := i + 2;
      words := words + 1;
    }
    if len % 2 != 0 {
      assert s[2 * words..] == [data[offset + len - 1]];
      sum := sum + (data[offset + len - 1] as int32) * 256;
    }
  }

  method IpChecksum(data: array<byte>, offset: nat, len: nat) returns (c: nat)
    requires offset + len <= data.Length && len <= 0x1_0000
    ensures Fold(WordSum(data[offset..offset + len])) <= 0xFFFF
    ensures c == Complement(Fold(WordSum(data[offset..offset + len])))
  {
    var sum := OnesComplementSum(data, offset, len);
    FoldIs(WordSum(data[offset..offset + len]));
    return Complement(sum as nat);
  }

  /** Source, destination, zero, protocol and TCP length (section 3.1 of RFC 9293). */
  function Pseudo(srcIp: int, dstIp: int, tcpLen: nat): (p: bytes)
    ensures |p| == 12
  {
    Be32(srcIp) + Be32(dstIp) + [0] + [6] + Be16(tcpLen)
  }

  method PseudoSum(srcIp: int, dstIp: int, tcpLen: nat) returns (sum: int32)
    ensures sum as int == Fold(WordSum(Pseudo(srcIp, dstIp, tcpLen)))
  {
    var pseudo := new ByteBuffer(12);
    pseudo.PutInt(srcIp);
    pseudo.PutInt(dstIp);
    pseudo.Put(0);
    pseudo.Put(6);
    pseudo.PutShort(tcpLen);
    assert pseudo.data[0..12] == pseudo.Written();
    assert [] + Be32(srcIp) == Be32(srcIp);
    sum := OnesComplementSum(pseudo.data, 0, 12);
  }

  /** The two parts are summed and folded separately; the result is that of one sum over both. */
  method TcpChecksum(pkt: array<byte>, srcIp: int, dstIp: int, tcpLen: nat) returns (c: nat)
    requires 20 + tcpLen <= pkt.Length && tcpLen <= 0x1_0000
    ensures Fold(WordSum(Pseudo(srcIp, dstIp, tcpLen) + pkt[20..20 + tcpLen])) <= 0xFFFF
    ensures c == Complement(Fold(WordSum(Pseudo(srcIp, dstIp, tcpLen) + pkt[20..20 + tcpLen])))
  {
    ghost var p, segment := Pseudo(srcIp, dstIp, tcpLen), pkt[20..20 + tcpLen];
    var sum := PseudoSum(srcIp, dstIp, tcpLen);
    var more := OnesComplementSum(pkt, 20, tcpLen);
    FoldIs(WordSum(p));
    FoldIs(WordSum(segment));
    sum := FoldLoop(sum + more);
    FoldParts(WordSum(p), WordSum(segment));
    WordSumConcat(p, segment);
    FoldIs(WordSum(p + segment));
    return Complement(sum as nat);
  }
}
