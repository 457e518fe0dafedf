/** AES-CTR and SHA-256 as unknown functions; everything about positions and chunks is concrete. */
module Ctr {
  import opened Bytes

  /** Byte i of a keystream is ks(i) (section 6.5 of NIST SP 800-38A). */
  type Keystream = nat -> byte

  /** The two primitives the handshake uses.  Every theorem holds for any choice of them. */
  datatype Crypto = Crypto(sha: bytes -> bytes, ctr: (bytes, bytes) -> Keystream)

  /** s combined with the keystream bytes from position pos on: both encryption and decryption. */
  function Mask(ks: Keystream, pos: nat, s: bytes): (r: bytes)
    ensures |r| == |s|
    ensures forall i :: 0 <= i < |s| ==> r[i] == Xor(s[i], ks(pos + i))
  {
    seq(|s|, i requires 0 <= i < |s| => Xor(s[i], ks(pos + i)))
  }

  /** Working chunk by chunk is working on the whole. */
  lemma MaskConcat(ks: Keystream, pos: nat, a: bytes, b: bytes)
    ensures Mask(ks, pos, a + b) == Mask(ks, pos, a) + Mask(ks, pos + |a|, b)
  {
    var whole, parts := Mask(ks, pos, a + b), Mask(ks, pos, a) + Mask(ks, pos + |a|, b);
    forall i | 0 <= i < |a + b| ensures whole[i] == parts[i] {
      if |a| <= i {
        assert parts[i] == Xor(b[i - |a|], ks(pos + |a| + (i - |a|)));
      }
    }
  }

  /** Decryption undoes encryption at the same position. */
  lemma MaskTwice(ks: Keystream, pos: nat, s: bytes)
    ensures Mask(ks, pos, Mask(ks, pos, s)) == s
  {
    forall i | 0 <= i < |s| ensures Mask(ks, pos, Mask(ks, pos, s))[i] == s[i] {
      XorTwice(s[i], ks(pos + i));
    }
  }

  /** cipher.Stream: a keystream and how much of it has been used. */
  class CtrStream {
    const ks: Keystream
    var pos: nat

    constructor (ks: Keystream)
      ensures this.ks == ks && pos == 0
    {
      this.ks := ks;
      pos := 0;
    }

    /** XORKeyStream(b[lo..hi], b[lo..hi]). */
    method XorKeyStream(b: array<byte>, lo: nat, hi: nat)
      requires lo <= hi <= b.Length
      modifies this, b
      ensures pos == old(pos) + (hi - lo)
      ensures b[..] == old(b[..lo]) + Mask(ks, old(pos), old(b[lo..hi])) + old(b[hi..])
    {
      var i := lo;
      while i < hi
        invariant lo <= i <= hi
        invariant pos == old(pos) + (i - lo)
        invariant forall k :: 0 <= k < lo || i <= k < b.Length ==> b[k] == old(b[k])
        invariant forall k :: lo <= k < i ==> b[k] == Xor(old(b[k]), ks(old(pos) + (k - lo)))
      {
        b[i] := Xor(b[i], ks(pos));
        pos := pos + 1;
        i := i + 1;
      }
    }

    /** XORKeyStream over a whole buffer. */
    method XorAll(b: array<byte>)
      modifies this, b
      ensures pos == old(pos) + b.Length
      ensures b[..] == Mask(ks, old(pos), old(b[..]))
    {
      assert b[0..b.Length] == b[..];
      XorKeyStream(b, 0, b.Length);
    }
  }
}
