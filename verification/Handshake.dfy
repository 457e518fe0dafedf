/** The secret search of newObfuscatedClientConn (dd) and newFakeTLSClientConn (ee), and its client. */
module Handshake {
  import opened Bytes
  import opened Ctr
  import opened Net
  import ClientHello
  import FakeTls
  import Obfuscated

  datatype SecretType = DD | EE
  datatype Secret = Secret(raw: bytes, kind: SecretType, domain: bytes)

  /** strings.EqualFold on host names, left open. */
  type Fold = (bytes, bytes) -> bool

  // ---- Key derivation, as the proxy's documentation gives it ----

  function Upstream(c: Crypto, nonce: bytes, raw: bytes): Keystream
    requires |nonce| == 64
  {
    c.ctr(c.sha(nonce[8..40] + raw), nonce[40..56])
  }

  function Downstream(c: Crypto, nonce: bytes, raw: bytes): Keystream
    requires |nonce| == 64
  {
    c.ctr(c.sha(Reverse(nonce[8..40]) + raw), Reverse(nonce[40..56]))
  }

  function Le32(s: bytes): (n: nat)
    requires |s| == 4
    ensures n < 0x1_0000_0000
  {
    U32(s[3], s[2], s[1], s[0])
  }

  const ABRIDGED := 0xEFEFEFEF
  const INTERMEDIATE := 0xDDDDDDDD
  const FULL := 0xFEFEFEFE

  predicate ProtoOk(proto: nat) {
    proto == ABRIDGED || proto == INTERMEDIATE || proto == FULL
  }

  /** int16(int32(n)): the low 16 bits, signed. */
  function DcId(n: nat): (dc: int)
    ensures -0x8000 <= dc < 0x8000
  {
    var low := n % 0x1_0000;
    if low < 0x8000 then low else low - 0x1_0000
  }

  /** The decoded inner nonce under one secret. */
  function Inner(c: Crypto, nonce: bytes, raw: bytes): (inner: bytes)
    requires |nonce| == 64
    ensures |inner| == 64
  {
    Mask(Upstream(c, nonce, raw), 0, nonce)
  }

  predicate TagOk(c: Crypto, nonce: bytes, raw: bytes)
    requires |nonce| == 64
  {
    ProtoOk(Le32(Inner(c, nonce, raw)[56..60]))
  }

  /** Which secrets a handshake tries: by type, and for ee by server name when both sides have one. */
  predicate Eligible(kind: SecretType, sni: bytes, fold: Fold, s: Secret) {
    s.kind == kind && (kind == EE ==> s.domain == [] || sni == [] || fold(sni, s.domain))
  }

  predicate Matches(c: Crypto, kind: SecretType, sni: bytes, fold: Fold, nonce: bytes, s: Secret)
    requires |nonce| == 64
  {
    Eligible(kind, sni, fold, s) && TagOk(c, nonce, s.raw)
  }

  /** The matching secret, its DC id and inner nonce, and the two ciphers left in place. */
  datatype Found = NoMatch | Found(index: nat, dc: int, inner: bytes, enc: CtrStream, dec: CtrStream)

  /** The result is about the first matching secret, with keystreams positioned at 64 and 0. */
  ghost predicate IsFirstMatch(c: Crypto, kind: SecretType, sni: bytes, fold: Fold, nonce: bytes,
                               secrets: seq<Secret>, r: Found)
    requires |nonce| == 64
    reads if r.Found? then {r.enc, r.dec} else {}
  {
    match r
    case NoMatch => forall i :: 0 <= i < |secrets| ==> !Matches(c, kind, sni, fold, nonce, secrets[i])
    case Found(index, dc, inner, enc, dec) =>
      && index < |secrets| && Matches(c, kind, sni, fold, nonce, secrets[index])
      && (forall i :: 0 <= i < index ==> !Matches(c, kind, sni, fold, nonce, secrets[i]))
      && inner == Inner(c, nonce, secrets[index].raw) && dc == DcId(Le32(inner[60..64]))
      && enc != dec
      && enc.ks == Upstream(c, nonce, secrets[index].raw) && enc.pos == 64
      && dec.ks == Downstream(c, nonce, secrets[index].raw) && dec.pos == 0
  }

  method ReverseBytes(b: bytes) returns (r: array<byte>)
    ensures fresh(r) && r[..] == Reverse(b)
  {
    r := new byte[|b|];
    for i := 0 to |b|
      invariant forall k :: 0 <= k < i ==> r[|b| - 1 - k] == b[k]
    {
      r[|b| - 1 - i] := b[i];
    }
    assert forall k :: 0 <= k < |b| ==> r[k] == b[|b| - 1 - k] by {
      forall k | 0 <= k < |b| ensures r[k] == b[|b| - 1 - k] {
        assert r[|b| - 1 - (|b| - 1 - k)] == b[|b| - 1 - k];
      }
    }
  }

  method Concat(a: bytes, b: bytes) returns (r: array<byte>)
    ensures fresh(r) && r[..] == a + b
  {
    r := new byte[|a| + |b|];
    Copy(r, 0, a);
    Copy(r, |a|, b);
  }

  /** encStream and inner: the whole nonce decrypted, which leaves the stream at position 64. */
  method Decode(c: Crypto, nonce: bytes, raw: bytes) returns (enc: CtrStream, inner: bytes)
    requires |nonce| == 64
    ensures fresh(enc) && enc.ks == Upstream(c, nonce, raw) && enc.pos == 64
    ensures inner == Inner(c, nonce, raw)
  {
    var keyInput := Concat(nonce[8..40], raw);
    enc := new CtrStream(c.ctr(c.sha(keyInput[..]), nonce[40..56]));
    var buf := new byte[64];
    Copy(buf, 0, nonce);
    assert buf[..] == nonce;
    enc.XorAll(buf);
    inner := buf[..];
  }

  /** decStream, at position 0. */
  method Backward(c: Crypto, nonce: bytes, raw: bytes) returns (dec: CtrStream)
    requires |nonce| == 64
    ensures fresh(dec) && dec.ks == Downstream(c, nonce, raw) && dec.pos == 0
  {
    var reversed := ReverseBytes(nonce[8..40]);
    var keyInput := Concat(reversed[..], raw);
    var iv := ReverseBytes(nonce[40..56]);
    dec := new CtrStream(c.ctr(c.sha(keyInput[..]), iv[..]));
  }

  /** The loop over the configured secrets, shared by both handshakes. */
  method Search(c: Crypto, kind: SecretType, sni: bytes, fold: Fold, nonce: bytes, secrets: seq<Secret>)
    returns (r: Found)
    requires |nonce| == 64
    ensures r.Found? ==> fresh(r.enc) && fresh(r.dec)
    ensures IsFirstMatch(c, kind, sni, fold, nonce, secrets, r)
  {
    for i := 0 to |secrets|
      invariant forall k :: 0 <= k < i ==> !Matches(c, kind, sni, fold, nonce, secrets[k])
    {
      var s := secrets[i];
      if s.kind != kind {
        continue;
      }
      if kind == EE && s.domain != [] && sni != [] && !fold(sni, s.domain) {
        continue;
      }
      var enc, inner := Decode(c, nonce, s.raw);
      var proto := Le32(inner[56..60]);
      if proto != ABRIDGED && proto != INTERMEDIATE && proto != FULL {
        continue;
      }
      var dc := DcId(Le32(inner[60..64]));
      var dec := Backward(c, nonce, s.raw);
      return Found(i, dc, inner, enc, dec);
    }
    return NoMatch;
  }

  // ---- The client's side ----

  /** The tag, the DC id as a 16-bit two's complement little-endian value, and two bytes of padding. */
  function Plain(tag: bytes, dc: int, pad: bytes): bytes {
    tag + ([Byte(dc), Byte(dc / 256)] + pad)
  }

  /** The init a client sends for a secret: 56 bytes of its choosing, then the encrypted tag and DC id. */
  function Init(c: Crypto, prefix: bytes, raw: bytes, plain: bytes): (nonce: bytes)
    requires |prefix| == 56 && |plain| == 8
    ensures |nonce| == 64
  {
    prefix + Mask(c.ctr(c.sha(prefix[8..40] + raw), prefix[40..56]), 56, plain)
  }

  /** Key derivation reads only the first 56 bytes, so both ends derive the same keystreams. */
  lemma InitKeys(c: Crypto, prefix: bytes, raw: bytes, plain: bytes)
    requires |prefix| == 56 && |plain| == 8
    ensures var nonce := Init(c, prefix, raw, plain);
            && nonce[8..40] == prefix[8..40] && nonce[40..56] == prefix[40..56]
            && Inner(c, nonce, raw)[56..64] == plain
            && Inner(c, nonce, raw) == Mask(c.ctr(c.sha(prefix[8..40] + raw), prefix[40..56]), 0, prefix) + plain
  {
    var ks, nonce := c.ctr(c.sha(prefix[8..40] + raw), prefix[40..56]), Init(c, prefix, raw, plain);
    assert nonce[8..40] == prefix[8..40] && nonce[40..56] == prefix[40..56];
    MaskConcat(ks, 0, prefix, Mask(ks, 56, plain));
    MaskTwice(ks, 56, plain);
    assert Inner(c, nonce, raw) == Mask(ks, 0, prefix) + plain;
  }

  lemma DcFromLow(n: nat, high: nat, dc: int)
    requires -0x8000 <= dc < 0x8000 && n == 0x1_0000 * high + dc % 0x1_0000
    ensures DcId(n) == dc
  {
    assert n % 0x1_0000 == dc % 0x1_0000;
  }

  lemma DcRoundTrip(dc: int, pad: bytes)
    requires -0x8000 <= dc < 0x8000 && |pad| == 2
    ensures DcId(Le32([Byte(dc), Byte(dc / 256)] + pad)) == dc
  {
    var s := [Byte(dc), Byte(dc / 256)] + pad;
    var low, high := U16(s[1], s[0]), U16(s[3], s[2]);
    Be16RoundTrip(dc);
    assert low == dc % 0x1_0000;
    DcFromLow(Le32(s), high, dc);
  }

  /** The init built for a secret passes that secret's tag test and carries its DC id. */
  lemma InitIsValid(c: Crypto, prefix: bytes, raw: bytes, tag: bytes, dc: int, pad: bytes)
    requires |prefix| == 56 && |tag| == 4 && |pad| == 2 && ProtoOk(Le32(tag)) && -0x8000 <= dc < 0x8000
    ensures var nonce := Init(c, prefix, raw, Plain(tag, dc, pad));
            TagOk(c, nonce, raw) && DcId(Le32(Inner(c, nonce, raw)[60..64])) == dc
  {
    var plain := Plain(tag, dc, pad);
    var nonce := Init(c, prefix, raw, plain);
    var inner := Inner(c, nonce, raw);
    InitKeys(c, prefix, raw, plain);
    assert inner[56..60] == inner[56..64][..4] == tag;
    assert inner[60..64] == inner[56..64][4..] == [Byte(dc), Byte(dc / 256)] + pad;
    DcRoundTrip(dc, pad);
  }

  /** The four bytes a valid tag decrypts to. */
  predicate IsTag(t: bytes) {
    t == [0xEF, 0xEF, 0xEF, 0xEF] || t == [0xDD, 0xDD, 0xDD, 0xDD] || t == [0xFE, 0xFE, 0xFE, 0xFE]
  }

  lemma TagBytes(t: bytes)
    requires |t| == 4
    ensures ProtoOk(Le32(t)) <==> IsTag(t)
  {
    var n := 0x100_0000 * t[3] as int + 0x1_0000 * t[2] as int + 0x100 * t[1] as int + t[0] as int;
    BigEndian32(t[3], t[2], t[1], t[0], n);
    BigEndian32(0xEF, 0xEF, 0xEF, 0xEF, ABRIDGED);
    BigEndian32(0xDD, 0xDD, 0xDD, 0xDD, INTERMEDIATE);
    BigEndian32(0xFE, 0xFE, 0xFE, 0xFE, FULL);
    assert t == [t[0], t[1], t[2], t[3]];
  }

  /** Which nonces pass a secret's test: those that decrypt, from the start, to a tag at 56. */
  lemma TagOkIff(c: Crypto, nonce: bytes, raw: bytes)
    requires |nonce| == 64
    ensures TagOk(c, nonce, raw) <==> IsTag(Mask(c.ctr(c.sha(nonce[8..40] + raw), nonce[40..56]), 0, nonce)[56..60])
  {
    TagBytes(Inner(c, nonce, raw)[56..60]);
  }

  /** Nothing matches a secret of the wrong type, or of a domain other than the server name given. */
  lemma MatchesOwnKind(c: Crypto, kind: SecretType, sni: bytes, fold: Fold, nonce: bytes, secrets: seq<Secret>,
                       r: Found)
    requires |nonce| == 64 && IsFirstMatch(c, kind, sni, fold, nonce, secrets, r) && r.Found?
    ensures r.index < |secrets| && secrets[r.index].kind == kind
    ensures kind == EE && sni != [] && secrets[r.index].domain != [] ==> fold(sni, secrets[r.index].domain)
    ensures TagOk(c, nonce, secrets[r.index].raw)
  {
  }

  /**
    * Agreement: for an init built for secret j of the handshake's kind, whose domain is the server name if both
    * are given, the search stops at or before j; at j exactly when no earlier such secret's tag happens to decrypt
    * validly, and then with the client's DC id, the init as the client made it, and the client's two keystreams, its
    * own being 64 bytes in.
    */
  lemma Agreement(c: Crypto, kind: SecretType, sni: bytes, fold: Fold, secrets: seq<Secret>, j: nat,
                  prefix: bytes, tag: bytes, dc: int, pad: bytes, r: Found)
    requires j < |secrets| && secrets[j].kind == kind
    requires kind == DD || secrets[j].domain == [] || sni == [] || fold(sni, secrets[j].domain)
    requires |prefix| == 56 && |tag| == 4 && |pad| == 2 && ProtoOk(Le32(tag)) && -0x8000 <= dc < 0x8000
    requires IsFirstMatch(c, kind, sni, fold, Init(c, prefix, secrets[j].raw, Plain(tag, dc, pad)), secrets, r)
    ensures r.Found? && r.index <= j
    ensures r.index == j <==>
            forall i ::
              (0 <= i < j && secrets[i].kind == kind
               && (kind == DD || secrets[i].domain == [] || sni == [] || fold(sni, secrets[i].domain))) ==>
              !TagOk(c, Init(c, prefix, secrets[j].raw, Plain(tag, dc, pad)), secrets[i].raw)
    ensures r.index == j ==>
            && r.dc == dc
            && r.inner == Mask(c.ctr(c.sha(prefix[8..40] + secrets[j].raw), prefix[40..56]), 0, prefix)
                          + (tag + ([Byte(dc), Byte(dc / 256)] + pad))
            && r.enc.ks == c.ctr(c.sha(prefix[8..40] + secrets[j].raw), prefix[40..56]) && r.enc.pos == 64
            && r.dec.ks == c.ctr(c.sha(Reverse(prefix[8..40]) + secrets[j].raw), Reverse(prefix[40..56]))
            && r.dec.pos == 0
  {
    InitIsValid(c, prefix, secrets[j].raw, tag, dc, pad);
    InitKeys(c, prefix, secrets[j].raw, Plain(tag, dc, pad));
    assert Matches(c, kind, sni, fold, Init(c, prefix, secrets[j].raw, Plain(tag, dc, pad)), secrets[j]);
    if r.index < j {
      assert Matches(c, kind, sni, fold, Init(c, prefix, secrets[j].raw, Plain(tag, dc, pad)), secrets[r.index]);
    }
  }

  /** A first match is unique, so the handshake's outcome is a function of the nonce and the configuration. */
  lemma FirstMatchUnique(c: Crypto, kind: SecretType, sni: bytes, fold: Fold, nonce: bytes, secrets: seq<Secret>,
                         r: Found, r': Found)
    requires |nonce| == 64
    requires IsFirstMatch(c, kind, sni, fold, nonce, secrets, r) && IsFirstMatch(c, kind, sni, fold, nonce, secrets, r')
    ensures r.Found? == r'.Found?
    ensures r.Found? ==> r.index == r'.index && r.dc == r'.dc && r.inner == r'.inner
    ensures r.Found? ==> r.enc.ks == r'.enc.ks && r.dec.ks == r'.dec.ks
  {
    if r.Found? && r'.Found? {
      assert !(r.index < r'.index) && !(r'.index < r.index);
    }
  }

  // ---- Reading the nonce ----

  datatype Failure = ReadNonce | BadHello(error: ClientHello.HelloError) | NoMatchingSecret | WriteHello
  datatype Outcome = Failed(why: Failure) | Agreed(found: Found)

  /** What the dd handshake does with a client's whole byte stream: it consumes 64 bytes. */
  ghost predicate DdResult(c: Crypto, fold: Fold, secrets: seq<Secret>, stream: bytes, o: Outcome, unread: bytes)
    reads Streams(o)
  {
    if |stream| < 64 then o == Failed(ReadNonce) && unread == []
    else
      && (o.Failed? ==> o.why == NoMatchingSecret)
      && IsFirstMatch(c, DD, [], fold, stream[..64], secrets, if o.Agreed? then o.found else NoMatch)
      && unread == stream[64..]
  }

  /** The same for ee: one ClientHello record is consumed and, after a match, the ServerHello is sent. */
  ghost predicate EeResult(c: Crypto, fold: Fold, secrets: seq<Secret>, serverHello: bytes, capacity: nat,
                           stream: bytes, o: Outcome, unread: bytes, sent: bytes)
    reads Streams(o)
  {
    var (hello, rest) := ClientHello.Parse(stream);
    && unread == rest
    && match hello
       case Rejected(error) => o == Failed(BadHello(error)) && sent == []
       case Accepted(nonce, sni) =>
         && |nonce| == 64
         && if o == Failed(WriteHello) then
              && (exists i :: 0 <= i < |secrets| && Matches(c, EE, sni, fold, nonce, secrets[i]))
              && capacity < |serverHello| && sent == serverHello[..capacity]
            else
              && (o.Failed? ==> o.why == NoMatchingSecret)
              && (o.Agreed? ==> |serverHello| <= capacity)
              && IsFirstMatch(c, EE, sni, fold, nonce, secrets, if o.Agreed? then o.found else NoMatch)
              && sent == if o.Agreed? then serverHello else []
  }

  ghost function Streams(o: Outcome): set<object> {
    if o.Agreed? && o.found.Found? then {o.found.enc, o.found.dec} else {}
  }

  /** Both say the same of the client: who it is, where it wants to go, and under which keystreams. */
  ghost predicate SameOutcome(o: Outcome, o': Outcome) {
    && o.Agreed? == o'.Agreed?
    && (o.Failed? ==> o == o')
    && (o.Agreed? ==> (
        && o.found.Found? && o'.found.Found?
        && o.found.index == o'.found.index && o.found.dc == o'.found.dc && o.found.inner == o'.found.inner
        && o.found.enc.ks == o'.found.enc.ks && o.found.dec.ks == o'.found.dec.ks))
  }

  lemma DdDeterministic(c: Crypto, fold: Fold, secrets: seq<Secret>, stream: bytes,
                        o: Outcome, u: bytes, o': Outcome, u': bytes)
    requires o.Agreed? ==> o.found.Found?
    requires o'.Agreed? ==> o'.found.Found?
    requires DdResult(c, fold, secrets, stream, o, u) && DdResult(c, fold, secrets, stream, o', u')
    ensures SameOutcome(o, o') && u == u'
  {
    if 64 <= |stream| {
      FirstMatchUnique(c, DD, [], fold, stream[..64], secrets,
                       if o.Agreed? then o.found else NoMatch, if o'.Agreed? then o'.found else NoMatch);
    }
  }

  lemma EeDeterministic(c: Crypto, fold: Fold, secrets: seq<Secret>, serverHello: bytes, capacity: nat, stream: bytes,
                        o: Outcome, u: bytes, sent: bytes, o': Outcome, u': bytes, sent': bytes)
    requires o.Agreed? ==> o.found.Found?
    requires o'.Agreed? ==> o'.found.Found?
    requires EeResult(c, fold, secrets, serverHello, capacity, stream, o, u, sent)
    requires EeResult(c, fold, secrets, serverHello, capacity, stream, o', u', sent')
    ensures SameOutcome(o, o') && u == u' && sent == sent'
  {
    var hello := ClientHello.Parse(stream).0;
    if hello.Accepted? && o != Failed(WriteHello) && o' != Failed(WriteHello) {
      FirstMatchUnique(c, EE, hello.sni, fold, hello.nonce, secrets,
                       if o.Agreed? then o.found else NoMatch, if o'.Agreed? then o'.found else NoMatch);
    }
  }

  /** newObfuscatedClientConn: 64 bytes, then the search among dd secrets. */
  method NewObfuscatedClientConn(conn: PrependConn, c: Crypto, fold: Fold, secrets: seq<Secret>)
    returns (o: Outcome, client: Obfuscated.ObfuscatedConn?)
    modifies conn`buf, conn.conn`incoming
    ensures o.Agreed? ==> o.found.Found? && fresh(Streams(o))
    ensures o.Agreed? <==> client != null
    ensures client != null ==> client.conn == conn && client.enc == o.found.enc && client.dec == o.found.dec
    ensures DdResult(c, fold, secrets, old(conn.Unread()), o, conn.Unread())
  {
    var nonce := new byte[64];
    var ok := conn.ReadFull(nonce);
    if !ok {
      return Failed(ReadNonce), null;
    }
    var r := Search(c, DD, [], fold, nonce[..], secrets);
    if r.NoMatch? {
      return Failed(NoMatchingSecret), null;
    }
    client := new Obfuscated.ObfuscatedConn(conn, r.enc, r.dec);
    o := Agreed(r);
  }

  /** newFakeTLSClientConn: a ClientHello, the search among ee secrets, then the fake ServerHello. */
  method NewFakeTlsClientConn(conn: PrependConn, c: Crypto, fold: Fold, secrets: seq<Secret>, serverHello: bytes)
    returns (o: Outcome, client: FakeTls.FakeTlsConn?, ghost sent: bytes)
    modifies conn`buf, conn.conn`incoming, conn.conn`outgoing, conn.conn`capacity
    ensures o.Agreed? ==> o.found.Found? && fresh(Streams(o))
    ensures o.Agreed? <==> client != null
    ensures client != null ==>
              && client.conn == conn && client.enc == o.found.enc && client.dec == o.found.dec
              && client.readBuf == [] && client.Valid()
    ensures EeResult(c, fold, secrets, serverHello, old(conn.conn.capacity), old(conn.Unread()), o, conn.Unread(), sent)
    ensures conn.conn.outgoing == old(conn.conn.outgoing) + sent
  {
    sent := [];
    ClientHello.AcceptedIff(conn.Unread());
    var hello := ClientHello.ReadClientHello(conn);
    if hello.Rejected? {
      return Failed(BadHello(hello.error)), null, [];
    }
    var r := Search(c, EE, hello.sni, fold, hello.nonce, secrets);
    if r.NoMatch? {
      return Failed(NoMatchingSecret), null, [];
    }
    sent := serverHello[..Min(|serverHello|, conn.conn.capacity)];
    var err := conn.conn.Write(serverHello);
    if err {
      return Failed(WriteHello), null, sent;
    }
    client := new FakeTls.FakeTlsConn(conn, r.enc, r.dec);
    o := Agreed(r);
  }
}
