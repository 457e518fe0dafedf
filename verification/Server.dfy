/** Server.handle up to the relay: the peek that detects the protocol, and the dispatch. */
module Server {
  import opened Bytes
  import opened Ctr
  import opened Net
  import opened Handshake
  import AndroidSocks
  import ClientHello
  import FakeTls
  import FakeTlsSession
  import Obfuscated
  import Socks5
  import Text

  /** The connection the relay reads and writes. */
  datatype Client = NoClient | Dd(dd: Obfuscated.ObfuscatedConn) | Ee(ee: FakeTls.FakeTlsConn)

  datatype Handled =
    | NoBytes                        // the peek failed
    | WrongProtocol                  // SOCKS4 or HTTP
    | Socks(relay: Option<bytes>)    // the target being relayed to, if any
    | MtProto(conn: PrependConn, outcome: Outcome, client: Client)

  const SOCKS4: byte := 4
  const SOCKS5: byte := 5
  const HTTP: seq<byte> := [71, 80, 67, 68, 72]  // the first letters of methods: G, P, C, D, H

  predicate IsHttp(b: byte) {
    b in HTTP
  }

  /** The configuration a connection is handled under. */
  datatype Config = Config(crypto: Crypto, fold: Fold, secrets: seq<Secret>, serverHello: bytes, dial: bytes -> bool)

  /**
    * What handle does with a client's whole byte stream.  Only the SOCKS5 case knows where the peek
    * ended (cut); the MTProto handshakes see the stream as if nothing had been peeked.
    */
  ghost predicate HandledAs(g: Config, stream: bytes, capacity: nat, cut: nat, h: Handled, unread: bytes, sent: bytes)
    reads if h.MtProto? then Streams(h.outcome) else {}
  {
    if stream == [] then h == NoBytes && unread == [] && sent == []
    else if stream[0] == SOCKS5 then
      && 1 <= cut <= Min(4, |stream|)
      && ServedAs(g, Socks5.Handshake(stream[..cut], stream[cut..], capacity), capacity, h, unread, sent)
    else if stream[0] == SOCKS4 || IsHttp(stream[0]) then h == WrongProtocol && sent == []
    else
      && h.MtProto? && (h.outcome.Agreed? ==> h.outcome.found.Found?)
      && if stream[0] == ClientHello.HANDSHAKE
         then EeResult(g.crypto, g.fold, g.secrets, g.serverHello, capacity, stream, h.outcome, unread, sent)
         else DdResult(g.crypto, g.fold, g.secrets, stream, h.outcome, unread) && sent == []
  }

  /** A SOCKS5 handshake with outcome o, then the reply that tells how dialling went. */
  predicate ServedAs(g: Config, o: Socks5.Outcome, capacity: nat, h: Handled, unread: bytes, sent: bytes) {
    && unread == o.unread
    && h == Socks(if o.result.Target? && g.dial(o.result.addr) then Some(o.result.addr) else None)
    && sent == Socks5.Sent(o.replies + Socks5.DialReply(o.result, g.dial), capacity)
  }

  /** io.ReadAtLeast(rawConn, peek, 1) on a four-byte buffer. */
  method Peek(raw: Conn) returns (peek: bytes)
    modifies raw`incoming
    ensures peek == [] <==> old(raw.incoming) == []
    ensures |peek| <= Min(4, |old(raw.incoming)|)
    ensures peek == old(raw.incoming[..|peek|]) && raw.incoming == old(raw.incoming[|peek|..])
  {
    var b := new byte[4];
    var n, err := raw.Read(b, 0);
    return b[..n];
  }

  /** The relay's connection is over conn, with the handshake's keystreams and nothing buffered. */
  ghost predicate Wraps(conn: PrependConn, o: Outcome, client: Client)
    reads if client.Ee? then {client.ee} else {}
  {
    && (o.Agreed? ==> o.found.Found?)
    && match client
       case NoClient => !o.Agreed?
       case Dd(c) => o.Agreed? && c.conn == conn && c.enc == o.found.enc && c.dec == o.found.dec
       case Ee(c) =>
         && o.Agreed? && c.conn == conn && c.enc == o.found.enc && c.dec == o.found.dec
         && c.readBuf == [] && c.Valid()
  }

  method Handle(raw: Conn, g: Config) returns (h: Handled, ghost cut: nat, ghost sent: bytes)
    modifies raw
    ensures h.MtProto? ==> h.conn.conn == raw && Wraps(h.conn, h.outcome, h.client)
    ensures h.MtProto? && h.outcome.Agreed? ==>
              old(raw.incoming) != [] && (h.client.Ee? <==> old(raw.incoming)[0] == ClientHello.HANDSHAKE)
    ensures HandledAs(g, old(raw.incoming), old(raw.capacity), cut, h,
                      if h.MtProto? then h.conn.Unread() else raw.incoming, sent)
    ensures raw.outgoing == old(raw.outgoing) + sent
  {
    cut, sent := 0, [];
    ghost var stream := raw.incoming;
    var peek := Peek(raw);
    if peek == [] {
      return NoBytes, cut, [];
    }
    cut := |peek|;
    assert peek + raw.incoming == stream;
    if peek[0] == SOCKS5 {
      var bare := new PrependConn(raw, []);
      assert bare.Unread() == raw.incoming;
      ghost var o := Socks5.Handshake(peek, raw.incoming, raw.capacity);
      sent := Socks5.Sent(o.replies + Socks5.DialReply(o.result, g.dial), raw.capacity);
      var relay := Socks5.Serve(bare, peek, g.dial);
      return Socks(relay), cut, sent;
    }
    if peek[0] == SOCKS4 || IsHttp(peek[0]) {
      return WrongProtocol, cut, [];
    }
    var pconn := new PrependConn(raw, peek);
    var o, client := Failed(NoMatchingSecret), NoClient;
    if peek[0] == ClientHello.HANDSHAKE {
      var ee;
      o, ee, sent := NewFakeTlsClientConn(pconn, g.crypto, g.fold, g.secrets, g.serverHello);
      client := if ee == null then NoClient else Ee(ee);
    } else {
      var dd;
      o, dd := NewObfuscatedClientConn(pconn, g.crypto, g.fold, g.secrets);
      client := if dd == null then NoClient else Dd(dd);
    }
    return MtProto(pconn, o, client), cut, sent;
  }

  /**
    * Segmentation independence: however the first bytes were cut between peek and later reads, an
    * MTProto client gets the same outcome, the same bytes sent and the same unread suffix.
    */
  lemma SegmentationIndependence(g: Config, stream: bytes, capacity: nat,
                                 cut: nat, h: Handled, unread: bytes, sent: bytes,
                                 cut': nat, h': Handled, unread': bytes, sent': bytes)
    requires HandledAs(g, stream, capacity, cut, h, unread, sent)
    requires HandledAs(g, stream, capacity, cut', h', unread', sent')
    requires h.MtProto?
    ensures h'.MtProto? && SameOutcome(h.outcome, h'.outcome) && unread == unread' && sent == sent'
  {
    if stream[0] == ClientHello.HANDSHAKE {
      EeDeterministic(g.crypto, g.fold, g.secrets, g.serverHello, capacity, stream,
                      h.outcome, unread, sent, h'.outcome, unread', sent');
    } else {
      DdDeterministic(g.crypto, g.fold, g.secrets, stream, h.outcome, unread, h'.outcome, unread');
    }
  }

  /** A SOCKS5 client is handled independently of the cut as long as the peek ends within its greeting. */
  lemma SocksSegmentation(g: Config, stream: bytes, capacity: nat, cut: nat, h: Handled, unread: bytes, sent: bytes)
    requires HandledAs(g, stream, capacity, cut, h, unread, sent) && stream != [] && stream[0] == SOCKS5
    requires Socks5.WithinGreeting(stream[..cut])
    ensures ServedAs(g, Socks5.Reference(stream, capacity), capacity, h, unread, sent)
  {
    var peek, rest := stream[..cut], stream[cut..];
    assert peek + rest == stream && |peek| == cut && peek[0] == SOCKS5;
    Socks5.PeekIsInvisible(peek, rest, capacity);
  }

  ghost predicate SomeMatch(g: Config, kind: SecretType, sni: bytes, nonce: bytes)
    requires |nonce| == 64
  {
    exists i :: 0 <= i < |g.secrets| && Matches(g.crypto, kind, sni, g.fold, nonce, g.secrets[i])
  }

  /** A dd client's first byte must not be that of another protocol. */
  const TAKEN: seq<byte> := [SOCKS4, SOCKS5, ClientHello.HANDSHAKE] + HTTP

  /** Exactly which byte streams are relayed as an MTProto client's. */
  ghost predicate Served(g: Config, stream: bytes, capacity: nat) {
    stream != [] &&
    if stream[0] == ClientHello.HANDSHAKE then
      match ClientHello.Parse(stream).0
      case Rejected(_) => false
      case Accepted(nonce, sni) => |nonce| == 64 && |g.serverHello| <= capacity && SomeMatch(g, EE, sni, nonce)
    else stream[0] !in TAKEN && 64 <= |stream| && SomeMatch(g, DD, [], stream[..64])
  }

  lemma ServedIff(g: Config, stream: bytes, capacity: nat, cut: nat, h: Handled, unread: bytes, sent: bytes)
    requires HandledAs(g, stream, capacity, cut, h, unread, sent)
    ensures h.MtProto? && h.outcome.Agreed? <==> Served(g, stream, capacity)
    // and nothing sent later undoes it
    ensures h.MtProto? && h.outcome.Agreed? ==> forall more: bytes :: Served(g, stream + more, capacity)
  {
    if Served(g, stream, capacity) {
      forall more: bytes ensures Served(g, stream + more, capacity) {
        ServedStays(g, stream, more, capacity);
      }
    }
  }

  /** A client that is served stays so whatever it sends next: the handshake reads no further than it needs. */
  lemma ServedStays(g: Config, stream: bytes, more: bytes, capacity: nat)
    requires Served(g, stream, capacity)
    ensures Served(g, stream + more, capacity)
    ensures stream[0] == ClientHello.HANDSHAKE ==>
              ClientHello.Parse(stream + more) == (ClientHello.Parse(stream).0, ClientHello.Parse(stream).1 + more)
    ensures stream[0] != ClientHello.HANDSHAKE ==> (stream + more)[..64] == stream[..64]
  {
    var whole := stream + more;
    assert whole[0] == stream[0];
    if stream[0] == ClientHello.HANDSHAKE {
      ClientHello.ParseMore(stream, more);
    } else {
      SplitConcat(stream, more, 64);
    }
  }

  /** A SOCKS5 client on the proxy's main port, its greeting cut anywhere, is told how dialling went. */
  lemma SocksClient(g: Config, host: bytes, port: nat, up: bytes, down: bytes, capacity: nat,
                    cut: nat, h: Handled, unread: bytes, sent: bytes)
    requires |host| < 256 && port < 0x1_0000 && 12 <= capacity && cut <= 3
    requires HandledAs(g, AndroidSocks.GREETING + AndroidSocks.ConnectRequest(host, port) + up,
                       capacity, cut, h, unread, sent)
    ensures var target, client := Text.HostPort(host, port), AndroidSocks.RunClient(host, port, sent + down);
            && unread == up && client.unread == down
            && h == Socks(if g.dial(target) then Some(target) else None)
            && client.result == (if g.dial(target) then AndroidSocks.Connected else AndroidSocks.ErrorCode(4))
  {
    var stream := AndroidSocks.GREETING + AndroidSocks.ConnectRequest(host, port) + up;
    assert stream[0] == 5 && stream[1] == 1;
    assert 2 <= cut ==> stream[..cut][1] == 1;
    SocksSegmentation(g, stream, capacity, cut, h, unread, sent);
    AndroidSocks.ProxyAgreement(host, port, up, down, capacity, g.dial);
  }

  // ---- A client and the server ----

  /** What the server holds after a handshake with a client of secret j: its choices and its keystreams. */
  ghost predicate AgreedOn(g: Config, h: Handled, j: nat, prefix: bytes, dc: int)
    requires j < |g.secrets| && |prefix| == 56
    reads if h.MtProto? then Streams(h.outcome) else {}
  {
    && h.MtProto? && h.outcome.Agreed? && h.outcome.found.Found?
    && var f, raw := h.outcome.found, g.secrets[j].raw;
       && f.index == j && f.dc == dc
       && f.enc.ks == g.crypto.ctr(g.crypto.sha(prefix[8..40] + raw), prefix[40..56]) && f.enc.pos == 64
       && f.dec.ks == g.crypto.ctr(g.crypto.sha(Reverse(prefix[8..40]) + raw), Reverse(prefix[40..56]))
       && f.dec.pos == 0
  }

  /**
    * A dd client's init, sent as it is and followed by anything, whatever the fragments: it is agreed on exactly
    * when its first byte is not another protocol's and no earlier dd secret's tag is valid by chance.
    */
  lemma DdClient(g: Config, j: nat, prefix: bytes, tag: bytes, dc: int, pad: bytes, rest: bytes,
                 capacity: nat, cut: nat, h: Handled, unread: bytes, sent: bytes)
    requires j < |g.secrets| && g.secrets[j].kind == DD
    requires |prefix| == 56 && |tag| == 4 && |pad| == 2 && ProtoOk(Le32(tag)) && -0x8000 <= dc < 0x8000
    requires HandledAs(g, Init(g.crypto, prefix, g.secrets[j].raw, Plain(tag, dc, pad)) + rest,
                       capacity, cut, h, unread, sent)
    ensures prefix[0] !in TAKEN ==>
              unread == rest && sent == [] && h.MtProto? && h.outcome.Agreed? && h.outcome.found.index <= j
    ensures AgreedOn(g, h, j, prefix, dc) <==>
            && prefix[0] !in TAKEN
            && forall i :: 0 <= i < j && g.secrets[i].kind == DD ==>
                 !TagOk(g.crypto, Init(g.crypto, prefix, g.secrets[j].raw, Plain(tag, dc, pad)), g.secrets[i].raw)
    ensures AgreedOn(g, h, j, prefix, dc) ==>
              h.outcome.found.inner == Mask(ClientUp(g, g.secrets[j].raw, prefix), 0, prefix) + Plain(tag, dc, pad)
  {
    var nonce := Init(g.crypto, prefix, g.secrets[j].raw, Plain(tag, dc, pad));
    var stream := nonce + rest;
    assert stream[0] == prefix[0];
    assert stream[..64] == nonce && stream[64..] == rest;
    if prefix[0] !in TAKEN {
      var found := if h.outcome.Agreed? then h.outcome.found else NoMatch;
      Agreement(g.crypto, DD, [], g.fold, g.secrets, j, prefix, tag, dc, pad, found);
    } else if prefix[0] == ClientHello.HANDSHAKE {
      NotEe(g, stream, capacity, j, h, unread, sent);
    }
  }

  /** A dd secret is never what a fake-TLS handshake finds. */
  lemma NotEe(g: Config, stream: bytes, capacity: nat, j: nat, h: Handled, unread: bytes, sent: bytes)
    requires h.MtProto?
    requires EeResult(g.crypto, g.fold, g.secrets, g.serverHello, capacity, stream, h.outcome, unread, sent)
    requires j < |g.secrets| && g.secrets[j].kind == DD
    ensures h.outcome.Agreed? && h.outcome.found.Found? ==> h.outcome.found.index != j
  {
  }

  /** The client's keystreams for an init. */
  function ClientUp(g: Config, raw: bytes, prefix: bytes): Keystream
    requires |prefix| == 56
  {
    g.crypto.ctr(g.crypto.sha(prefix[8..40] + raw), prefix[40..56])
  }

  function ClientDown(g: Config, raw: bytes, prefix: bytes): Keystream
    requires |prefix| == 56
  {
    g.crypto.ctr(g.crypto.sha(Reverse(prefix[8..40]) + raw), Reverse(prefix[40..56]))
  }

  /**
    * After agreement on dd, what the client encrypts right after its init is what the server's Reads return,
    * and what its Writes send is what the client decrypts, from the first application byte on.
    */
  lemma DdApplicationBytes(g: Config, h: Handled, j: nat, prefix: bytes, dc: int, up: bytes, n: nat, down: bytes)
    requires j < |g.secrets| && |prefix| == 56 && AgreedOn(g, h, j, prefix, dc) && n <= |up|
    ensures var f, raw := h.outcome.found, g.secrets[j].raw;
            && Mask(f.enc.ks, f.enc.pos, Mask(ClientUp(g, raw, prefix), 64, up)[..n]) == up[..n]
            && Mask(ClientDown(g, raw, prefix), 0, Mask(f.dec.ks, f.dec.pos, down)) == down
  {
    var ks := ClientUp(g, g.secrets[j].raw, prefix);
    assert Mask(ks, 64, up)[..n] == Mask(ks, 64, up[..n]);
    MaskTwice(ks, 64, up[..n]);
    MaskTwice(ClientDown(g, g.secrets[j].raw, prefix), 0, down);
  }

  /**
    * After agreement on ee, the first Read returns the start of what the client wrote first, whatever it was
    * and however large the buffer, and stands at its next record; and the client's first Read does the same.
    */
  lemma EeApplicationBytes(g: Config, h: Handled, j: nat, prefix: bytes, dc: int, data: bytes, later: bytes, cap: nat)
    requires j < |g.secrets| && |prefix| == 56 && AgreedOn(g, h, j, prefix, dc) && data != []
    ensures var f, raw, chunk := h.outcome.found, g.secrets[j].raw, FakeTls.FirstChunk(data);
            && ReadsChunk(f.enc.ks, f.enc.pos, ClientUp(g, raw, prefix), 64, data, later, cap)
            && ReadsChunk(ClientDown(g, raw, prefix), 0, f.dec.ks, f.dec.pos, data, later, cap)
  {
    ChunkRead(h.outcome.found.enc.ks, 64, data, later, cap);
    ChunkRead(h.outcome.found.dec.ks, 0, data, later, cap);
  }

  /** Session safety holds from there on with the server's own keystreams and positions at its ends. */
  lemma EeSession(g: Config, h: Handled, j: nat, prefix: bytes, dc: int, es: seq<FakeTlsSession.Event>)
    requires j < |g.secrets| && |prefix| == 56 && AgreedOn(g, h, j, prefix, dc)
    requires var raw := g.secrets[j].raw;
             FakeTlsSession.IsRun(ClientUp(g, raw, prefix), ClientDown(g, raw, prefix), FakeTlsSession.INITIAL, es)
    ensures var f, raw := h.outcome.found, g.secrets[j].raw;
            var up, down := ClientUp(g, raw, prefix), ClientDown(g, raw, prefix);
            var t := FakeTlsSession.Final(up, down, FakeTlsSession.INITIAL, es);
            FakeTlsSession.Safe(f.enc.ks, f.enc.pos, t.up) && FakeTlsSession.Safe(f.dec.ks, f.dec.pos, t.down)
  {
    FakeTlsSession.SessionSafety(h.outcome.found.enc.ks, h.outcome.found.dec.ks, es);
  }

  /** A Read at one end of what a Write of data, and later bytes, sent at the other. */
  predicate ReadsChunk(ks: Keystream, pos: nat, ks': Keystream, pos': nat, data: bytes, later: bytes, cap: nat) {
    var chunk := FakeTls.FirstChunk(data);
    var n := Min(cap, |chunk|);
    var rest := FakeTls.Encode(ks', pos' + |chunk|, FakeTls.Chunks(data[|chunk|..])) + later;
    FakeTls.ReadStep(ks, pos, [], FakeTls.Encode(ks', pos', FakeTls.Chunks(data)) + later, cap)
    == FakeTls.ReadOutcome(chunk[..n], false, chunk[n..], pos + |chunk|, rest)
  }

  lemma ChunkRead(ks: Keystream, pos: nat, data: bytes, later: bytes, cap: nat)
    requires data != []
    ensures ReadsChunk(ks, pos, ks, pos, data, later, cap)
  {
    var chunk, next := FakeTls.FirstChunk(data), pos + |FakeTls.FirstChunk(data)|;
    var rest := FakeTls.Chunks(data[|chunk|..]);
    FakeTls.EncodeCons(ks, pos, chunk, next, rest);
    ConcatAssoc(FakeTls.DataRecord(ks, pos, chunk), FakeTls.Encode(ks, next, rest), later);
    FakeTls.RecordRead(ks, pos, chunk, FakeTls.Encode(ks, next, rest) + later, cap);
  }

  /** A secret's domain and the server name of the hello are the same but for case, if both are given. */
  predicate DomainMet(g: Config, domain: bytes, name: bytes) {
    name != [] && domain != [] ==> g.fold(name, domain)
  }

  /** The record an ee client sends: its init as random and session id, with any lists. */
  function EeHello(nonce: bytes, suites: bytes, compression: bytes, es: seq<ClientHello.Extension>, length: nat): bytes
    requires |nonce| == 64 && |compression| < 256
  {
    ClientHello.BuildRecord(ClientHello.BuildBody(nonce[..32], nonce[32..], suites, compression, es, length))
  }

  predicate ListsFit(suites: bytes, compression: bytes, es: seq<ClientHello.Extension>) {
    && |suites| < 0x1_0000 && |compression| < 256
    && 76 + |suites| + |compression| + |ClientHello.BuildExtensions(es)| < 0x1_0000
    && forall i :: 0 <= i < |es| ==> ClientHello.Fits(es[i])
  }

  /** An ee client's init, inside any ClientHello whose listed server name suits the secret's domain. */
  lemma EeClient(g: Config, j: nat, prefix: bytes, tag: bytes, dc: int, pad: bytes, rest: bytes,
                 suites: bytes, compression: bytes, es: seq<ClientHello.Extension>, length: nat,
                 capacity: nat, cut: nat, h: Handled, unread: bytes, sent: bytes)
    requires |prefix| == 56 && |tag| == 4 && |pad| == 2 && ProtoOk(Le32(tag)) && -0x8000 <= dc < 0x8000
    requires ListsFit(suites, compression, es) && |g.serverHello| <= capacity
    requires j < |g.secrets| && g.secrets[j].kind == EE
    requires DomainMet(g, g.secrets[j].domain, ClientHello.ListedName(es, []))
    requires HandledAs(g, EeHello(Init(g.crypto, prefix, g.secrets[j].raw, Plain(tag, dc, pad)),
                                  suites, compression, es, length) + rest, capacity, cut, h, unread, sent)
    ensures unread == rest && sent == g.serverHello && h.MtProto? && h.outcome.Agreed? && h.outcome.found.index <= j
    ensures AgreedOn(g, h, j, prefix, dc) <==>
            forall i :: (0 <= i < j && g.secrets[i].kind == EE
                         && DomainMet(g, g.secrets[i].domain, ClientHello.ListedName(es, []))) ==>
              !TagOk(g.crypto, Init(g.crypto, prefix, g.secrets[j].raw, Plain(tag, dc, pad)), g.secrets[i].raw)
    ensures AgreedOn(g, h, j, prefix, dc) ==>
            h.outcome.found.inner == Mask(ClientUp(g, g.secrets[j].raw, prefix), 0, prefix) + Plain(tag, dc, pad)
  {
    var nonce := Init(g.crypto, prefix, g.secrets[j].raw, Plain(tag, dc, pad));
    HelloParsed(nonce, suites, compression, es, length, rest);
    Agreement(g.crypto, EE, ClientHello.ListedName(es, []), g.fold, g.secrets, j, prefix, tag, dc, pad,
              if h.outcome.Agreed? then h.outcome.found else NoMatch);
  }

  lemma HelloParsed(nonce: bytes, suites: bytes, compression: bytes, es: seq<ClientHello.Extension>, length: nat,
                    rest: bytes)
    requires |nonce| == 64 && ListsFit(suites, compression, es)
    ensures var stream := EeHello(nonce, suites, compression, es, length) + rest;
            && stream != [] && stream[0] == ClientHello.HANDSHAKE
            && ClientHello.Parse(stream) == (ClientHello.Accepted(nonce, ClientHello.ListedName(es, [])), rest)
  {
    assert nonce[..32] + nonce[32..] == nonce;
    BodyFits(nonce, suites, compression, es, length);
    ClientHello.ParseBuilt(nonce[..32], nonce[32..], suites, compression, es, length, rest);
  }

  lemma BodyFits(nonce: bytes, suites: bytes, compression: bytes, es: seq<ClientHello.Extension>, length: nat)
    requires |nonce| == 64 && ListsFit(suites, compression, es)
    ensures |ClientHello.BuildBody(nonce[..32], nonce[32..], suites, compression, es, length)| < 0x1_0000
  {
    assert |ClientHello.BuildLists(suites, compression, es)|
        == 5 + |suites| + |compression| + |ClientHello.BuildExtensions(es)|;
  }

  /** Naming the secret's own domain once among any other extensions suits it, and so does naming no server at all. */
  lemma DomainsMet(g: Config, domain: bytes, before: seq<ClientHello.Extension>, name: bytes,
                   after: seq<ClientHello.Extension>)
    requires |name| + 5 < 0x1_0000
    requires forall i :: 0 <= i < |before| ==> before[i].extType != 0
    requires forall i :: 0 <= i < |after| ==> after[i].extType != 0
    ensures DomainMet(g, domain, ClientHello.ListedName(before, []))
    ensures var listed := ClientHello.ListedName(before + [ClientHello.ServerName(name)] + after, []);
            DomainMet(g, domain, listed) <==> name == [] || domain == [] || g.fold(name, domain)
  {
    ClientHello.NoName(before);
    ClientHello.OneServerName(before, name, after);
  }
}
