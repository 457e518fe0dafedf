/** The Hysteria2 wire protocol, both ends: authentication and opening a TCP stream. */
module Hysteria2 {
  import opened Bytes
  import opened Net

  // Each QUIC stream is an ordered reliable byte stream in each direction, as a Conn is.

  /** hy2AppendStr(nil, s): the length is truncated to 16 bits. */
  function Str(s: bytes): bytes {
    Be16(|s|) + s
  }

  /** hy2ReadStr: the string and what follows it. */
  function ReadStr(stream: bytes): Option<(bytes, bytes)> {
    if |stream| < 2 || |stream| - 2 < LenAt(stream, 0) then None
    else Some((stream[2..][..LenAt(stream, 0)], stream[2..][LenAt(stream, 0)..]))
  }

  // ---- Authentication ----

  const AUTH_FAILED: bytes := [97, 117, 116, 104, 32, 102, 97, 105, 108, 101, 100]  // "auth failed"

  /** sendAuth's request. */
  function AuthRequest(password: bytes): bytes {
    Str(password) + Zeros(8)
  }

  /** hy2HandleAuth's response. */
  function AuthResponse(ok: bool): bytes {
    [if ok then 1 else 0] + (Zeros(8) + Str(if ok then [] else AUTH_FAILED))
  }

  /** A verdict (none on a read error), the response written and the bytes left unread. */
  datatype Auth = Auth(verdict: Option<bool>, response: bytes, unread: bytes)

  function ServerAuth(stream: bytes, password: bytes): Auth {
    match ReadStr(stream)
    case None => Auth(None, [], [])
    case Some((auth, rest)) =>
      if |rest| < 8 then Auth(None, [], []) else Auth(Some(auth == password), AuthResponse(auth == password), rest[8..])
  }

  /** sendAuth after its request: accepted or not, and the bytes left unread. */
  function ClientAuth(incoming: bytes): (bool, bytes) {
    if |incoming| < 11 then (false, [])
    else
      var n := LenAt(incoming, 9);
      if |incoming| - 11 < n then (false, []) else (incoming[0] == 1, incoming[11..][n..])
  }

  lemma StrHead(s: bytes, rest: bytes)
    ensures var stream := Str(s) + rest; stream[2..] == s + rest && LenAt(stream, 0) == |s| % 0x1_0000
  {
    var stream := Str(s) + rest;
    Be16RoundTrip(|s|);
    assert stream[0] == Be16(|s|)[0] && stream[1] == Be16(|s|)[1];
  }

  lemma ReadStrStep(stream: bytes, n: nat, body: bytes)
    requires 2 + n <= |stream| && LenAt(stream, 0) == n && stream[2..] == body
    ensures ReadStr(stream) == Some((body[..n], body[n..]))
  {
  }

  lemma StrRoundTrip(s: bytes, n: nat, rest: bytes)
    requires n == |s| % 0x1_0000 && n <= |s|
    ensures ReadStr(Str(s) + rest) == Some((s[..n], s[n..] + rest))
  {
    StrHead(s, rest);
    ReadStrStep(Str(s) + rest, n, s + rest);
    assert (s + rest)[..n] == s[..n];
    SplitConcat(s, rest, n);
  }

  lemma ShortStrRoundTrip(s: bytes, rest: bytes)
    requires |s| < 0x1_0000
    ensures ReadStr(Str(s) + rest) == Some((s, rest))
  {
    StrRoundTrip(s, |s|, rest);
    assert s[..|s|] == s && s[|s|..] + rest == rest;
  }

  lemma ClientAuthStep(incoming: bytes, n: nat, end: nat)
    requires end == 11 + n <= |incoming| && LenAt(incoming, 9) == n
    ensures ClientAuth(incoming) == (incoming[0] == 1, incoming[end..])
  {
    DropTo(incoming, 11, n, end);
  }

  /** The client's reading of either response: the server's verdict, leaving exactly what follows. */
  lemma ResponseRead(ok: bool, down: bytes)
    ensures ClientAuth(AuthResponse(ok) + down) == (ok, down)
  {
    ResponseWith(if ok then 1 else 0, if ok then [] else AUTH_FAILED, down);
  }

  lemma ResponseWith(flag: byte, msg: bytes, down: bytes)
    requires |msg| < 0x1_0000
    ensures ClientAuth([flag] + (Zeros(8) + Str(msg)) + down) == (flag == 1, down)
  {
    var incoming, end := [flag] + (Zeros(8) + Str(msg)) + down, 11 + |msg|;
    Be16RoundTrip(|msg|);
    assert incoming[9] == Be16(|msg|)[0] && incoming[10] == Be16(|msg|)[1];
    assert incoming[end..] == down;
    ClientAuthStep(incoming, |msg|, end);
  }

  lemma ServerAuthStep(stream: bytes, serverPassword: bytes, auth: bytes, rest: bytes)
    requires ReadStr(stream) == Some((auth, rest)) && 8 <= |rest|
    ensures ServerAuth(stream, serverPassword)
         == Auth(Some(auth == serverPassword), AuthResponse(auth == serverPassword), rest[8..])
  {
  }

  /** Both ends agree, and each has consumed exactly the handshake when the password's length fits. */
  lemma AuthAgreement(clientPassword: bytes, n: nat, serverPassword: bytes, up: bytes, down: bytes)
    requires n == |clientPassword| % 0x1_0000 && n <= |clientPassword|
    ensures var a := ServerAuth(AuthRequest(clientPassword) + up, serverPassword);
            && a.verdict == Some(clientPassword[..n] == serverPassword)
            && ClientAuth(a.response + down) == (a.verdict.value, down)
            && (n == |clientPassword| ==> a.unread == up)
  {
    var auth, tail := clientPassword[..n], Zeros(8) + up;
    var rest := clientPassword[n..] + tail;
    ConcatAssoc(Str(clientPassword), Zeros(8), up);
    StrRoundTrip(clientPassword, n, tail);
    ServerAuthStep(AuthRequest(clientPassword) + up, serverPassword, auth, rest);
    ResponseRead(auth == serverPassword, down);
    if n == |clientPassword| {
      assert rest == tail && tail[8..] == up;
    }
  }

  /** Acceptance is equality of passwords, against every server, exactly for passwords whose length fits 16 bits. */
  lemma AcceptedIffEqual(clientPassword: bytes, up: bytes)
    ensures (forall serverPassword: bytes ::
               ServerAuth(AuthRequest(clientPassword) + up, serverPassword).verdict
               == Some(clientPassword == serverPassword))
            <==> |clientPassword| < 0x1_0000
  {
    var n := |clientPassword| % 0x1_0000;
    forall serverPassword: bytes
      ensures ServerAuth(AuthRequest(clientPassword) + up, serverPassword).verdict
           == Some(clientPassword[..n] == serverPassword)
    {
      AuthAgreement(clientPassword, n, serverPassword, up, []);
    }
    if |clientPassword| < 0x1_0000 {
      assert clientPassword[..n] == clientPassword;
    } else {
      var cut := clientPassword[..n];
      assert |cut| == n < |clientPassword|;
      assert ServerAuth(AuthRequest(clientPassword) + up, cut).verdict == Some(true);
    }
  }

  /** Against any bytes whatsoever: the server accepts exactly the streams that begin with its password. */
  lemma ServerAcceptsIff(stream: bytes, password: bytes)
    ensures ServerAuth(stream, password).verdict == Some(true) <==>
            && |password| < 0x1_0000 && |password| + 10 <= |stream|
            && Str(password) == stream[..2 + |password|]
  {
    var n := |password|;
    if n < 0x1_0000 && n + 10 <= |stream| && Str(password) == stream[..2 + n] {
      assert stream == Str(password) + stream[2 + n..];
      ShortStrRoundTrip(password, stream[2 + n..]);
    }
    if ServerAuth(stream, password).verdict == Some(true) {
      assert LenAt(stream, 0) == n;
      assert Be16(n)[0] == stream[0] && Be16(n)[1] == stream[1];
      assert stream[..2 + n] == [stream[0], stream[1]] + stream[2..][..n];
    }
  }

  // ---- TCP streams ----

  /** openTcpStream's request: type, address, request id. */
  function TcpRequest(addr: bytes): bytes {
    [1] + (Str(addr) + Zeros(4))
  }

  /** The dialler: connected, or the error's text. */
  datatype Dialled = Connected | DialError(text: bytes)

  datatype Served = Dropped | UnknownType | DialFailed(addr: bytes) | Relaying(addr: bytes)
  datatype Stream = Stream(served: Served, response: bytes, unread: bytes)

  /** hy2HandleTCP before the relay. */
  function ServerTcp(stream: bytes, dial: bytes -> Dialled): Stream {
    match ReadStr(stream)
    case None => Stream(Dropped, [], [])
    case Some((addr, rest)) =>
      if |rest| < 4 then Stream(Dropped, [], [])
      else
        match dial(addr)
        case Connected => Stream(Relaying(addr), [1] + Str([]), rest[4..])
        case DialError(text) => Stream(DialFailed(addr), [0] + Str(text), rest[4..])
  }

  /** hy2HandleStream. */
  function ServerStream(stream: bytes, dial: bytes -> Dialled): Stream {
    if stream == [] then Stream(Dropped, [], [])
    else if stream[0] != 1 then Stream(UnknownType, [], stream[1..])
    else ServerTcp(stream[1..], dial)
  }

  datatype Opened = Opened | Rejected | Failed

  /** openTcpStream after its request; the message read is skipped, however much of it arrives. */
  function ClientOpen(incoming: bytes): (Opened, bytes) {
    if |incoming| < 3 then (Failed, [])
    else
      var n := Min(LenAt(incoming, 1), |incoming| - 3);
      (if incoming[0] == 1 then Opened else Rejected, incoming[3..][n..])
  }

  /** The server's address is the client's, and after success both sides stand at the first application byte. */
  lemma TcpAgreement(addr: bytes, dial: bytes -> Dialled, up: bytes, down: bytes)
    requires |addr| < 0x1_0000
    ensures var s := ServerStream(TcpRequest(addr) + up, dial);
            && s.unread == up
            && s.served == (if dial(addr).Connected? then Relaying(addr) else DialFailed(addr))
            && (dial(addr).Connected? ==> ClientOpen(s.response + down) == (Opened, down))
            && (!dial(addr).Connected? ==> ClientOpen(s.response + down).0 == Rejected)
  {
    var stream := TcpRequest(addr) + up;
    assert stream[1..] == Str(addr) + (Zeros(4) + up);
    ShortStrRoundTrip(addr, Zeros(4) + up);
    assert (Zeros(4) + up)[4..] == up;
    if dial(addr).Connected? {
      var incoming := ([1] + Str([])) + down;
      assert incoming[1] == 0 && incoming[2] == 0;
      assert incoming[3..][0..] == down;
    } else {
      assert |([0] + Str(dial(addr).text)) + down| >= 3;
    }
  }

  /** The address the server decodes is the client's, for every address that fits a 16-bit length and no other. */
  lemma AddressDecodedIff(addr: bytes, up: bytes)
    ensures (forall dial: bytes -> Dialled ::
               ServerStream(TcpRequest(addr) + up, dial).served
               == if dial(addr).Connected? then Relaying(addr) else DialFailed(addr))
            <==> |addr| < 0x1_0000
  {
    if |addr| < 0x1_0000 {
      forall dial: bytes -> Dialled
        ensures ServerStream(TcpRequest(addr) + up, dial).served
             == if dial(addr).Connected? then Relaying(addr) else DialFailed(addr)
      {
        TcpAgreement(addr, dial, up, []);
      }
    } else {
      var dial: bytes -> Dialled, n := x => Connected, |addr| % 0x1_0000;
      var stream := TcpRequest(addr) + up;
      assert stream[1..] == Str(addr) + (Zeros(4) + up);
      StrRoundTrip(addr, n, Zeros(4) + up);
      assert |addr[..n]| != |addr|;
      assert ServerStream(stream, dial).served == Relaying(addr[..n]);
      assert addr[..n] != addr;
    }
  }

  /** Against any bytes: exactly the streams that get an address dialled, and which. */
  lemma DialledIff(stream: bytes, dial: bytes -> Dialled, addr: bytes)
    ensures var served := ServerStream(stream, dial).served;
            served == Relaying(addr) || served == DialFailed(addr) <==>
            && 7 + |addr| <= |stream| && stream[0] == 1
            && 256 * stream[1] as nat + stream[2] as nat == |addr| && stream[3..3 + |addr|] == addr
    ensures ServerStream(stream, dial).served == Relaying(addr) ==> dial(addr).Connected?
    ensures ServerStream(stream, dial).served == DialFailed(addr) ==> dial(addr).DialError?
  {
    if 3 <= |stream| {
      var n := 256 * stream[1] as nat + stream[2] as nat;
      BigEndian16(stream[1], stream[2], n);
      LenAtDrop(stream, 1, 0, 1);
      DropTo(stream, 1, 2, 3);
      if 3 + n <= |stream| {
        ReadStrStep(stream[1..], n, stream[3..]);
        assert stream[3..][..n] == stream[3..3 + n];
      }
    }
  }

  /** Exactly which responses a client takes for success. */
  lemma ClientAcceptsIff(incoming: bytes)
    ensures ClientAuth(incoming).0 <==>
            11 <= |incoming| && incoming[0] == 1 && 11 + (256 * incoming[9] as nat + incoming[10] as nat) <= |incoming|
    ensures ClientOpen(incoming).0 == Opened <==> 3 <= |incoming| && incoming[0] == 1
    ensures ClientOpen(incoming).0 == Failed <==> |incoming| < 3
  {
    if 11 <= |incoming| {
      BigEndian16(incoming[9], incoming[10], 256 * incoming[9] as nat + incoming[10] as nat);
    }
  }

  /** The messages on the wire, byte by byte where they are fixed. */
  lemma RequestLayouts(s: bytes)
    requires |s| < 0x1_0000
    ensures AuthRequest(s)[2..] == s + [0, 0, 0, 0, 0, 0, 0, 0]
    ensures 256 * AuthRequest(s)[0] as nat + AuthRequest(s)[1] as nat == |s|
    ensures TcpRequest(s)[0] == 1 && 256 * TcpRequest(s)[1] as nat + TcpRequest(s)[2] as nat == |s|
    ensures TcpRequest(s)[3..] == s + [0, 0, 0, 0]
  {
    LengthShown(|s|);
    assert Zeros(8) == [0, 0, 0, 0, 0, 0, 0, 0] && Zeros(4) == [0, 0, 0, 0];
  }

  lemma LengthShown(n: nat)
    requires n < 0x1_0000
    ensures 256 * Be16(n)[0] as nat + Be16(n)[1] as nat == n
  {
    Be16RoundTrip(n);
    BigEndian16(Be16(n)[0], Be16(n)[1], 256 * Be16(n)[0] as nat + Be16(n)[1] as nat);
  }

  lemma ResponseLayout(ok: bool)
    ensures AuthResponse(ok)[0] == (if ok then 1 else 0) && AuthResponse(ok)[1..9] == [0, 0, 0, 0, 0, 0, 0, 0]
    ensures ok ==> AuthResponse(ok)[9..] == [0, 0]
  {
    assert Zeros(8) == [0, 0, 0, 0, 0, 0, 0, 0];
  }

  // ---- Connections ----

  /** hy2HandleConn: the first stream must authenticate; then every later stream is served. */
  function Connection(streams: seq<bytes>, password: bytes, dial: bytes -> Dialled): seq<Stream> {
    if streams == [] || ServerAuth(streams[0], password).verdict != Some(true) then []
    else seq(|streams| - 1, i requires 0 <= i < |streams| - 1 => ServerStream(streams[i + 1], dial))
  }

  /**
    * Exactly which peers get a stream served, and then every later one: those whose first stream begins with the
    * password, under its 16-bit length and followed by the rate.
    */
  lemma ServedIff(streams: seq<bytes>, password: bytes, dial: bytes -> Dialled)
    ensures Connection(streams, password, dial) != [] <==>
            && 2 <= |streams| && |password| < 0x1_0000 && |password| + 10 <= |streams[0]|
            && Str(password) == streams[0][..2 + |password|]
    ensures Connection(streams, password, dial) != [] ==> |Connection(streams, password, dial)| == |streams| - 1
  {
    if streams != [] {
      ServerAcceptsIff(streams[0], password);
    }
  }

  /** On an authenticated connection every stream that carries a request is served for its own address. */
  lemma RequestsServed(streams: seq<bytes>, password: bytes, dial: bytes -> Dialled, i: nat, addr: bytes, up: bytes)
    requires Connection(streams, password, dial) != [] && 1 <= i < |streams|
    requires |addr| < 0x1_0000 && streams[i] == TcpRequest(addr) + up
    ensures |Connection(streams, password, dial)| == |streams| - 1
    ensures var s := Connection(streams, password, dial)[i - 1];
            s.unread == up && s.served == if dial(addr).Connected? then Relaying(addr) else DialFailed(addr)
  {
    TcpAgreement(addr, dial, up, []);
  }

  // ---- The code ----

  method ReadFull(stream: PrependConn, n: nat) returns (ok: bool, s: bytes)
    modifies stream`buf, stream.conn`incoming
    ensures ok <==> n <= |old(stream.Unread())|
    ensures ok ==> s == old(stream.Unread()[..n]) && stream.Unread() == old(stream.Unread()[n..])
    ensures !ok ==> stream.Unread() == []
  {
    var b := new byte[n];
    ok := stream.ReadFull(b);
    s := b[..];
  }

  method ReadStrFrom(stream: PrependConn) returns (ok: bool, s: bytes)
    modifies stream`buf, stream.conn`incoming
    ensures match ReadStr(old(stream.Unread()))
            case None => !ok && stream.Unread() == []
            case Some((str, rest)) => ok && s == str && stream.Unread() == rest
  {
    var lenBuf;
    ok, lenBuf := ReadFull(stream, 2);
    s := [];
    if !ok {
      return;
    }
    var n := LenAt(lenBuf, 0);
    if n == 0 {
      return;
    }
    ok, s := ReadFull(stream, n);
  }

  /** hy2HandleAuth; the result of the write is ignored. */
  method HandleAuth(stream: PrependConn, password: bytes) returns (verdict: Option<bool>)
    modifies stream`buf, stream.conn`incoming, stream.conn`outgoing, stream.conn`capacity
    ensures var a := ServerAuth(old(stream.Unread()), password);
            && verdict == a.verdict && stream.Unread() == a.unread
            && stream.conn.outgoing
               == old(stream.conn.outgoing) + a.response[..Min(|a.response|, old(stream.conn.capacity))]
  {
    var read, auth := ReadStrFrom(stream);
    if !read {
      return None;
    }
    var rxBuf;
    read, rxBuf := ReadFull(stream, 8);
    if !read {
      return None;
    }
    var ok := auth == password;
    var resp: bytes := if ok then [1] else [0];
    resp := resp + (Zeros(8) + Str(if ok then [] else AUTH_FAILED));
    var err := stream.conn.Write(resp);
    return Some(ok);
  }

  /** sendAuth. */
  method SendAuth(stream: PrependConn, password: bytes) returns (accepted: bool)
    modifies stream`buf, stream.conn`incoming, stream.conn`outgoing, stream.conn`capacity
    ensures old(stream.conn.capacity) < |AuthRequest(password)| ==> !accepted
    ensures |AuthRequest(password)| <= old(stream.conn.capacity) ==>
              && stream.conn.outgoing == old(stream.conn.outgoing) + AuthRequest(password)
              && (accepted, stream.Unread()) == ClientAuth(old(stream.Unread()))
  {
    var buf := Be16(|password|) + password + Zeros(8);
    var err := stream.conn.Write(buf);
    if err {
      return false;
    }
    assert buf[..|buf|] == buf;
    ghost var incoming := stream.Unread();
    var ok, header := ReadFull(stream, 11);
    if !ok {
      return false;
    }
    var msgLen := LenAt(header, 9);
    if msgLen > 0 {
      var msg;
      ok, msg := ReadFull(stream, msgLen);
      if !ok {
        return false;
      }
    }
    return header[0] == 1;
  }

  /** hy2HandleStream and hy2HandleTCP up to the relay; an unwritable success reply ends the stream. */
  method HandleStream(stream: PrependConn, dial: bytes -> Dialled) returns (served: Served)
    modifies stream`buf, stream.conn`incoming, stream.conn`outgoing, stream.conn`capacity
    ensures var s := ServerStream(old(stream.Unread()), dial);
            && stream.Unread() == s.unread
            && served == (if s.served.Relaying? && old(stream.conn.capacity) < |s.response| then Dropped else s.served)
            && stream.conn.outgoing
               == old(stream.conn.outgoing) + s.response[..Min(|s.response|, old(stream.conn.capacity))]
  {
    var ok, typeBuf := ReadFull(stream, 1);
    if !ok {
      return Dropped;
    }
    if typeBuf[0] != 1 {
      return UnknownType;
    }
    var addr;
    ok, addr := ReadStrFrom(stream);
    if !ok {
      return Dropped;
    }
    var reqID;
    ok, reqID := ReadFull(stream, 4);
    if !ok {
      return Dropped;
    }
    var err;
    match dial(addr) {
      case DialError(text) =>
        err := stream.conn.Write([0] + Str(text));
        return DialFailed(addr);
      case Connected =>
        err := stream.conn.Write([1] + Str([]));
        return if err then Dropped else Relaying(addr);
    }
  }

  /** openTcpStream. */
  method OpenTcp(stream: PrependConn, target: bytes) returns (result: Opened)
    modifies stream`buf, stream.conn`incoming, stream.conn`outgoing, stream.conn`capacity
    ensures old(stream.conn.capacity) < |TcpRequest(target)| ==> result == Failed
    ensures |TcpRequest(target)| <= old(stream.conn.capacity) ==>
              && stream.conn.outgoing == old(stream.conn.outgoing) + TcpRequest(target)
              && (result, stream.Unread()) == ClientOpen(old(stream.Unread()))
  {
    var buf := [1] + (Be16(|target|) + target + Zeros(4));
    var err := stream.conn.Write(buf);
    if err {
      return Failed;
    }
    assert buf[..|buf|] == buf;
    var ok, resp := ReadFull(stream, 3);
    if !ok {
      return Failed;
    }
    var msgLen := LenAt(resp, 1);
    ghost var later := stream.Unread();
    var extra;
    ok, extra := ReadFull(stream, msgLen);
    assert stream.Unread() == later[Min(msgLen, |later|)..];
    return if resp[0] == 1 then Opened else Rejected;
  }
}
