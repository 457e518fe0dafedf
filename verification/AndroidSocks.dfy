/** SOCKS5 inside the phone: TunWorker.socks5Connect against handleSocks5Client, and on to the server. */
module AndroidSocks {
  import opened Bytes
  import opened Net
  import opened Text
  import Socks5
  import Hysteria2

  // ---- The client, socks5Connect ----

  const GREETING: bytes := [5, 1, 0]

  /** CONNECT by domain name; the name's length is truncated to a byte. */
  function ConnectRequest(host: bytes, port: nat): bytes {
    [5, 1, 0, 3] + ([Byte(|host|)] + (host + Be16(port)))
  }

  /** How socks5Connect ends.  LongReply is success too: the address type makes it skip a reply tail. */
  datatype ClientResult =
    | Connected | BadVersion | AuthRequired | ConnectionClosed | ErrorCode(code: byte) | LongReply | WriteFailed

  /** What the client has sent, how it ended and what it left unread. */
  datatype ClientRun = ClientRun(sent: bytes, result: ClientResult, unread: bytes)

  function RunClient(host: bytes, port: nat, incoming: bytes): ClientRun {
    if incoming == [] || incoming[0] != 5 then ClientRun(GREETING, BadVersion, incoming[Min(1, |incoming|)..])
    else if |incoming| < 2 || incoming[1] != 0 then ClientRun(GREETING, AuthRequired, incoming[Min(2, |incoming|)..])
    else
      var reply := incoming[2..];
      ClientRun(GREETING + ConnectRequest(host, port), ReadReply(reply), reply[Min(10, |reply|)..])
  }

  function ReadReply(reply: bytes): ClientResult {
    if |reply| < 10 then ConnectionClosed
    else if reply[1] != 0 then ErrorCode(reply[1])
    else if reply[3] == 3 || reply[3] == 4 then LongReply
    else Connected
  }

  // ---- The server, handleSocks5Client ----

  /** net.IP.String on sixteen octets, left open. */
  type Ip6Text = bytes -> bytes

  datatype Wanted = NoRequest(replies: bytes, unread: bytes) | Wanted(target: bytes, unread: bytes)

  function WantedPort(host: bytes, s: bytes): Wanted {
    if |s| < 2 then NoRequest([], []) else Wanted(HostPort(host, LenAt(s, 0)), s[2..])
  }

  function WantedAddress(atyp: byte, s: bytes, ip6: Ip6Text): Wanted {
    match atyp
    case 1 => if |s| < 4 then NoRequest([], []) else WantedPort(Dotted(s[..4]), s[4..])
    case 3 =>
      if |s| < 1 || |s| - 1 < s[0] as nat then NoRequest([], [])
      else WantedPort(s[1..][..s[0]], s[1..][s[0]..])
    case 4 => if |s| < 16 then NoRequest([], []) else WantedPort([91] + ip6(s[..16]) + [93], s[16..])
    case _ => NoRequest(Socks5.Reply(8), s)
  }

  function WantedRequest(s: bytes, ip6: Ip6Text): Wanted {
    if |s| < 4 then NoRequest([], [])
    else if s[0] != 5 || s[1] != 1 then NoRequest(Socks5.Reply(7), s[4..])
    else WantedAddress(s[3], s[4..], ip6)
  }

  datatype Local = Closed | Unreachable(target: bytes) | Relaying(target: bytes)
  datatype ServerRun = ServerRun(local: Local, replies: bytes, unread: bytes)

  /** After the method reply: open succeeds on the targets for which openTcpStream does. */
  function RunRequest(s: bytes, capacity: nat, ip6: Ip6Text, open: bytes -> bool): ServerRun {
    match WantedRequest(s, ip6)
    case NoRequest(replies, unread) => ServerRun(Closed, replies, unread)
    case Wanted(target, unread) =>
      if !open(target) then ServerRun(Unreachable(target), Socks5.Reply(4), unread)
      else ServerRun(if capacity < 10 then Closed else Relaying(target), Socks5.Reply(0), unread)
  }

  datatype Greeted = Stop(replies: bytes, unread: bytes) | Proceed(unread: bytes)

  /** It answers "no authentication" whatever methods are offered. */
  function Greet(stream: bytes, capacity: nat): Greeted {
    if |stream| < 2 then Stop([], [])
    else if stream[0] != 5 then Stop([], stream[2..])
    else if |stream| - 2 < stream[1] as nat then Stop([], [])
    else if capacity < 2 then Stop([5, 0], stream[2..][stream[1]..])
    else Proceed(stream[2..][stream[1]..])
  }

  function RunServer(stream: bytes, capacity: nat, ip6: Ip6Text, open: bytes -> bool): ServerRun {
    match Greet(stream, capacity)
    case Stop(replies, unread) => ServerRun(Closed, replies, unread)
    case Proceed(rest) =>
      var r := RunRequest(rest, if 2 <= capacity then capacity - 2 else 0, ip6, open);
      r.(replies := [5, 0] + r.replies)
  }

  // ---- Agreement ----

  lemma PortRead(host: bytes, port: nat, up: bytes)
    requires port < 0x1_0000
    ensures WantedPort(host, Be16(port) + up) == Wanted(HostPort(host, port), up)
  {
    var s := Be16(port) + up;
    HoldsWhole(s);
    HoldsSplit(s, 0, Be16(port), 2, up);
    HoldsLen(s, 0, port);
    assert s[2..] == up;
  }

  lemma DomainRead(host: bytes, tail: bytes, ip6: Ip6Text)
    requires |host| < 256
    ensures WantedAddress(3, [Byte(|host|)] + (host + tail), ip6) == WantedPort(host, tail)
  {
    var s := [Byte(|host|)] + (host + tail);
    assert s[1..] == host + tail && s[0] as nat == |host|;
    assert (host + tail)[..|host|] == host && (host + tail)[|host|..] == tail;
  }

  /** The request the client builds is the request the server reads. */
  lemma RequestRead(host: bytes, port: nat, up: bytes, ip6: Ip6Text)
    requires |host| < 256 && port < 0x1_0000
    ensures WantedRequest(ConnectRequest(host, port) + up, ip6) == Wanted(HostPort(host, port), up)
  {
    var s := ConnectRequest(host, port) + up;
    assert s[4..] == [Byte(|host|)] + (host + (Be16(port) + up));
    DomainRead(host, Be16(port) + up, ip6);
    PortRead(host, port, up);
  }

  lemma ServerSide(host: bytes, port: nat, up: bytes, capacity: nat, ip6: Ip6Text, open: bytes -> bool)
    requires |host| < 256 && port < 0x1_0000 && 12 <= capacity
    ensures var target := HostPort(host, port);
            RunServer(GREETING + ConnectRequest(host, port) + up, capacity, ip6, open) ==
            if open(target) then ServerRun(Relaying(target), [5, 0] + Socks5.Reply(0), up)
            else ServerRun(Unreachable(target), [5, 0] + Socks5.Reply(4), up)
  {
    var request := ConnectRequest(host, port);
    var stream := GREETING + request + up;
    assert stream[2..][1..] == request + up;
    RequestRead(host, port, up, ip6);
  }

  lemma ClientSide(host: bytes, port: nat, code: byte, down: bytes)
    ensures RunClient(host, port, [5, 0] + Socks5.Reply(code) + down)
         == ClientRun(GREETING + ConnectRequest(host, port), if code == 0 then Connected else ErrorCode(code), down)
  {
    var incoming := [5, 0] + Socks5.Reply(code) + down;
    assert incoming[2..] == Socks5.Reply(code) + down;
    assert incoming[2..][10..] == down;
  }

  /** The whole exchange when the client speaks to the phone's own server. */
  lemma SocksAgreement(host: bytes, port: nat, up: bytes, down: bytes, capacity: nat, ip6: Ip6Text, open: bytes -> bool)
    requires |host| < 256 && port < 0x1_0000 && 12 <= capacity
    ensures var target := HostPort(host, port);
            var server := RunServer(GREETING + ConnectRequest(host, port) + up, capacity, ip6, open);
            var client := RunClient(host, port, server.replies + down);
            // the server gets the client's target and each side stands at the first relayed byte
            && client.sent == GREETING + ConnectRequest(host, port)
            && server.unread == up && client.unread == down
            // they agree on the outcome
            && server.local == (if open(target) then Relaying(target) else Unreachable(target))
            && client.result == (if open(target) then Connected else ErrorCode(4))
  {
    ServerSide(host, port, up, capacity, ip6, open);
    ClientSide(host, port, if open(HostPort(host, port)) then 0 else 4, down);
  }

  /** The client's request on the wire (section 4 of RFC 1928): CONNECT, a domain name with its length, a port. */
  lemma RequestBytes(host: bytes, port: nat)
    requires |host| < 256 && port < 0x1_0000
    ensures GREETING == [5, 1, 0]
    ensures ConnectRequest(host, port) == [5, 1, 0, 3] + ([|host| as byte] + (host + Be16(port)))
  {
  }

  /**
    * The same client against the proxy's own server: it is told it is connected exactly when the dialler connected
    * to its target, and each side stands at the first relayed byte.
    */
  lemma ProxyAgreement(host: bytes, port: nat, up: bytes, down: bytes, capacity: nat, dial: bytes -> bool)
    requires |host| < 256 && port < 0x1_0000 && 12 <= capacity
    ensures var target := HostPort(host, port);
            var o := Socks5.Reference(GREETING + ConnectRequest(host, port) + up, capacity);
            var sent := Socks5.Sent(o.replies + Socks5.DialReply(o.result, dial), capacity);
            var client := RunClient(host, port, sent + down);
            && o.result == Socks5.Target(target) && o.unread == up
            && client.sent == GREETING + ConnectRequest(host, port) && client.unread == down
            && client.result == (if dial(target) then Connected else ErrorCode(4))
  {
    var target := HostPort(host, port);
    var code: byte := if dial(target) then 0 else 4;
    ProxySide(host, port, up, capacity);
    WholeReply([5, 0], Socks5.Reply(code), capacity);
    ClientSide(host, port, code, down);
  }

  lemma ProxySide(host: bytes, port: nat, up: bytes, capacity: nat)
    requires |host| < 256 && port < 0x1_0000 && 2 <= capacity
    ensures Socks5.Reference(GREETING + ConnectRequest(host, port) + up, capacity)
         == Socks5.Outcome(Socks5.Target(HostPort(host, port)), [5, 0], up)
  {
    var request := ConnectRequest(host, port) + up;
    assert GREETING + ConnectRequest(host, port) + up == [5, 1] + [0] + request;
    assert Socks5.Reference([5, 1] + [0] + request, capacity)
        == Socks5.Request(request).(replies := [5, 0] + Socks5.Request(request).replies) by {
      Socks5.NoAuthNeeded([0], request, capacity);
    }
    RequestBytes(host, port);
    Socks5.DomainDialled(host, port, up);
    assert [5, 0] + [] == [5, 0];
  }

  lemma WholeReply(choice: bytes, reply: bytes, capacity: nat)
    requires |choice| + |reply| <= capacity
    ensures Socks5.Sent(choice + reply, capacity) == choice + reply
  {
  }

  /** A request refused for its command or address type is a failure of that code to this client. */
  lemma RefusalsSeen(code: byte, reply: bytes, down: bytes)
    requires Socks5.IsReply(reply, code) && code != 0
    ensures ReadReply(reply + down) == ErrorCode(code)
  {
  }

  /** Exactly when the client counts itself connected: version 5, no-auth, then ten bytes with reply code 0. */
  lemma ConnectedIff(host: bytes, port: nat, incoming: bytes)
    ensures var r := RunClient(host, port, incoming).result;
            r.Connected? || r.LongReply? <==>
            12 <= |incoming| && incoming[0] == 5 && incoming[1] == 0 && incoming[3] == 0
    ensures |RunClient(host, port, incoming).sent| > 3 <==> 2 <= |incoming| && incoming[0] == 5 && incoming[1] == 0
  {
    if 4 <= |incoming| {
      assert incoming[2..][1] == incoming[3];
    }
  }

  /** The phone's server goes on after a greeting exactly when it is of version 5, complete, and answered. */
  lemma GreetedIff(stream: bytes, capacity: nat)
    ensures Greet(stream, capacity).Proceed? <==>
            2 <= |stream| && stream[0] == 5 && 2 + stream[1] as nat <= |stream| && 2 <= capacity
    ensures Greet(stream, capacity).Proceed? ==> Greet(stream, capacity).unread == stream[2 + stream[1] as nat..]
    ensures 1 <= |stream| && stream[0] != 5 ==> Greet(stream, capacity).replies == []
  {
    if 2 <= |stream| && 2 + stream[1] as nat <= |stream| {
      DropTo(stream, 2, stream[1] as nat, 2 + stream[1] as nat);
    }
  }

  /** What the phone's server takes an IPv4, domain or IPv6 request to ask for. */
  lemma AddressesAsked(ip: bytes, host: bytes, ip6: bytes, port: nat, up: bytes, text: Ip6Text)
    requires |ip| == 4 && |host| < 256 && |ip6| == 16 && port < 0x1_0000
    ensures WantedRequest([5, 1, 0, 1] + (ip + (Be16(port) + up)), text) == Wanted(HostPort(Dotted(ip), port), up)
    ensures WantedRequest([5, 1, 0, 3] + ([|host| as byte] + (host + (Be16(port) + up))), text)
         == Wanted(HostPort(host, port), up)
    ensures WantedRequest([5, 1, 0, 4] + (ip6 + (Be16(port) + up)), text)
         == Wanted([91] + text(ip6) + [93] + [58] + Decimal(port), up)
  {
    var tail := Be16(port) + up;
    var four, six := [5, 1, 0, 1] + (ip + tail), [5, 1, 0, 4] + (ip6 + tail);
    var name := [5, 1, 0, 3] + ([|host| as byte] + (host + tail));
    assert four[4..] == ip + tail && four[4..][..4] == ip && four[4..][4..] == tail;
    assert name[4..] == [|host| as byte] + (host + tail);
    assert six[4..] == ip6 + tail && six[4..][..16] == ip6 && six[4..][16..] == tail;
    DomainRead(host, tail, text);
    PortRead(Dotted(ip), port, up);
    PortRead(host, port, up);
    PortRead([91] + text(ip6) + [93], port, up);
    ConcatAssoc([91] + text(ip6) + [93], [58], Decimal(port));
  }

  /** What it tells a client it refuses. */
  lemma PhoneRefusals(s: bytes, text: Ip6Text)
    requires 4 <= |s|
    ensures s[0] != 5 || s[1] != 1 ==>
              WantedRequest(s, text).NoRequest? && Socks5.IsReply(WantedRequest(s, text).replies, 7)
    ensures s[0] == 5 && s[1] == 1 && s[3] !in [1, 3, 4] ==>
              WantedRequest(s, text).NoRequest? && Socks5.IsReply(WantedRequest(s, text).replies, 8)
  {
  }

  /** Neither side waits for bytes the other sends only later. */
  lemma SocksProgress(host: bytes, port: nat, capacity: nat, ip6: Ip6Text, open: bytes -> bool)
    requires 2 <= capacity
    ensures RunServer(GREETING, capacity, ip6, open).replies == [5, 0]
    ensures RunClient(host, port, [5, 0]).sent == GREETING + ConnectRequest(host, port)
  {
    assert GREETING[2..][1..] == [];
  }

  /** The request the phone's server serves on a whole stream, if it comes to that. */
  function Asked(stream: bytes, capacity: nat, ip6: Ip6Text): Wanted {
    match Greet(stream, capacity)
    case Stop(replies, unread) => NoRequest(replies, unread)
    case Proceed(rest) => WantedRequest(rest, ip6)
  }

  /** The two SOCKS5 servers of the repository take the same target, or none, and leave the same bytes after it. */
  ghost predicate SameRequest(stream: bytes, capacity: nat, ip6: Ip6Text) {
    var proxy := Socks5.Reference(stream, capacity);
    forall target: bytes, unread: bytes ::
      Asked(stream, capacity, ip6) == Wanted(target, unread) <==>
      proxy.result == Socks5.Target(target) && proxy.unread == unread
  }

  /**
    * They do exactly when no-auth is among the methods offered and the address is not IPv6, or the phone's
    * server finds no request: it takes any offer and any of the three address types.
    */
  lemma ServersAgree(stream: bytes, capacity: nat, ip6: Ip6Text)
    ensures SameRequest(stream, capacity, ip6) <==>
            || Asked(stream, capacity, ip6).NoRequest?
            || (Socks5.NO_AUTH in stream[2..][..stream[1]] && stream[2..][stream[1]..][3] != 4)
  {
    if Asked(stream, capacity, ip6).Wanted? {
      WantedByBoth(stream, capacity, ip6);
    } else {
      NoTarget(stream, capacity, ip6);
    }
  }

  lemma NoTarget(stream: bytes, capacity: nat, ip6: Ip6Text)
    requires Asked(stream, capacity, ip6).NoRequest?
    ensures Socks5.Reference(stream, capacity).result.Refused?
  {
  }

  lemma WantedByBoth(stream: bytes, capacity: nat, ip6: Ip6Text)
    requires Asked(stream, capacity, ip6).Wanted?
    ensures 2 <= |stream| && stream[1] as nat <= |stream| - 2 && 4 <= |stream[2..][stream[1]..]|
    ensures var w, proxy := Asked(stream, capacity, ip6), Socks5.Reference(stream, capacity);
            if Socks5.NO_AUTH in stream[2..][..stream[1]] && stream[2..][stream[1]..][3] != 4
            then proxy.result == Socks5.Target(w.target) && proxy.unread == w.unread
            else proxy.result.Refused?
  {
  }

  /**
    * An address and port go from dotted text through the SOCKS5 domain request and the Hysteria2
    * request to the server's dialler, which reads back the same address and port.
    */
  lemma AddressPreserved(ip: bytes, port: nat, ip6: Ip6Text, dial: bytes -> Hysteria2.Dialled, up: bytes)
    requires |ip| == 4 && port < 0x1_0000
    ensures var wanted := WantedRequest(ConnectRequest(Dotted(ip), port) + up, ip6);
            && wanted.Wanted?
            && var served := Hysteria2.ServerStream(Hysteria2.TcpRequest(wanted.target) + up, dial).served;
               && (served.Relaying? || served.DialFailed?)
               && ParseDial(served.addr) == Some((ip, port))
  {
    DottedLength(ip, port);
    RequestRead(Dotted(ip), port, up, ip6);
    Hysteria2.TcpAgreement(HostPort(Dotted(ip), port), dial, up, []);
    DialRoundTrip(ip, port);
  }

  // ---- The code ----

  /** InputStream.read: one byte, or -1 at the end of the stream. */
  method ReadByte(sock: PrependConn) returns (b: int)
    modifies sock`buf, sock.conn`incoming
    ensures old(sock.Unread()) == [] ==> b == -1 && sock.Unread() == []
    ensures old(sock.Unread()) != [] ==> b == old(sock.Unread()[0]) as int && sock.Unread() == old(sock.Unread()[1..])
  {
    var one := new byte[1];
    var ok := sock.ReadFull(one);
    if !ok {
      return -1;
    }
    assert one[0] == one[..][0];
    return one[0] as int;
  }

  /** The loop that collects the ten reply bytes. */
  method ReadTen(sock: PrependConn, reply: array<byte>) returns (ok: bool)
    requires reply.Length == 10
    modifies sock`buf, sock.conn`incoming, reply
    ensures ok <==> 10 <= |old(sock.Unread())|
    ensures ok ==> reply[..] == old(sock.Unread()[..10]) && sock.Unread() == old(sock.Unread()[10..])
    ensures !ok ==> sock.Unread() == []
  {
    ghost var stream := sock.Unread();
    var read := 0;
    while read < 10
      invariant read <= 10 && read <= |stream|
      invariant reply[..read] == stream[..read]
      invariant sock.Unread() == stream[read..]
    {
      var n, end := sock.Read(reply, read);
      if end {
        return false;
      }
      DropDrop(stream, read, n);
      read := read + n;
    }
    return true;
  }

  predicate IsSuffix(s: bytes, t: bytes) {
    |s| <= |t| && s == t[|t| - |s|..]
  }

  /** How long a reply's tail can be: a domain with its length and port, or the rest of an IPv6 address and the port. */
  function TailSize(atyp: byte, s: bytes): nat {
    if atyp != 3 then 14 else if s == [] then 0 else 3 + s[0] as nat
  }

  /** What was skipped depends on how much the network delivers at once; it is something, unless nothing came. */
  predicate TailSkipped(atyp: byte, s: bytes, t: bytes) {
    IsSuffix(t, s) && |s| - |t| <= TailSize(atyp, s) && (s != [] ==> |t| < |s|)
  }

  /** Ten bytes of the reply s and some of its tail. */
  predicate LongSkipped(s: bytes, t: bytes) {
    10 <= |s| && TailSkipped(s[3], s[10..], t)
  }

  /** The rest of a reply with a domain or IPv6 address: one Read of at most the expected length. */
  method SkipTail(sock: PrependConn, atyp: byte)
    modifies sock`buf, sock.conn`incoming
    ensures TailSkipped(atyp, old(sock.Unread()), sock.Unread())
  {
    var size := 14;
    ghost var unread := sock.Unread();
    if atyp == 3 {
      var domLen := ReadByte(sock);
      size := domLen + 2;
    }
    ghost var later := sock.Unread();
    var extra := new byte[size];
    var n, end := sock.Read(extra, 0);
    assert later == unread[|unread| - |later|..] && sock.Unread() == later[|later| - |sock.Unread()|..];
  }

  method Connect(sock: PrependConn, host: bytes, port: nat) returns (result: ClientResult)
    modifies sock`buf, sock.conn`incoming, sock.conn`outgoing, sock.conn`capacity
    ensures var r := RunClient(host, port, old(sock.Unread()));
            if old(sock.conn.capacity) < |r.sent| then result == WriteFailed
            else
              && result == r.result
              && (if !result.LongReply? then sock.Unread() == r.unread
                  else 2 <= |old(sock.Unread())| && LongSkipped(old(sock.Unread())[2..], sock.Unread()))
              && sock.conn.outgoing == old(sock.conn.outgoing) + r.sent
  {
    ghost var incoming := sock.Unread();
    var err := sock.conn.Write(GREETING);
    if err {
      return WriteFailed;
    }
    assert GREETING[..3] == GREETING;
    var choice := ReadByte(sock);
    if choice != 5 {
      return BadVersion;
    }
    var selected := ReadByte(sock);
    if selected != 0 {
      return AuthRequired;
    }
    assert sock.Unread() == incoming[2..];
    var req := ConnectRequest(host, port);
    assert req[..|req|] == req;
    err := sock.conn.Write(req);
    if err {
      return WriteFailed;
    }
    ConcatAssoc(old(sock.conn.outgoing), GREETING, req);
    result := ReadReplyFrom(sock);
  }

  /** The reply: ten bytes, then whatever follows them in a longer one. */
  method ReadReplyFrom(sock: PrependConn) returns (result: ClientResult)
    modifies sock`buf, sock.conn`incoming
    ensures var s := old(sock.Unread());
            && result == ReadReply(s)
            && (if result.LongReply? then LongSkipped(s, sock.Unread()) else sock.Unread() == s[Min(10, |s|)..])
  {
    ghost var s := sock.Unread();
    var reply := new byte[10];
    var ok := ReadTen(sock, reply);
    if !ok {
      return ConnectionClosed;
    }
    assert s[..10][1] == s[1] && s[..10][3] == s[3] && reply[..][1] == reply[1] && reply[..][3] == reply[3];
    if reply[1] != 0 {
      return ErrorCode(reply[1]);
    }
    if reply[3] == 3 || reply[3] == 4 {
      SkipTail(sock, reply[3]);
      return LongReply;
    }
    return Connected;
  }

  method ReadWanted(client: PrependConn, atyp: byte, ip6: Ip6Text) returns (ok: bool, target: bytes)
    requires atyp == 1 || atyp == 3 || atyp == 4
    modifies client`buf, client.conn`incoming
    ensures match WantedAddress(atyp, old(client.Unread()), ip6)
            case NoRequest(_, unread) => !ok && client.Unread() == unread
            case Wanted(t, unread) => ok && target == t && client.Unread() == unread
  {
    var addr, host, portBytes;
    target := [];
    if atyp == 3 {
      ok, addr := Socks5.Take(client, 1);
      if !ok {
        return;
      }
      ok, host := Socks5.Take(client, addr[0] as nat);
    } else {
      ok, addr := Socks5.Take(client, if atyp == 1 then 4 else 16);
      host := if !ok then [] else if atyp == 1 then Dotted(addr) else [91] + ip6(addr) + [93];
    }
    if !ok {
      return;
    }
    ok, portBytes := Socks5.Take(client, 2);
    if ok {
      target := HostPort(host, LenAt(portBytes, 0));
    }
  }

  /** handleSocks5Client from the request on. */
  method HandleRequest(client: PrependConn, ip6: Ip6Text, open: bytes -> bool) returns (local: Local)
    modifies client`buf, client.conn`incoming, client.conn`outgoing, client.conn`capacity
    ensures var r := RunRequest(old(client.Unread()), old(client.conn.capacity), ip6, open);
            && local == r.local && client.Unread() == r.unread
            && client.conn.outgoing == old(client.conn.outgoing) + Socks5.Sent(r.replies, old(client.conn.capacity))
  {
    var err;
    var ok, req := Socks5.Take(client, 4);
    if !ok {
      return Closed;
    }
    if req[0] != 5 || req[1] != 1 {
      err := client.conn.Write(Socks5.Reply(7));
      return Closed;
    }
    if req[3] != 1 && req[3] != 3 && req[3] != 4 {
      err := client.conn.Write(Socks5.Reply(8));
      return Closed;
    }
    var target;
    ok, target := ReadWanted(client, req[3], ip6);
    if !ok {
      return Closed;
    }
    if !open(target) {
      err := client.conn.Write(Socks5.Reply(4));
      return Unreachable(target);
    }
    err := client.conn.Write(Socks5.Reply(0));
    return if err then Closed else Relaying(target);
  }

  /** The greeting. */
  method HandleGreeting(client: PrependConn) returns (ok: bool)
    modifies client`buf, client.conn`incoming, client.conn`outgoing, client.conn`capacity
    ensures match Greet(old(client.Unread()), old(client.conn.capacity))
            case Stop(replies, unread) =>
              && !ok && client.Unread() == unread
              && client.conn.outgoing == old(client.conn.outgoing) + Socks5.Sent(replies, old(client.conn.capacity))
            case Proceed(rest) =>
              && ok && client.Unread() == rest && client.conn.capacity == old(client.conn.capacity) - 2
              && client.conn.outgoing == old(client.conn.outgoing) + [5, 0]
  {
    var buf;
    ok, buf := Socks5.Take(client, 2);
    if !ok {
      return;
    }
    if buf[0] != 5 {
      return false;
    }
    var methods;
    ok, methods := Socks5.Take(client, buf[1] as nat);
    if !ok {
      return;
    }
    var reply := [5, 0];
    assert reply[..2] == reply;
    var err := client.conn.Write(reply);
    return !err;
  }

  method HandleClient(client: PrependConn, ip6: Ip6Text, open: bytes -> bool) returns (local: Local)
    modifies client`buf, client.conn`incoming, client.conn`outgoing, client.conn`capacity
    ensures var r := RunServer(old(client.Unread()), old(client.conn.capacity), ip6, open);
            && local == r.local && client.Unread() == r.unread
            && client.conn.outgoing == old(client.conn.outgoing) + Socks5.Sent(r.replies, old(client.conn.capacity))
  {
    ghost var before, capacity := client.conn.outgoing, client.conn.capacity;
    var ok := HandleGreeting(client);
    if !ok {
      return Closed;
    }
    ghost var replies := RunRequest(client.Unread(), client.conn.capacity, ip6, open).replies;
    Socks5.SentAppend([5, 0], replies, capacity);
    ConcatAssoc(before, [5, 0], Socks5.Sent(replies, capacity - 2));
    local := HandleRequest(client, ip6, open);
  }
}
