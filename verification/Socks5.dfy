/** SOCKS5 as the proxy serves it (socks5Handshake, handleSOCKS5), against parsing from scratch. */
module Socks5 {
  import opened Bytes
  import opened Net
  import opened Text

  const VERSION: byte := 5
  const NO_AUTH: byte := 0
  const NO_METHOD: byte := 0xFF

  datatype Error =
    | ReadGreeting | BadVersion | ReadMethods | WriteMethod | NoAcceptable | ReadRequest | BadRequestVersion
    | BadCommand | ReadIpv4 | ReadDomainLen | ReadDomain | Ipv6 | BadAddressType | ReadPort

  datatype Result = Target(addr: bytes) | Refused(error: Error)

  /** A result, everything written to the client, and what is left unread. */
  datatype Outcome = Outcome(result: Result, replies: bytes, unread: bytes)

  /** The ten-byte reply with a code and bound address 0.0.0.0:0. */
  function Reply(code: byte): bytes {
    [VERSION, code, 0, 1, 0, 0, 0, 0, 0, 0]
  }

  function PortOf(host: bytes, s: bytes): Outcome {
    if |s| < 2 then Outcome(Refused(ReadPort), [], []) else Outcome(Target(HostPort(host, LenAt(s, 0))), [], s[2..])
  }

  /** The address that follows a request header of the given type. */
  function Address(atyp: byte, s: bytes): Outcome {
    match atyp
    case 1 =>
      if |s| < 4 then Outcome(Refused(ReadIpv4), [], []) else PortOf(Dotted(s[..4]), s[4..])
    case 3 =>
      if |s| < 1 then Outcome(Refused(ReadDomainLen), [], [])
      else if |s| - 1 < s[0] as nat then Outcome(Refused(ReadDomain), [], [])
      else PortOf(s[1..][..s[0]], s[1..][s[0]..])
    case 4 => Outcome(Refused(Ipv6), Reply(8), s[Min(18, |s|)..])
    case _ => Outcome(Refused(BadAddressType), Reply(8), s)
  }

  /** The CONNECT request (section 4 of RFC 1928). */
  function Request(s: bytes): Outcome {
    if |s| < 4 then Outcome(Refused(ReadRequest), [], [])
    else if s[0] != VERSION then Outcome(Refused(BadRequestVersion), [], s[4..])
    else if s[1] != 1 then Outcome(Refused(BadCommand), Reply(7), s[4..])
    else Address(s[3], s[4..])
  }

  function Selected(methods: bytes): byte {
    if NO_AUTH in methods then NO_AUTH else NO_METHOD
  }

  /** Method selection, then the request; capacity bytes can be written before the connection fails. */
  function Negotiate(methods: bytes, rest: bytes, capacity: nat): Outcome {
    var choice := [VERSION, Selected(methods)];
    if capacity < 2 then Outcome(Refused(WriteMethod), choice, rest)
    else if NO_AUTH !in methods then Outcome(Refused(NoAcceptable), choice, rest)
    else
      var o := Request(rest);
      o.(replies := choice + o.replies)
  }

  /** Parsing the whole stream from scratch (section 3 of RFC 1928). */
  function Reference(stream: bytes, capacity: nat): Outcome {
    if |stream| < 2 then Outcome(Refused(ReadGreeting), [], [])
    else if stream[0] != VERSION then Outcome(Refused(BadVersion), [], stream[2..])
    else if |stream| - 2 < stream[1] as nat then Outcome(Refused(ReadMethods), [], [])
    else Negotiate(stream[2..][..stream[1]], stream[2..][stream[1]..], capacity)
  }

  // ---- What clients are told ----

  /** A reply to a request: version 5, a code, and address type 1 (section 6 of RFC 1928). */
  predicate IsReply(s: bytes, code: byte) {
    |s| == 10 && s[0] == 5 && s[1] == code && s[2] == 0 && s[3] == 1
  }

  /** A refused client is told why: 7 for a command other than CONNECT, 8 for an address type not served. */
  lemma RefusalsTold(s: bytes)
    requires 4 <= |s| && s[0] == 5
    ensures s[1] != 1 ==> IsReply(Request(s).replies, 7) && Request(s).result.Refused? && Request(s).unread == s[4..]
    ensures s[1] == 1 && s[3] != 1 && s[3] != 3 ==> IsReply(Request(s).replies, 8) && Request(s).result.Refused?
    ensures s[1] == 1 && (s[3] == 1 || s[3] == 3) ==> Request(s).replies == []
  {
  }

  /** A greeting or a request of another version is refused without a word. */
  lemma OtherVersions(s: bytes, capacity: nat)
    requires 2 <= |s| && s[0] != 5
    ensures Reference(s, capacity).result.Refused? && Reference(s, capacity).replies == []
    ensures Request(s).result.Refused? && Request(s).replies == []
  {
  }

  /** A client that does not offer no-auth is told 255 and served no further. */
  lemma NoAuthNeeded(methods: bytes, rest: bytes, capacity: nat)
    requires |methods| < 256 && 2 <= capacity
    ensures var o := Reference([5, |methods| as byte] + methods + rest, capacity);
            && (0 !in methods ==> o.replies == [5, 255] && o.result.Refused? && o.unread == rest)
            && (0 in methods ==> o == Request(rest).(replies := [5, 0] + Request(rest).replies))
  {
    var stream := [5, |methods| as byte] + methods + rest;
    assert stream[2..] == methods + rest;
    assert stream[2..][..|methods|] == methods && stream[2..][|methods|..] == rest;
  }

  /** A request for an IPv4 address reaches the dialler as that address and port. */
  lemma Ipv4Dialled(ip: bytes, port: nat, up: bytes)
    requires |ip| == 4 && port < 0x1_0000
    ensures var o := Request([5, 1, 0, 1] + ip + Be16(port) + up);
            o.result.Target? && ParseDial(o.result.addr) == Some((ip, port)) && o.unread == up
  {
    var s := [5, 1, 0, 1] + ip + Be16(port) + up;
    assert s[4..] == ip + (Be16(port) + up);
    assert s[4..][..4] == ip && s[4..][4..] == Be16(port) + up;
    PortSplit(Dotted(ip), port, up);
    DialRoundTrip(ip, port);
  }

  lemma PortSplit(host: bytes, port: nat, up: bytes)
    requires port < 0x1_0000
    ensures PortOf(host, Be16(port) + up) == Outcome(Target(HostPort(host, port)), [], up)
  {
    var s := Be16(port) + up;
    HoldsWhole(s);
    HoldsSplit(s, 0, Be16(port), 2, up);
    HoldsLen(s, 0, port);
    assert s[2..] == up;
  }

  /** A request for a domain reaches the dialler as its name and port. */
  lemma DomainDialled(host: bytes, port: nat, up: bytes)
    requires |host| < 256 && port < 0x1_0000
    ensures Request([5, 1, 0, 3] + ([|host| as byte] + (host + Be16(port))) + up)
         == Outcome(Target(HostPort(host, port)), [], up)
  {
    var s := [5, 1, 0, 3] + ([|host| as byte] + (host + Be16(port))) + up;
    var tail := Be16(port) + up;
    assert s[4..] == [|host| as byte] + (host + tail);
    assert s[4..][1..] == host + tail;
    assert (host + tail)[..|host|] == host && (host + tail)[|host|..] == tail;
    PortSplit(host, port, up);
  }

  // ---- socks5Handshake ----

  /** The method bytes, from the peek and then the connection, and what follows; copy drops what does not fit. */
  function Offered(peek: bytes, rest: bytes): Option<(bytes, bytes)>
    requires 2 <= |peek|
  {
    var have, n := |peek| - 2, peek[1] as nat;
    if n <= have then Some((peek[2..][..n], rest))
    else if |rest| < n - have then None
    else Some((peek[2..] + rest[..n - have], rest[n - have..]))
  }

  function Methods(peek: bytes, rest: bytes, capacity: nat): Outcome
    requires 2 <= |peek|
  {
    match Offered(peek, rest)
    case None => Outcome(Refused(ReadMethods), [], [])
    case Some((methods, later)) => Negotiate(methods, later, capacity)
  }

  /** What socks5Handshake does when peek was read before and rest is still to come. */
  function Handshake(peek: bytes, rest: bytes, capacity: nat): Outcome {
    if |peek| < 2 then
      var need := 2 - |peek|;
      if |rest| < need then Outcome(Refused(ReadGreeting), [], [])
      else
        var greeting := peek + rest[..need];
        if greeting[0] != VERSION then Outcome(Refused(BadVersion), [], rest[need..])
        else Methods(greeting, rest[need..], capacity)
    else if peek[0] != VERSION then Outcome(Refused(BadVersion), [], rest)
    else Methods(peek, rest, capacity)
  }

  /** The callers' peeks: none, or the bytes that made Server.handle choose SOCKS5. */
  predicate IsPeek(peek: bytes) {
    |peek| <= 4 && (peek != [] ==> peek[0] == VERSION)
  }

  /** The peek ends within the greeting. */
  predicate WithinGreeting(peek: bytes) {
    |peek| <= 2 || |peek| - 2 <= peek[1] as nat
  }

  lemma MethodsSplit(peek: bytes, rest: bytes, capacity: nat)
    requires 2 <= |peek| && |peek| - 2 <= peek[1] as nat && peek[0] == VERSION
    ensures Methods(peek, rest, capacity) == Reference(peek + rest, capacity)
  {
    var stream, tail, have, n := peek + rest, peek[2..], |peek| - 2, peek[1] as nat;
    SplitConcat(peek, rest, 2);
    assert stream[2..] == tail + rest;
    OfferedIs(peek, rest, n - have);
  }

  /** The methods and what follows, in terms of the whole stream after the two header bytes. */
  lemma OfferedIs(peek: bytes, rest: bytes, k: nat)
    requires 2 <= |peek| && peek[1] as nat == |peek| - 2 + k
    ensures var tail, n := peek[2..] + rest, peek[1] as nat;
            Offered(peek, rest) == if |tail| < n then None else Some((tail[..n], tail[n..]))
  {
    var tail, n := peek[2..], peek[1] as nat;
    if k <= |rest| {
      assert (tail + rest)[..n] == tail + rest[..k] && (tail + rest)[n..] == rest[k..];
      if k == 0 {
        assert tail[..n] == tail + rest[..0] && rest[0..] == rest;
      }
    }
  }

  lemma PeekIsInvisible(peek: bytes, rest: bytes, capacity: nat)
    requires IsPeek(peek) && WithinGreeting(peek)
    ensures Handshake(peek, rest, capacity) == Reference(peek + rest, capacity)
  {
    var stream := peek + rest;
    if 2 <= |peek| {
      MethodsSplit(peek, rest, capacity);
    } else if 2 <= |stream| {
      var need := 2 - |peek|;
      var greeting, later := peek + rest[..need], rest[need..];
      assert greeting + later == stream && stream[2..] == later;
      if greeting[0] == VERSION {
        MethodsSplit(greeting, later, capacity);
      }
    }
  }

  /** With a longer peek, a complete request that follows is answered differently. */
  lemma LongPeekShows(peek: bytes, capacity: nat) returns (rest: bytes)
    requires IsPeek(peek) && !WithinGreeting(peek)
    ensures Handshake(peek, rest, capacity) != Reference(peek + rest, capacity)
  {
    var n := peek[1] as nat;
    rest := [5, 1, 0, 1, 1, 2, 3, 4, 0, 80];
    var stream := peek + rest;
    var dropped := peek[2..][n..];
    assert stream[2..][..n] == peek[2..][..n] && stream[2..][n..] == dropped + rest;
    if 2 <= capacity && NO_AUTH in peek[2..][..n] {
      assert Handshake(peek, rest, capacity).unread == [];
      RequestShifted(dropped, rest);
    }
  }

  lemma RequestShifted(dropped: bytes, rest: bytes)
    requires 1 <= |dropped| <= 2 && rest == [5, 1, 0, 1, 1, 2, 3, 4, 0, 80]
    ensures Request(dropped + rest).unread != []
  {
    var s := dropped + rest;
    if |dropped| == 1 {
      assert s[1] == 5;
      assert |s[4..]| == 7;
    } else {
      assert s[3] == 1 && |s| == 12;
      assert |s[4..]| == 8 && |s[4..][4..]| == 4 && |s[4..][4..][2..]| == 2;
    }
  }

  /**
    * Exactly when the peek cannot be told from unread bytes: the handshake agrees with parsing the
    * whole stream, for every continuation, if and only if the peek does not reach past the greeting.
    */
  lemma PeekRefinement(peek: bytes, capacity: nat)
    requires IsPeek(peek)
    ensures (forall rest: bytes :: Handshake(peek, rest, capacity) == Reference(peek + rest, capacity))
       <==> WithinGreeting(peek)
  {
    if WithinGreeting(peek) {
      forall rest: bytes ensures Handshake(peek, rest, capacity) == Reference(peek + rest, capacity) {
        PeekIsInvisible(peek, rest, capacity);
      }
    } else {
      var rest := LongPeekShows(peek, capacity);
      assert Handshake(peek, rest, capacity) != Reference(peek + rest, capacity);
    }
  }

  // ---- The code ----

  /** make and io.ReadFull of n bytes. */
  method Take(conn: PrependConn, n: nat) returns (ok: bool, s: bytes)
    modifies conn`buf, conn.conn`incoming
    ensures |conn.buf| <= |old(conn.buf)|
    ensures ok <==> n <= |old(conn.Unread())|
    ensures ok ==> s == old(conn.Unread()[..n]) && conn.Unread() == old(conn.Unread()[n..])
    ensures !ok ==> conn.Unread() == []
  {
    var b := new byte[n];
    ok := conn.ReadFull(b);
    s := b[..];
  }

  /** What capacity lets through of the replies. */
  function Sent(replies: bytes, capacity: nat): bytes {
    replies[..Min(|replies|, capacity)]
  }

  lemma SentAppend(a: bytes, b: bytes, capacity: nat)
    requires |a| <= capacity
    ensures Sent(a + b, capacity) == a + Sent(b, capacity - |a|)
  {
  }

  method ReadPortOf(conn: PrependConn, host: bytes) returns (r: Result)
    modifies conn`buf, conn.conn`incoming
    ensures |conn.buf| <= |old(conn.buf)|
    ensures var o := PortOf(host, old(conn.Unread())); r == o.result && conn.Unread() == o.unread
  {
    var ok, portB := Take(conn, 2);
    if !ok {
      return Refused(ReadPort);
    }
    return Target(HostPort(host, LenAt(portB, 0)));
  }

  method ReadAddress(conn: PrependConn, atyp: byte) returns (r: Result)
    modifies conn`buf, conn.conn`incoming, conn.conn`outgoing, conn.conn`capacity
    ensures |conn.buf| <= |old(conn.buf)|
    ensures var o := Address(atyp, old(conn.Unread()));
            && r == o.result && conn.Unread() == o.unread
            && conn.conn.outgoing == old(conn.conn.outgoing) + Sent(o.replies, old(conn.conn.capacity))
            && conn.conn.capacity == old(conn.conn.capacity) - |Sent(o.replies, old(conn.conn.capacity))|
  {
    var ok, s;
    var err;
    match atyp {
      case 1 =>
        ok, s := Take(conn, 4);
        if !ok {
          return Refused(ReadIpv4);
        }
        r := ReadPortOf(conn, Dotted(s));
      case 3 =>
        ok, s := Take(conn, 1);
        if !ok {
          return Refused(ReadDomainLen);
        }
        ok, s := Take(conn, s[0] as nat);
        if !ok {
          return Refused(ReadDomain);
        }
        r := ReadPortOf(conn, s);
      case 4 =>
        ghost var unread := conn.Unread();
        ok, s := Take(conn, 18);
        err := conn.conn.Write(Reply(8));
        return Refused(Ipv6);
      case _ =>
        err := conn.conn.Write(Reply(8));
        return Refused(BadAddressType);
    }
  }

  method ReadRequestFrom(conn: PrependConn) returns (r: Result)
    modifies conn`buf, conn.conn`incoming, conn.conn`outgoing, conn.conn`capacity
    ensures |conn.buf| <= |old(conn.buf)|
    ensures var o := Request(old(conn.Unread()));
            && r == o.result && conn.Unread() == o.unread
            && conn.conn.outgoing == old(conn.conn.outgoing) + Sent(o.replies, old(conn.conn.capacity))
            && conn.conn.capacity == old(conn.conn.capacity) - |Sent(o.replies, old(conn.conn.capacity))|
  {
    var ok, hdr := Take(conn, 4);
    if !ok {
      return Refused(ReadRequest);
    }
    if hdr[0] != VERSION {
      return Refused(BadRequestVersion);
    }
    if hdr[1] != 1 {
      var err := conn.conn.Write(Reply(7));
      return Refused(BadCommand);
    }
    r := ReadAddress(conn, hdr[3]);
  }

  method ChooseMethod(methods: bytes) returns (selected: byte)
    ensures selected == Selected(methods)
  {
    selected := NO_METHOD;
    for i := 0 to |methods|
      invariant NO_AUTH !in methods[..i] && selected == NO_METHOD
    {
      if methods[i] == NO_AUTH {
        return NO_AUTH;
      }
      assert methods[..i + 1] == methods[..i] + [methods[i]];
    }
    assert methods[..|methods|] == methods;
  }

  method NegotiateOn(conn: PrependConn, methods: bytes) returns (r: Result)
    modifies conn`buf, conn.conn`incoming, conn.conn`outgoing, conn.conn`capacity
    ensures |conn.buf| <= |old(conn.buf)|
    ensures var o := Negotiate(methods, old(conn.Unread()), old(conn.conn.capacity));
            && r == o.result && conn.Unread() == o.unread
            && conn.conn.outgoing == old(conn.conn.outgoing) + Sent(o.replies, old(conn.conn.capacity))
            && conn.conn.capacity == old(conn.conn.capacity) - |Sent(o.replies, old(conn.conn.capacity))|
  {
    var selected := ChooseMethod(methods);
    var choice := [VERSION, selected];
    ghost var before, capacity := conn.conn.outgoing, conn.conn.capacity;
    var err := conn.conn.Write(choice);
    if err {
      return Refused(WriteMethod);
    }
    assert conn.conn.outgoing == before + choice;
    if selected == NO_METHOD {
      return Refused(NoAcceptable);
    }
    ghost var replies := Request(conn.Unread()).replies;
    r := ReadRequestFrom(conn);
    SentAppend(choice, replies, capacity);
    ConcatAssoc(before, choice, Sent(replies, capacity - 2));
  }

  /** The offered methods, some of them perhaps already in the peek. */
  method ReadMethodsFrom(conn: PrependConn, peek: bytes) returns (ok: bool, methods: bytes)
    requires 2 <= |peek|
    modifies conn`buf, conn.conn`incoming
    ensures |conn.buf| <= |old(conn.buf)|
    ensures match Offered(peek, old(conn.Unread()))
            case None => !ok && conn.Unread() == []
            case Some((offered, later)) => ok && methods == offered && conn.Unread() == later
  {
    var nMethods, haveMethods := peek[1] as nat, |peek| - 2;
    methods := peek[2..][..Min(nMethods, haveMethods)];
    if haveMethods < nMethods {
      assert methods == peek[2..];
      var more;
      ok, more := Take(conn, nMethods - haveMethods);
      if !ok {
        return;
      }
      methods := methods + more;
    }
    ok := true;
  }

  /** socks5Handshake. */
  method HandshakeOn(conn: PrependConn, peeked: bytes) returns (r: Result)
    modifies conn`buf, conn.conn`incoming, conn.conn`outgoing, conn.conn`capacity
    ensures |conn.buf| <= |old(conn.buf)|
    ensures var o := Handshake(peeked, old(conn.Unread()), old(conn.conn.capacity));
            && r == o.result && conn.Unread() == o.unread
            && conn.conn.outgoing == old(conn.conn.outgoing) + Sent(o.replies, old(conn.conn.capacity))
            && conn.conn.capacity == old(conn.conn.capacity) - |Sent(o.replies, old(conn.conn.capacity))|
  {
    var peek := peeked;
    if |peek| < 2 {
      var ok, extra := Take(conn, 2 - |peek|);
      if !ok {
        return Refused(ReadGreeting);
      }
      peek := peek + extra;
    }
    if peek[0] != VERSION {
      return Refused(BadVersion);
    }
    var ok, methods := ReadMethodsFrom(conn, peek);
    if !ok {
      return Refused(ReadMethods);
    }
    r := NegotiateOn(conn, methods);
  }

  /** handleSOCKS5 up to the relay: the handshake, then the reply that tells how dialling went. */
  method Serve(conn: PrependConn, peek: bytes, dial: bytes -> bool) returns (relay: Option<bytes>)
    modifies conn`buf, conn.conn`incoming, conn.conn`outgoing, conn.conn`capacity
    ensures |conn.buf| <= |old(conn.buf)|
    ensures var o := Handshake(peek, old(conn.Unread()), old(conn.conn.capacity));
            && conn.Unread() == o.unread
            && relay == (if o.result.Target? && dial(o.result.addr) then Some(o.result.addr) else None)
            && conn.conn.outgoing
               == old(conn.conn.outgoing) + Sent(o.replies + DialReply(o.result, dial), old(conn.conn.capacity))
  {
    ghost var o := Handshake(peek, conn.Unread(), conn.conn.capacity);
    ghost var before, capacity := conn.conn.outgoing, conn.conn.capacity;
    var r := HandshakeOn(conn, peek);
    if r.Refused? {
      assert o.replies + [] == o.replies;
      return None;
    }
    TargetReplies(peek, old(conn.Unread()), capacity);
    SentAppend(o.replies, DialReply(r, dial), capacity);
    ConcatAssoc(before, o.replies, Sent(DialReply(r, dial), capacity - 2));
    relay := Answer(conn, r.addr, dial);
  }

  /** Dialling and the reply that tells how it went. */
  method Answer(conn: PrependConn, addr: bytes, dial: bytes -> bool) returns (relay: Option<bytes>)
    modifies conn.conn`outgoing, conn.conn`capacity
    ensures relay == if dial(addr) then Some(addr) else None
    ensures conn.conn.outgoing == old(conn.conn.outgoing) + Sent(DialReply(Target(addr), dial), old(conn.conn.capacity))
  {
    var err;
    if !dial(addr) {
      err := conn.conn.Write(Reply(4));
      return None;
    }
    err := conn.conn.Write(Reply(0));
    return Some(addr);
  }

  function DialReply(r: Result, dial: bytes -> bool): bytes {
    if r.Refused? then [] else if dial(r.addr) then Reply(0) else Reply(4)
  }

  lemma TargetReplies(peek: bytes, rest: bytes, capacity: nat)
    requires Handshake(peek, rest, capacity).result.Target?
    ensures Handshake(peek, rest, capacity).replies == [VERSION, NO_AUTH] && 2 <= capacity
  {
    if |peek| < 2 {
      var need := 2 - |peek|;
      MethodsTarget(peek + rest[..need], rest[need..], capacity);
    } else {
      MethodsTarget(peek, rest, capacity);
    }
  }

  lemma MethodsTarget(peek: bytes, rest: bytes, capacity: nat)
    requires 2 <= |peek| && Methods(peek, rest, capacity).result.Target?
    ensures Methods(peek, rest, capacity).replies == [VERSION, NO_AUTH] && 2 <= capacity
  {
    var (methods, later) := Offered(peek, rest).value;
    RequestTarget(later);
    assert Methods(peek, rest, capacity) == Negotiate(methods, later, capacity);
    assert [VERSION, NO_AUTH] + [] == [VERSION, NO_AUTH];
  }

  /** A request that names a target has been answered with nothing so far. */
  lemma RequestTarget(s: bytes)
    ensures Request(s).result.Target? ==> Request(s).replies == []
  {
  }
}
