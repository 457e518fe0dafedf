/** Addresses as text: decimal numbers, dotted IPv4 addresses and host:port, printed and parsed. */
module Text {
  import opened Bytes

  const DOT: byte := 46
  const COLON: byte := 58

  predicate IsDigit(c: byte) {
    48 <= c <= 57
  }

  /** fmt's %d on a non-negative number. */
  function Decimal(n: nat): (s: bytes)
    ensures s != [] && forall i :: 0 <= i < |s| ==> IsDigit(s[i])
  {
    var last := [(48 + n % 10) as byte];
    if n < 10 then last else Decimal(n / 10) + last
  }

  function Value(s: bytes): nat
    requires forall i :: 0 <= i < |s| ==> IsDigit(s[i])
  {
    if s == [] then 0 else
      var last := s[|s| - 1];
      assert IsDigit(last);
      10 * Value(s[..|s| - 1]) + (last as nat - 48)
  }

  /** A decimal number without superfluous leading zeros, as address parsers require. */
  function ParseDecimal(s: bytes): Option<nat> {
    if s == [] || (exists i :: 0 <= i < |s| && !IsDigit(s[i])) || (1 < |s| && s[0] == 48) then None
    else Some(Value(s))
  }

  lemma {:induction false} DecimalRoundTrip(n: nat)
    ensures Value(Decimal(n)) == n
    ensures 0 < n ==> Decimal(n)[0] != 48
    ensures n < 10 ==> |Decimal(n)| == 1
    ensures ParseDecimal(Decimal(n)) == Some(n)
  {
    if 10 <= n {
      DecimalRoundTrip(n / 10);
      assert Decimal(n)[..|Decimal(n)| - 1] == Decimal(n / 10);
    } else {
      assert Decimal(n)[..0] == [];
    }
  }

  /** The parts of s between separators. */
  function Fields(s: bytes, sep: byte): seq<bytes>
    decreases |s|
  {
    if sep !in s then [s]
    else
      var i := FirstIndex(s, sep);
      [s[..i]] + Fields(s[i + 1..], sep)
  }

  function FirstIndex(s: bytes, sep: byte): (i: nat)
    requires sep in s
    ensures i < |s| && s[i] == sep && sep !in s[..i]
  {
    if s[0] == sep then 0 else
      var i := FirstIndex(s[1..], sep);
      assert s[..i + 1] == [s[0]] + s[1..][..i];
      i + 1
  }

  lemma FieldsCons(head: bytes, sep: byte, tail: bytes)
    requires sep !in head
    ensures Fields(head + ([sep] + tail), sep) == [head] + Fields(tail, sep)
  {
    var s := head + ([sep] + tail);
    assert s[..|head|] == head && s[|head|] == sep && s[|head| + 1..] == tail;
    assert FirstIndex(s, sep) == |head|;
  }

  function Join(parts: seq<bytes>, sep: byte): bytes {
    if parts == [] then [] else if |parts| == 1 then parts[0] else parts[0] + ([sep] + Join(parts[1..], sep))
  }

  /** Joining parts and splitting again gives the parts. */
  lemma {:induction false} FieldsJoin(parts: seq<bytes>, sep: byte)
    requires parts != [] && forall i :: 0 <= i < |parts| ==> sep !in parts[i]
    ensures Fields(Join(parts, sep), sep) == parts
  {
    if 1 < |parts| {
      FieldsJoin(parts[1..], sep);
      FieldsCons(parts[0], sep, Join(parts[1..], sep));
    }
  }

  lemma DigitsOnly(n: nat)
    ensures DOT !in Decimal(n) && COLON !in Decimal(n)
  {
  }

  // ---- Addresses ----

  function Decimals(ip: bytes): (parts: seq<bytes>)
    ensures |parts| == |ip|
    ensures forall i :: 0 <= i < |ip| ==> parts[i] == Decimal(ip[i] as nat)
  {
    if ip == [] then [] else [Decimal(ip[0] as nat)] + Decimals(ip[1..])
  }

  /** net.IP.String and InetAddress.getHostAddress on four octets. */
  function Dotted(ip: bytes): bytes
    requires |ip| == 4
  {
    Join(Decimals(ip), DOT)
  }

  /** fmt's "%s:%d". */
  function HostPort(host: bytes, port: nat): bytes {
    host + ([COLON] + Decimal(port))
  }

  function ParseOctets(fields: seq<bytes>): Option<bytes> {
    if fields == [] then Some([])
    else
      match (ParseDecimal(fields[0]), ParseOctets(fields[1..]))
      case (Some(n), Some(rest)) => if n < 256 then Some([n as byte] + rest) else None
      case _ => None
  }

  /** What a dialler makes of "a.b.c.d:port": the address and port. */
  function ParseDial(s: bytes): Option<(bytes, nat)> {
    var parts := Fields(s, COLON);
    if |parts| != 2 then None
    else
      match (ParseOctets(Fields(parts[0], DOT)), ParseDecimal(parts[1]))
      case (Some(ip), Some(port)) => if |ip| == 4 && port < 0x1_0000 then Some((ip, port)) else None
      case _ => None
  }

  lemma {:induction false} OctetsParse(ip: bytes)
    ensures ParseOctets(Decimals(ip)) == Some(ip)
  {
    if ip != [] {
      DecimalRoundTrip(ip[0] as nat);
      OctetsParse(ip[1..]);
      assert [ip[0]] + ip[1..] == ip;
    }
  }

  lemma {:induction false} JoinWithout(parts: seq<bytes>, sep: byte, c: byte)
    requires c != sep && forall i :: 0 <= i < |parts| ==> c !in parts[i]
    ensures c !in Join(parts, sep)
  {
    if 1 < |parts| {
      JoinWithout(parts[1..], sep, c);
    }
  }

  /** Printing an address and port and parsing the text gives them back. */
  lemma DialRoundTrip(ip: bytes, port: nat)
    requires |ip| == 4 && port < 0x1_0000
    ensures ParseDial(HostPort(Dotted(ip), port)) == Some((ip, port))
  {
    forall i | 0 <= i < 4 ensures DOT !in Decimals(ip)[i] && COLON !in Decimals(ip)[i] {
      DigitsOnly(ip[i] as nat);
    }
    JoinWithout(Decimals(ip), DOT, COLON);
    FieldsJoin(Decimals(ip), DOT);
    OctetsParse(ip);
    DigitsOnly(port);
    FieldsCons(Dotted(ip), COLON, Decimal(port));
    assert Fields(HostPort(Dotted(ip), port), COLON) == [Dotted(ip), Decimal(port)];
    DecimalRoundTrip(port);
  }

  /** The text of an address and a port: decimal octets between dots, a colon, the port. */
  lemma AddressText(a: byte, b: byte, c: byte, d: byte, port: nat)
    ensures HostPort(Dotted([a, b, c, d]), port)
         == Decimal(a as nat) + ([46] + (Decimal(b as nat) + ([46] + (Decimal(c as nat)
            + ([46] + Decimal(d as nat)))))) + ([58] + Decimal(port))
  {
    var parts := Decimals([a, b, c, d]);
    assert parts == [Decimal(a as nat), Decimal(b as nat), Decimal(c as nat), Decimal(d as nat)];
    assert parts[1..] == [Decimal(b as nat), Decimal(c as nat), Decimal(d as nat)];
    assert parts[1..][1..] == [Decimal(c as nat), Decimal(d as nat)];
    assert parts[1..][1..][1..] == [Decimal(d as nat)];
    assert Join(parts[1..][1..], DOT) == Decimal(c as nat) + ([46] + Decimal(d as nat));
    assert Join(parts[1..], DOT) == Decimal(b as nat) + ([46] + Join(parts[1..][1..], DOT));
  }

  /** Digits are those of the number, most significant first. */
  lemma DigitsOf(n: nat)
    ensures n < 10 ==> Decimal(n) == [(48 + n) as byte]
    ensures 10 <= n ==> Decimal(n) == Decimal(n / 10) + [(48 + n % 10) as byte]
  {
  }

  lemma {:induction false} DecimalLength(n: nat, k: nat)
    requires 0 < k && n < Pow10(k)
    ensures |Decimal(n)| <= k
  {
    if 10 <= n {
      DecimalLength(n / 10, k - 1);
    }
  }

  function Pow10(k: nat): nat {
    if k == 0 then 1 else 10 * Pow10(k - 1)
  }

  lemma {:induction false} JoinLength(parts: seq<bytes>, sep: byte, k: nat)
    requires forall i :: 0 <= i < |parts| ==> |parts[i]| <= k
    ensures |Join(parts, sep)| <= (k + 1) * |parts|
  {
    if 1 < |parts| {
      JoinLength(parts[1..], sep, k);
      assert (k + 1) * |parts| == (k + 1) * (|parts| - 1) + (k + 1);
    }
  }

  /** Dotted text fits a SOCKS5 domain field, and with a port a 16-bit length. */
  lemma DottedLength(ip: bytes, port: nat)
    requires |ip| == 4 && port < 0x1_0000
    ensures |Dotted(ip)| <= 16 && |HostPort(Dotted(ip), port)| <= 22
  {
    assert Pow10(3) == 1000 && Pow10(5) == 100000;
    forall i | 0 <= i < 4 ensures |Decimals(ip)[i]| <= 3 {
      DecimalLength(ip[i] as nat, 3);
    }
    JoinLength(Decimals(ip), DOT, 3);
    DecimalLength(port, 5);
  }
}
