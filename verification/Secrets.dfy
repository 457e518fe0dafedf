/** Secrets as configured and shared: parseSecret and Secret.HexString. */
module Secrets {
  import opened Bytes
  import opened Handshake

  // ---- Hexadecimal (encoding/hex) ----

  const DIGITS: string := "0123456789abcdef"

  function DigitValue(c: char): Option<nat> {
    if '0' <= c <= '9' then Some(c as nat - '0' as nat)
    else if 'a' <= c <= 'f' then Some(c as nat - 'a' as nat + 10)
    else if 'A' <= c <= 'F' then Some(c as nat - 'A' as nat + 10)
    else None
  }

  function Encode(b: bytes): (s: string)
    ensures |s| == 2 * |b|
  {
    if b == [] then "" else [DIGITS[b[0] / 16], DIGITS[b[0] % 16]] + Encode(b[1..])
  }

  /** Digits of either case; an odd length or any other character is an error. */
  function Decode(s: string): Option<bytes> {
    if s == "" then Some([])
    else if |s| == 1 then None
    else
      match (DigitValue(s[0]), DigitValue(s[1]), Decode(s[2..]))
      case (Some(high), Some(low), Some(rest)) => Some([(16 * high + low) as byte] + rest)
      case _ => None
  }

  function LowerChar(c: char): char {
    if 'A' <= c <= 'Z' then (c as int + 32) as char else c
  }

  function Lower(s: string): (t: string)
    ensures |t| == |s|
  {
    if s == "" then "" else [LowerChar(s[0])] + Lower(s[1..])
  }

  lemma DigitRoundTrip(n: nat)
    requires n < 16
    ensures DigitValue(DIGITS[n]) == Some(n)
  {
    assert DIGITS[0] == '0' && DIGITS[1] == '1' && DIGITS[2] == '2' && DIGITS[3] == '3' && DIGITS[4] == '4';
    assert DIGITS[5] == '5' && DIGITS[6] == '6' && DIGITS[7] == '7' && DIGITS[8] == '8' && DIGITS[9] == '9';
    assert DIGITS[10] == 'a' && DIGITS[11] == 'b';
    assert DIGITS[12] == 'c' && DIGITS[13] == 'd' && DIGITS[14] == 'e' && DIGITS[15] == 'f';
  }

  lemma DigitOfValue(c: char)
    requires DigitValue(c).Some?
    ensures DigitValue(c).value < 16 && DIGITS[DigitValue(c).value] == LowerChar(c)
  {
    var n := DigitValue(c).value;
    if n < 10 {
      assert DIGITS[..10] == "0123456789";
      assert DIGITS[n] == DIGITS[..10][n];
    } else {
      assert DIGITS[10..] == "abcdef";
      assert DIGITS[n] == DIGITS[10..][n - 10];
    }
  }

  lemma {:induction false} DecodeEncode(b: bytes)
    ensures Decode(Encode(b)) == Some(b)
  {
    if b != [] {
      DigitRoundTrip((b[0] / 16) as nat);
      DigitRoundTrip((b[0] % 16) as nat);
      DecodeEncode(b[1..]);
      assert Encode(b)[2..] == Encode(b[1..]);
      assert [b[0]] + b[1..] == b;
    }
  }

  lemma {:induction false} EncodeDecode(s: string)
    requires Decode(s).Some?
    ensures Encode(Decode(s).value) == Lower(s) && |s| == 2 * |Decode(s).value|
  {
    if s != "" {
      DigitOfValue(s[0]);
      DigitOfValue(s[1]);
      EncodeDecode(s[2..]);
      LowerPair(s);
      var high, low, rest := DigitValue(s[0]).value, DigitValue(s[1]).value, Decode(s[2..]).value;
      assert Decode(s) == Some([(16 * high + low) as byte] + rest);
      Nibbles(high, low);
      EncodeCons((16 * high + low) as byte, high, low, rest);
    }
  }

  lemma LowerPair(s: string)
    requires 2 <= |s|
    ensures Lower(s) == [LowerChar(s[0]), LowerChar(s[1])] + Lower(s[2..])
  {
    assert s[1..][1..] == s[2..];
  }

  lemma EncodeCons(b: byte, high: nat, low: nat, rest: bytes)
    requires high < 16 && low < 16 && b / 16 == high as byte && b % 16 == low as byte
    ensures Encode([b] + rest) == [DIGITS[high], DIGITS[low]] + Encode(rest)
  {
    assert ([b] + rest)[1..] == rest;
  }

  lemma Nibbles(high: nat, low: nat)
    requires high < 16 && low < 16
    ensures (16 * high + low) as byte / 16 == high as byte && (16 * high + low) as byte % 16 == low as byte
  {
  }

  // ---- Secrets ----

  datatype ParseError = EeTooShort | EeBadHex | BadDomainHex | DdBadHex | DdBadLength | BadHex | BadLength
  datatype Parsed = Ok(secret: Secret) | Err(error: ParseError)

  function HexString(s: Secret): string {
    match s.kind
    case DD => "dd" + Encode(s.raw)
    case EE => "ee" + (Encode(s.raw) + Encode(s.domain))
  }

  function ParseEe(rest: string): Parsed {
    if |rest| < 32 then Err(EeTooShort)
    else
      match Decode(rest[..32])
      case None => Err(EeBadHex)
      case Some(raw) =>
        match Decode(rest[32..])
        case None => Err(BadDomainHex)
        case Some(domain) => Ok(Secret(raw, EE, domain))
  }

  function ParseSecret(s: string): Parsed {
    if "ee" <= s then ParseEe(s[2..])
    else if "dd" <= s then
      match Decode(s[2..])
      case None => Err(DdBadHex)
      case Some(raw) => if |raw| != 16 then Err(DdBadLength) else Ok(Secret(raw, DD, []))
    else
      match Decode(s)
      case None => Err(BadHex)
      case Some(raw) => if |raw| != 16 then Err(BadLength) else Ok(Secret(raw, DD, []))
  }

  /** The secrets parseSecret produces: 16 key bytes, and a domain only for ee. */
  predicate WellFormed(s: Secret) {
    |s.raw| == 16 && (s.kind == DD ==> s.domain == [])
  }

  /** Printing and parsing restores every well-formed secret, whatever the key and domain. */
  lemma ParsePrinted(s: Secret)
    requires WellFormed(s)
    ensures ParseSecret(HexString(s)) == Ok(s)
  {
    DecodeEncode(s.raw);
    var text := HexString(s);
    if s.kind == DD {
      assert text[0] == 'd' && text[2..] == Encode(s.raw);
    } else {
      var rest := Encode(s.raw) + Encode(s.domain);
      assert text[2..] == rest;
      assert rest[..32] == Encode(s.raw) && rest[32..] == Encode(s.domain);
      DecodeEncode(s.domain);
    }
  }

  /** The canonical spelling: lower case, with an explicit prefix. */
  function Canonical(s: string): string {
    if "ee" <= s then "ee" + Lower(s[2..]) else if "dd" <= s then "dd" + Lower(s[2..]) else "dd" + Lower(s)
  }

  lemma {:induction false} LowerConcat(a: string, b: string)
    ensures Lower(a + b) == Lower(a) + Lower(b)
  {
    if a == "" {
      assert a + b == b;
    } else {
      assert (a + b)[1..] == a[1..] + b;
      LowerConcat(a[1..], b);
    }
  }

  /** Any accepted string is well formed and prints as its canonical spelling, which parses to the same secret. */
  lemma PrintParsed(s: string)
    requires ParseSecret(s).Ok?
    ensures var secret := ParseSecret(s).secret;
            WellFormed(secret) && HexString(secret) == Canonical(s) && ParseSecret(Canonical(s)) == Ok(secret)
  {
    var secret := ParseSecret(s).secret;
    if "ee" <= s {
      var rest := s[2..];
      EncodeDecode(rest[..32]);
      EncodeDecode(rest[32..]);
      LowerConcat(rest[..32], rest[32..]);
      assert rest[..32] + rest[32..] == rest;
    } else if "dd" <= s {
      EncodeDecode(s[2..]);
    } else {
      EncodeDecode(s);
    }
    ParsePrinted(secret);
  }

  /** So two accepted strings name the same secret exactly when their canonical spellings are equal. */
  lemma SameSecretIff(s: string, t: string)
    requires ParseSecret(s).Ok? && ParseSecret(t).Ok?
    ensures ParseSecret(s) == ParseSecret(t) <==> Canonical(s) == Canonical(t)
  {
    PrintParsed(s);
    PrintParsed(t);
  }

  /**
    * The plain spelling of a 16-byte key, its bare hexadecimal digits, is accepted and gives the key back
    * exactly when the key's first byte is neither 0xdd nor 0xee: those digits are taken for a prefix.
    */
  lemma PlainAcceptedIff(raw: bytes)
    requires |raw| == 16
    ensures ParseSecret(Encode(raw)) == Ok(Secret(raw, DD, [])) <==> raw[0] != 0xdd && raw[0] != 0xee
    ensures raw[0] == 0xdd ==> ParseSecret(Encode(raw)) == Err(DdBadLength)
    ensures raw[0] == 0xee ==> ParseSecret(Encode(raw)) == Err(EeTooShort)
  {
    DecodeEncode(raw);
    var s := Encode(raw);
    var high, low := (raw[0] / 16) as nat, (raw[0] % 16) as nat;
    assert raw[0] as nat == 16 * high + low;
    DigitRoundTrip(high);
    DigitRoundTrip(low);
    assert s[0] == DIGITS[high] && s[1] == DIGITS[low];
    assert DigitValue('d') == Some(13) && DigitValue('e') == Some(14);
    assert s[0] == 'd' <==> high == 13;
    assert s[0] == 'e' <==> high == 14;
    assert s[2..] == Encode(raw[1..]);
    DecodeEncode(raw[1..]);
  }

  // ---- Which strings are accepted ----

  predicate IsHexDigit(c: char) {
    '0' <= c <= '9' || 'a' <= c <= 'f' || 'A' <= c <= 'F'
  }

  predicate IsHex(s: string) {
    |s| % 2 == 0 && forall i :: 0 <= i < |s| ==> IsHexDigit(s[i])
  }

  lemma {:induction false} DecodedIff(s: string)
    ensures Decode(s).Some? <==> IsHex(s)
  {
    if 2 <= |s| {
      var rest := s[2..];
      DecodedIff(rest);
      assert forall i :: 2 <= i < |s| ==> s[i] == rest[i - 2];
      assert IsHex(s) <==> IsHexDigit(s[0]) && IsHexDigit(s[1]) && IsHex(rest);
    }
  }

  lemma HexSplit(s: string, n: nat)
    requires n <= |s| && n % 2 == 0
    ensures IsHex(s) <==> IsHex(s[..n]) && IsHex(s[n..])
  {
    assert forall i :: n <= i < |s| ==> s[i] == s[n..][i - n];
    assert forall i :: 0 <= i < n ==> s[i] == s[..n][i];
  }

  /** Exactly the accepted strings and their types: digits of either case, and nothing else. */
  lemma AcceptedIff(s: string)
    ensures ParseSecret(s).Ok? <==>
            if "ee" <= s then 34 <= |s| && IsHex(s[2..])
            else if "dd" <= s then |s| == 34 && IsHex(s[2..])
            else |s| == 32 && IsHex(s)
    ensures ParseSecret(s).Ok? ==> ParseSecret(s).secret.kind == if "ee" <= s then EE else DD
  {
    if "ee" <= s {
      var rest := s[2..];
      if 32 <= |rest| {
        HexSplit(rest, 32);
        DecodedIff(rest[..32]);
        DecodedIff(rest[32..]);
      }
    } else {
      var digits := if "dd" <= s then s[2..] else s;
      DecodedIff(digits);
      if Decode(digits).Some? {
        EncodeDecode(digits);
      }
    }
  }
}
