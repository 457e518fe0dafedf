/** readClientHello: the nested length-prefixed parser, and the builder it inverts. */
module ClientHello {
  import opened Bytes
  import opened Net

  const HANDSHAKE: byte := 0x16
  const CLIENT_HELLO: byte := 0x01

  datatype HelloError =
    | ReadHeader | NotHandshake | ReadBody | NotClientHello | TruncatedVersion
    | TruncatedRandom | TruncatedSessionLen | BadSessionLen

  datatype Hello = Rejected(error: HelloError) | Accepted(nonce: bytes, sni: bytes)

  /** The name in an extension of type extType, else the one found before. */
  function NameIn(extType: nat, data: bytes, sni: bytes): bytes {
    if extType == 0 && |data| >= 5 && 5 + LenAt(data, 3) <= |data| then data[5..5 + LenAt(data, 3)] else sni
  }

  /** The names found in an extension block; the last usable server_name wins. */
  function Walk(s: bytes, sni: bytes): bytes
    decreases |s|
  {
    if |s| < 4 || |s| < 4 + LenAt(s, 2) then sni
    else
      var end := 4 + LenAt(s, 2);
      Walk(s[end..], NameIn(LenAt(s, 0), s[4..end], sni))
  }

  /** The extension block, clamped to the record, in what follows the session id. */
  function ExtensionBlock(s: bytes): Option<bytes> {
    if |s| < 2 || |s| < 2 + LenAt(s, 0) + 1 then None
    else AfterSuites(s[2 + LenAt(s, 0)..])
  }

  function AfterSuites(s: bytes): Option<bytes>
    requires 0 < |s|
  {
    var ext := 1 + s[0] as nat;
    if |s| < ext + 2 then None
    else Some(s[ext + 2..Min(ext + 2 + LenAt(s, ext), |s|)])
  }

  function NameFrom(block: Option<bytes>): bytes {
    if block.None? then [] else Walk(block.value, [])
  }

  /** What a complete record body parses to. */
  function ParseBody(rec: bytes): Hello {
    if |rec| < 4 || rec[0] != CLIENT_HELLO then Rejected(NotClientHello)
    else if |rec| < 6 then Rejected(TruncatedVersion)
    else if |rec| < 38 then Rejected(TruncatedRandom)
    else if |rec| < 39 then Rejected(TruncatedSessionLen)
    else if rec[38] != 32 || |rec| < 71 then Rejected(BadSessionLen)
    else Accepted(rec[6..38] + rec[39..71], NameFrom(ExtensionBlock(rec[71..])))
  }

  /** What the peer's bytes parse to, and what is left unread. */
  function Parse(stream: bytes): (Hello, bytes) {
    if |stream| < 5 then (Rejected(ReadHeader), [])
    else if stream[0] != HANDSHAKE then (Rejected(NotHandshake), stream[5..])
    else
      var end := 5 + LenAt(stream, 3);
      if |stream| < end then (Rejected(ReadBody), []) else (ParseBody(stream[5..end]), stream[end..])
  }

  /** Exactly which streams are accepted; an accepted nonce is random followed by session id, 64 bytes. */
  lemma AcceptedIff(stream: bytes)
    ensures Parse(stream).0.Accepted? <==>
            && 5 <= |stream| && stream[0] == 0x16
            && 71 <= LenAt(stream, 3) <= |stream| - 5
            && stream[5] == 0x01 && stream[43] == 32
    ensures Parse(stream).0.Accepted? ==> Parse(stream).0.nonce == stream[11..43] + stream[44..76]
  {
    if 5 <= |stream| && 71 <= LenAt(stream, 3) <= |stream| - 5 {
      var end := 5 + LenAt(stream, 3);
      assert stream[5..end][0] == stream[5] && stream[5..end][38] == stream[43];
      SliceSlice(stream, 5, end, 6, 38, 11, 43);
      SliceSlice(stream, 5, end, 39, 71, 44, 76);
    }
  }

  /** Bytes after a record read whole change nothing but what is left. */
  lemma ParseMore(stream: bytes, more: bytes)
    requires 5 <= |stream| && stream[0] == HANDSHAKE && 5 + LenAt(stream, 3) <= |stream|
    ensures Parse(stream + more) == (Parse(stream).0, Parse(stream).1 + more)
  {
    var end := 5 + LenAt(stream, 3);
    assert (stream + more)[5..end] == stream[5..end] && (stream + more)[end..] == stream[end..] + more;
  }

  method ReadClientHello(conn: PrependConn) returns (hello: Hello)
    modifies conn`buf, conn.conn`incoming
    ensures (hello, conn.Unread()) == Parse(old(conn.Unread()))
  {
    ghost var stream := conn.Unread();
    var hdr := new byte[5];
    var ok := conn.ReadFull(hdr);
    if !ok {
      return Rejected(ReadHeader);
    }
    assert forall i :: 0 <= i < 5 ==> hdr[i] == hdr[..][i] == stream[i];
    if hdr[0] != HANDSHAKE {
      return Rejected(NotHandshake);
    }
    var recLen := U16(hdr[3], hdr[4]);
    var body := new byte[recLen];
    DropDrop(stream, 5, Min(recLen, |stream| - 5));
    ok := conn.ReadFull(body);
    if !ok {
      return Rejected(ReadBody);
    }
    hello := ScanBody(body[..]);
  }

  /** The cursor over the record: every access is inside it, and the walk terminates. */
  method ScanBody(rec: bytes) returns (hello: Hello)
    ensures hello == ParseBody(rec)
  {
    if |rec| < 4 || rec[0] != CLIENT_HELLO {
      return Rejected(NotClientHello);
    }
    var pos := 4;
    if pos + 2 > |rec| {
      return Rejected(TruncatedVersion);
    }
    pos := pos + 2;
    if pos + 32 > |rec| {
      return Rejected(TruncatedRandom);
    }
    var random := rec[pos..pos + 32];
    pos := pos + 32;
    if pos >= |rec| {
      return Rejected(TruncatedSessionLen);
    }
    var sessLen := rec[pos] as nat;
    pos := pos + 1;
    if sessLen != 32 || pos + sessLen > |rec| {
      return Rejected(BadSessionLen);
    }
    var sessionId := rec[pos..pos + 32];
    pos := pos + sessLen;
    var sni := ScanExtensions(rec, pos);
    return Accepted(random + sessionId, sni);
  }

  method ScanExtensions(rec: bytes, start: nat) returns (sni: bytes)
    requires start <= |rec|
    ensures sni == NameFrom(ExtensionBlock(rec[start..]))
  {
    sni := [];
    var pos := start;
    ghost var s := rec[start..];
    if pos + 2 > |rec| {
      return;
    }
    LenAtDrop(rec, start, 0, pos);
    var csLen := LenAt(rec, pos);
    pos := pos + 2 + csLen;
    if pos + 1 > |rec| {
      assert ExtensionBlock(s) == None;
      return;
    }
    DropTo(rec, start, 2 + csLen, pos);
    SuitesStep(s, csLen);
    sni := ScanAfterSuites(rec, pos);
  }

  method ScanAfterSuites(rec: bytes, start: nat) returns (sni: bytes)
    requires start < |rec|
    ensures sni == NameFrom(AfterSuites(rec[start..]))
  {
    sni := [];
    var pos := start;
    var compLen := rec[pos] as nat;
    pos := pos + 1 + compLen;
    ghost var s, ext := rec[start..], 1 + compLen;
    assert s[0] == rec[start];
    if pos + 2 > |rec| {
      assert AfterSuites(s) == None;
      return;
    }
    sni := ScanBlock(rec, start, pos);
  }

  /** From the extensions' length at ext on. */
  method ScanBlock(rec: bytes, start: nat, ext: nat) returns (sni: bytes)
    requires start < |rec| && ext == start + 1 + rec[start] as nat && ext + 2 <= |rec|
    ensures sni == NameFrom(AfterSuites(rec[start..]))
  {
    ghost var s := rec[start..];
    assert s[0] == rec[start];
    LenAtDrop(rec, start, ext - start, ext);
    var extTotalLen := LenAt(rec, ext);
    var pos := ext + 2;
    var extEnd := pos + extTotalLen;
    if extEnd > |rec| {
      extEnd := |rec|;
    }
    BlockStep(s, ext - start, extTotalLen, extEnd - start);
    DropSlice(rec, start, ext - start + 2, extEnd - start, pos, extEnd);
    sni := WalkExtensions(rec, pos, extEnd);
  }

  lemma BlockStep(s: bytes, ext: nat, n: nat, end: nat)
    requires 0 < |s| && ext == 1 + s[0] as nat && ext + 2 <= |s|
    requires LenAt(s, ext) == n && end == Min(ext + 2 + n, |s|)
    ensures AfterSuites(s) == Some(s[ext + 2..end])
  {
  }

  method WalkExtensions(rec: bytes, start: nat, extEnd: nat) returns (sni: bytes)
    requires start <= extEnd <= |rec|
    ensures sni == Walk(rec[start..extEnd], [])
  {
    var pos := start;
    sni := [];
    while pos + 4 <= extEnd
      invariant pos <= extEnd
      invariant Walk(rec[pos..extEnd], sni) == Walk(rec[start..extEnd], [])
      decreases extEnd - pos
    {
      ghost var s := rec[pos..extEnd];
      LenAtSlice(rec, pos, extEnd, 0, pos);
      LenAtSlice(rec, pos, extEnd, 2, pos + 2);
      var extType := LenAt(rec, pos);
      var extLen := LenAt(rec, pos + 2);
      pos := pos + 4;
      var extDataEnd := pos + extLen;
      if extDataEnd > extEnd {
        break;
      }
      WalkStep(s, extType, extLen, sni);
      SliceSlice(rec, pos - 4, extEnd, 4, 4 + extLen, pos, extDataEnd);
      SliceDrop(rec, pos - 4, extEnd, 4 + extLen, extDataEnd);
      sni := ReadServerName(rec, pos, extDataEnd, extType, extLen, sni);
      pos := extDataEnd;
    }
  }

  /** One step of the walk, in terms of the lengths read. */
  lemma WalkStep(s: bytes, extType: nat, n: nat, sni: bytes)
    requires 4 + n <= |s| && LenAt(s, 0) == extType && LenAt(s, 2) == n
    ensures Walk(s, sni) == Walk(s[4 + n..], NameIn(extType, s[4..4 + n], sni))
  {
  }

  /** The server_name case of the walk's body. */
  method ReadServerName(rec: bytes, pos: nat, extDataEnd: nat, extType: nat, extLen: nat, before: bytes)
    returns (sni: bytes)
    requires extDataEnd == pos + extLen <= |rec|
    ensures sni == NameIn(extType, rec[pos..extDataEnd], before)
  {
    sni := before;
    if extType == 0 && extLen >= 5 {
      LenAtSlice(rec, pos, extDataEnd, 3, pos + 3);
      var nameLen := LenAt(rec, pos + 3);
      if pos + 5 + nameLen <= extDataEnd {
        sni := rec[pos + 5..pos + 5 + nameLen];
        SliceSlice(rec, pos, extDataEnd, 5, 5 + nameLen, pos + 5, pos + 5 + nameLen);
      }
    }
  }

  // ---- The builder (section 4.1.2 of RFC 8446) ----

  datatype Extension = Extension(extType: nat, data: bytes)

  predicate Fits(e: Extension) {
    e.extType < 0x1_0000 && |e.data| < 0x1_0000
  }

  function BuildExtension(e: Extension): bytes {
    Be16(e.extType) + (Be16(|e.data|) + e.data)
  }

  function BuildExtensions(es: seq<Extension>): bytes {
    if es == [] then [] else BuildExtension(es[0]) + BuildExtensions(es[1..])
  }

  /** A server_name extension naming one host (section 3 of RFC 6066). */
  function ServerName(name: bytes): Extension {
    Extension(0, Be16(3 + |name|) + ([0] + (Be16(|name|) + name)))
  }

  /** A ClientHello message: header, version, random, session id, then the variable-length lists. */
  function BuildBody(random: bytes, session: bytes, suites: bytes, compression: bytes,
                     es: seq<Extension>, length: nat): bytes
    requires |compression| < 256
  {
    ([CLIENT_HELLO] + Be24(length) + [3, 3]) + (random + ([32] + (session + BuildLists(suites, compression, es))))
  }

  function BuildLists(suites: bytes, compression: bytes, es: seq<Extension>): bytes
    requires |compression| < 256
  {
    Be16(|suites|) + (suites + ([|compression| as byte] + (compression
    + (Be16(|BuildExtensions(es)|) + BuildExtensions(es)))))
  }

  function BuildRecord(body: bytes): bytes {
    [HANDSHAKE, 3, 1] + (Be16(|body|) + body)
  }

  /** The name an extension list carries: the last usable server_name's first entry, as the walk finds it. */
  function ListedName(es: seq<Extension>, sni: bytes): bytes {
    if es == [] then sni
    else ListedName(es[1..], NameIn(es[0].extType, es[0].data, sni))
  }

  /** Bytes that are no whole extension: a short header, or a length beyond the end. */
  predicate Malformed(tail: bytes) {
    |tail| < 4 || |tail| < 4 + (256 * tail[2] as nat + tail[3] as nat)
  }

  /** The walk over built extensions reads exactly the list, and stops at what is malformed behind it. */
  lemma {:induction false} WalkBuilt(es: seq<Extension>, tail: bytes, sni: bytes)
    requires Malformed(tail) && forall i :: 0 <= i < |es| ==> Fits(es[i])
    ensures Walk(BuildExtensions(es) + tail, sni) == ListedName(es, sni)
  {
    if es == [] {
      assert [] + tail == tail;
      if 4 <= |tail| {
        BigEndian16(tail[2], tail[3], 256 * tail[2] as nat + tail[3] as nat);
      }
    } else {
      ConcatAssoc(BuildExtension(es[0]), BuildExtensions(es[1..]), tail);
      WalkOne(es[0], BuildExtensions(es[1..]) + tail, sni);
      WalkBuilt(es[1..], tail, NameIn(es[0].extType, es[0].data, sni));
    }
  }

  lemma WalkOne(e: Extension, rest: bytes, sni: bytes)
    requires Fits(e)
    ensures Walk(BuildExtension(e) + rest, sni) == Walk(rest, NameIn(e.extType, e.data, sni))
  {
    var s, end := BuildExtension(e) + rest, 4 + |e.data|;
    HoldsWhole(s);
    HoldsSplit(s, 0, BuildExtension(e), end, rest);
    HoldsSplit(s, 0, Be16(e.extType), 2, Be16(|e.data|) + e.data);
    HoldsSplit(s, 2, Be16(|e.data|), 4, e.data);
    HoldsLen(s, 0, e.extType);
    HoldsLen(s, 2, |e.data|);
    assert s[end..] == rest;
    WalkStep(s, e.extType, |e.data|, sni);
  }

  lemma SuitesStep(s: bytes, n: nat)
    requires 2 + n < |s| && LenAt(s, 0) == n
    ensures ExtensionBlock(s) == AfterSuites(s[2 + n..])
  {
  }

  lemma ListsBuilt(suites: bytes, compression: bytes, es: seq<Extension>)
    requires |suites| < 0x1_0000 && |compression| < 256 && |BuildExtensions(es)| < 0x1_0000
    ensures ExtensionBlock(BuildLists(suites, compression, es)) == Some(BuildExtensions(es))
  {
    var exts := BuildExtensions(es);
    var tail := [|compression| as byte] + (compression + (Be16(|exts|) + exts));
    assert exts[..|exts|] == exts;
    var s, end := BuildLists(suites, compression, es), 2 + |suites|;
    HoldsWhole(s);
    HoldsSplit(s, 0, Be16(|suites|), 2, suites + tail);
    HoldsLen(s, 0, |suites|);
    assert s[end..] == tail;
    SuitesStep(s, |suites|);
    CompressionBuilt(compression, |exts|, exts);
  }

  /** The block is as long as its length says, but never longer than the record. */
  lemma CompressionBuilt(compression: bytes, n: nat, exts: bytes)
    requires |compression| < 256 && n < 0x1_0000
    ensures AfterSuites([|compression| as byte] + (compression + (Be16(n) + exts)))
         == Some(if n <= |exts| then exts[..n] else exts)
  {
    var one := [|compression| as byte];
    var s, ext := one + (compression + (Be16(n) + exts)), 1 + |compression|;
    HoldsWhole(s);
    HoldsSplit(s, 0, one, 1, compression + (Be16(n) + exts));
    HoldsByte(s, 0, one, 0);
    HoldsSplit(s, 1, compression, ext, Be16(n) + exts);
    HoldsSplit(s, ext, Be16(n), ext + 2, exts);
    HoldsLen(s, ext, n);
    BlockStep(s, ext, n, Min(ext + 2 + n, |s|));
    BlockCut(s, exts, ext + 2, n);
  }

  lemma BlockCut(s: bytes, exts: bytes, at: nat, n: nat)
    requires at + |exts| == |s| && s[at..at + |exts|] == exts
    ensures s[at..Min(at + n, |s|)] == if n <= |exts| then exts[..n] else exts
  {
    assert s[at..] == exts;
  }

  /** A record that ends before the extensions' length is complete carries no name. */
  lemma ListsCut(suites: bytes, compression: bytes, n: nat, exts: bytes, k: nat)
    requires |suites| < 0x1_0000 && |compression| < 256 && k < 2 + |suites| + 1 + |compression| + 2
    ensures var tail := [|compression| as byte] + (compression + (Be16(n) + exts));
            ExtensionBlock((Be16(|suites|) + (suites + tail))[..k]) == None
  {
    var tail := [|compression| as byte] + (compression + (Be16(n) + exts));
    var s, t := Be16(|suites|) + (suites + tail), (Be16(|suites|) + (suites + tail))[..k];
    if 2 <= k {
      HoldsWhole(s);
      HoldsSplit(s, 0, Be16(|suites|), 2, suites + tail);
      HoldsLen(s, 0, |suites|);
      assert t[0] == s[0] && t[1] == s[1];
      if 2 + |suites| < k {
        SuitesStep(t, |suites|);
        assert t[2 + |suites|..] == tail[..k - 2 - |suites|];
        assert tail[..k - 2 - |suites|][0] == |compression| as byte;
      }
    }
  }

  lemma BodyBuilt(random: bytes, session: bytes, suites: bytes, compression: bytes, es: seq<Extension>, length: nat)
    requires |random| == 32 && |session| == 32 && |suites| < 0x1_0000 && |compression| < 256
    requires |BuildExtensions(es)| < 0x1_0000
    requires forall i :: 0 <= i < |es| ==> Fits(es[i])
    ensures ParseBody(BuildBody(random, session, suites, compression, es, length))
         == Accepted(random + session, ListedName(es, []))
  {
    var rec, lists := BuildBody(random, session, suites, compression, es, length), BuildLists(suites, compression, es);
    var head := [CLIENT_HELLO] + Be24(length) + [3, 3];
    HoldsWhole(rec);
    HoldsSplit(rec, 0, head, 6, random + ([32] + (session + lists)));
    HoldsByte(rec, 0, head, 0);
    HoldsSplit(rec, 6, random, 38, [32] + (session + lists));
    HoldsSplit(rec, 38, [32], 39, session + lists);
    HoldsByte(rec, 38, [32], 0);
    HoldsSplit(rec, 39, session, 71, lists);
    assert rec[71..] == lists;
    ListsBuilt(suites, compression, es);
    WalkBuilt(es, [], []);
    assert BuildExtensions(es) + [] == BuildExtensions(es);
  }

  /** Parsing inverts building, whatever the random, session id, suites, compression methods and extensions. */
  lemma ParseBuilt(random: bytes, session: bytes, suites: bytes, compression: bytes,
                   es: seq<Extension>, length: nat, rest: bytes)
    requires |random| == 32 && |session| == 32 && |suites| < 0x1_0000 && |compression| < 256
    requires forall i :: 0 <= i < |es| ==> Fits(es[i])
    requires |BuildBody(random, session, suites, compression, es, length)| < 0x1_0000
    ensures Parse(BuildRecord(BuildBody(random, session, suites, compression, es, length)) + rest)
         == (Accepted(random + session, ListedName(es, [])), rest)
  {
    var body := BuildBody(random, session, suites, compression, es, length);
    BodyBuilt(random, session, suites, compression, es, length);
    RecordBuilt(body, rest);
  }

  lemma RecordBuilt(body: bytes, rest: bytes)
    requires |body| < 0x1_0000
    ensures Parse(BuildRecord(body) + rest) == (ParseBody(body), rest)
  {
    var stream, head, end := BuildRecord(body) + rest, [HANDSHAKE, 3, 1], 5 + |body|;
    HoldsWhole(stream);
    HoldsSplit(stream, 0, BuildRecord(body), end, rest);
    HoldsSplit(stream, 0, head, 3, Be16(|body|) + body);
    HoldsByte(stream, 0, head, 0);
    HoldsSplit(stream, 3, Be16(|body|), 5, body);
    HoldsLen(stream, 3, |body|);
    assert stream[end..] == rest;
  }

  /** Extensions that are not a usable server_name change nothing. */
  lemma {:induction false} ListedNameSkips(es: seq<Extension>, sni: bytes)
    requires forall i :: 0 <= i < |es| ==> es[i].extType != 0
    ensures ListedName(es, sni) == sni
  {
    if es != [] {
      ListedNameSkips(es[1..], sni);
    }
  }

  lemma {:induction false} ListedNameSplits(a: seq<Extension>, b: seq<Extension>, sni: bytes)
    ensures ListedName(a + b, sni) == ListedName(b, ListedName(a, sni))
  {
    if a == [] {
      assert a + b == b;
    } else {
      assert (a + b)[1..] == a[1..] + b;
      ListedNameSplits(a[1..], b, NameIn(a[0].extType, a[0].data, sni));
    }
  }

  lemma NameOfServerName(name: bytes, sni: bytes)
    requires |name| + 5 < 0x1_0000
    ensures Fits(ServerName(name))
    ensures NameIn(0, ServerName(name).data, sni) == name
  {
    var data := ServerName(name).data;
    HoldsWhole(data);
    HoldsSplit(data, 0, Be16(3 + |name|), 2, [0] + (Be16(|name|) + name));
    HoldsSplit(data, 2, [0], 3, Be16(|name|) + name);
    HoldsSplit(data, 3, Be16(|name|), 5, name);
    HoldsLen(data, 3, |name|);
  }

  /** One server_name at any position among other extensions is the name returned. */
  lemma OneServerName(before: seq<Extension>, name: bytes, after: seq<Extension>)
    requires |name| + 5 < 0x1_0000
    requires forall i :: 0 <= i < |before| ==> before[i].extType != 0
    requires forall i :: 0 <= i < |after| ==> after[i].extType != 0
    ensures ListedName(before + [ServerName(name)] + after, []) == name
  {
    var es := [ServerName(name)];
    ListedNameSplits(before + es, after, []);
    ListedNameSplits(before, es, []);
    ListedNameSkips(before, []);
    NameOfServerName(name, []);
    assert ListedName(es, []) == ListedName(es[1..], name) == name;
    ListedNameSkips(after, name);
  }

  /** Without a server_name there is no name. */
  lemma NoName(es: seq<Extension>)
    requires forall i :: 0 <= i < |es| ==> es[i].extType != 0
    ensures ListedName(es, []) == []
  {
    ListedNameSkips(es, []);
  }

  /** Of two server_names the later one counts. */
  lemma LaterNameWins(before: seq<Extension>, name: bytes, after: seq<Extension>)
    requires |name| + 5 < 0x1_0000 && forall i :: 0 <= i < |after| ==> after[i].extType != 0
    ensures ListedName(before + [ServerName(name)] + after, []) == name
  {
    var es := [ServerName(name)];
    ListedNameSplits(before + es, after, []);
    ListedNameSplits(before, es, []);
    NameOfServerName(name, ListedName(before, []));
    assert ListedName(es, ListedName(before, [])) == ListedName(es[1..], name) == name;
    ListedNameSkips(after, name);
  }
}
