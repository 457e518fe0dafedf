/** fakeTLSConn's Reads against any peer: records of any type and length, and reads of any sizes. */
module FakeTlsReader {
  import opened Bytes
  import opened Ctr
  import opened FakeTls

  /** Reads into buffers of the given sizes, one after the other, until one fails. */
  function ReadAll(ks: Keystream, pos: nat, readBuf: bytes, unread: bytes, caps: seq<nat>): ReadOutcome
    decreases |caps|
  {
    if caps == [] then ReadOutcome([], false, readBuf, pos, unread)
    else
      var r := ReadStep(ks, pos, readBuf, unread, caps[0]);
      if r.err then r
      else
        var later := ReadAll(ks, r.pos, r.readBuf, r.unread, caps[1..]);
        later.(out := r.out + later.out)
  }

  /** The payloads of the first n records of a stream, of any lengths, and what follows them. */
  function TakeRecords(stream: bytes, n: nat): Option<(bytes, bytes)> {
    if n == 0 then Some(([], stream))
    else
      match TakeRecord(stream)
      case Broken(_) => None
      case Payload(data, rest) =>
        match TakeRecords(rest, n - 1)
        case None => None
        case Some((more, last)) => Some((data + more, last))
  }

  /** r came of a start at pos with readBuf kept and unread to come: n records were consumed, and no part of another. */
  predicate Accounts(ks: Keystream, pos: nat, readBuf: bytes, unread: bytes, r: ReadOutcome, n: nat) {
    match TakeRecords(unread, n)
    case None => false
    case Some((data, rest)) =>
      && Decrypts(ks, pos, readBuf, r, data)
      && (if r.err then r.readBuf == [] && TakeRecord(rest) == Broken(r.unread) else r.unread == rest)
  }

  predicate Decrypts(ks: Keystream, pos: nat, readBuf: bytes, r: ReadOutcome, data: bytes) {
    r.out + r.readBuf == readBuf + Mask(ks, pos, data) && r.pos == pos + |data|
  }

  lemma StepAccounts(ks: Keystream, pos: nat, readBuf: bytes, unread: bytes, cap: nat) returns (n: nat)
    ensures n <= 1 && Accounts(ks, pos, readBuf, unread, ReadStep(ks, pos, readBuf, unread, cap), n)
  {
    n := 0;
    if readBuf != [] {
      assert readBuf[..Min(cap, |readBuf|)] + readBuf[Min(cap, |readBuf|)..] == readBuf == readBuf + [];
    } else if TakeRecord(unread).Payload? {
      n := 1;
      OneRecord(unread);
      var plain := Mask(ks, pos, TakeRecord(unread).data);
      assert plain[..Min(cap, |plain|)] + plain[Min(cap, |plain|)..] == plain == [] + plain;
    }
  }

  lemma OneRecord(unread: bytes)
    requires TakeRecord(unread).Payload?
    ensures TakeRecords(unread, 1) == Some((TakeRecord(unread).data, TakeRecord(unread).unread))
  {
    assert TakeRecords(TakeRecord(unread).unread, 0) == Some(([], TakeRecord(unread).unread));
    assert TakeRecord(unread).data + [] == TakeRecord(unread).data;
  }

  lemma {:induction false} RecordsConcat(stream: bytes, n: nat, m: nat)
    requires TakeRecords(stream, n).Some? && TakeRecords(TakeRecords(stream, n).value.1, m).Some?
    ensures var a := TakeRecords(stream, n).value;
            var b := TakeRecords(a.1, m).value;
            TakeRecords(stream, n + m) == Some((a.0 + b.0, b.1))
  {
    var a := TakeRecords(stream, n).value;
    var b := TakeRecords(a.1, m).value;
    if n == 0 {
      assert [] + b.0 == b.0;
    } else {
      var first := TakeRecord(stream);
      RecordsConcat(first.unread, n - 1, m);
      ConcatAssoc(first.data, TakeRecords(first.unread, n - 1).value.0, b.0);
    }
  }

  lemma AccountsThen(ks: Keystream, pos: nat, readBuf: bytes, unread: bytes, r: ReadOutcome, n: nat,
                     later: ReadOutcome, m: nat)
    requires Accounts(ks, pos, readBuf, unread, r, n) && !r.err && Accounts(ks, r.pos, r.readBuf, r.unread, later, m)
    ensures Accounts(ks, pos, readBuf, unread, later.(out := r.out + later.out), n + m)
  {
    RecordsConcat(unread, n, m);
    DecryptsThen(ks, pos, readBuf, r, TakeRecords(unread, n).value.0, later, TakeRecords(r.unread, m).value.0);
  }

  lemma DecryptsThen(ks: Keystream, pos: nat, readBuf: bytes, r: ReadOutcome, a: bytes, later: ReadOutcome, b: bytes)
    requires Decrypts(ks, pos, readBuf, r, a) && Decrypts(ks, r.pos, r.readBuf, later, b)
    ensures Decrypts(ks, pos, readBuf, later.(out := r.out + later.out), a + b)
  {
    MaskConcat(ks, pos, a, b);
    Regroup(readBuf, Mask(ks, pos, a), r.out, r.readBuf, Mask(ks, r.pos, b), later.out, later.readBuf);
  }

  /** Two steps of handing out, together. */
  lemma Regroup(kept: bytes, data: bytes, out: bytes, kept': bytes, data': bytes, out': bytes, kept'': bytes)
    requires out + kept' == kept + data && out' + kept'' == kept' + data'
    ensures (out + out') + kept'' == kept + (data + data')
  {
    ConcatAssoc(out, out', kept'');
    ConcatAssoc(out, kept', data');
    ConcatAssoc(kept, data, data');
  }

  /**
    * Whatever a peer sends, and however it is read: what Reads have returned, and the bytes kept, are the
    * decryption of the payloads of the records consumed, in one go; the position counts them; and a Read fails
    * only at a stream that does not go on with a whole record.
    */
  lemma {:induction false} AnyPeer(ks: Keystream, pos: nat, readBuf: bytes, unread: bytes, caps: seq<nat>)
    returns (n: nat)
    ensures n <= |caps| && Accounts(ks, pos, readBuf, unread, ReadAll(ks, pos, readBuf, unread, caps), n)
    decreases |caps|
  {
    if caps == [] {
      n := 0;
      assert [] + readBuf == readBuf == readBuf + [];
    } else {
      var r := ReadStep(ks, pos, readBuf, unread, caps[0]);
      n := StepAccounts(ks, pos, readBuf, unread, caps[0]);
      if !r.err {
        var m := AnyPeer(ks, r.pos, r.readBuf, r.unread, caps[1..]);
        AccountsThen(ks, pos, readBuf, unread, r, n, ReadAll(ks, r.pos, r.readBuf, r.unread, caps[1..]), m);
        n := n + m;
      }
    }
  }
}
