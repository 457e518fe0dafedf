# MTProxy in Dafny

A model of an MTProto / SOCKS5 / Hysteria2 proxy and of its Android client's user-space TCP endpoint,
with proofs of what the wire formats, the two ends of each protocol and the concurrent parts promise.

`dafny verify dfyconfig.toml` checks everything.

## What is modelled

**Byte streams** (`Net`, `Ctr`, `FakeTls`, `FakeTlsSession`, `FakeTlsReader`, `Obfuscated`). A TCP connection is an object
with the bytes still to come and the bytes sent; a read may return any non-empty part of what is to come, and
a write may fail after any prefix. AES-CTR and SHA-256 are unknown functions, given as the value `Crypto` over
which every theorem quantifies; positions, chunks, framing and buffers are concrete. The methods of the two
connection classes are proved against `ReadStep` / `WriteStep` and `Mask`; the session theorems then range
over every interleaving of writes, network fragments, reads of any size and failures, in both directions.

**Handshakes** (`ClientHello`, `Handshake`, `Server`). The nested length-prefixed parser is proved equal to
a recursive description on streams and shown to invert a builder. The secret search is the first match in
the configured list; a client that builds its init as the documentation prescribes ends up with the same two
keystreams. `Server.Handle` is proved against a description that does not mention how the first bytes were
cut into a peek and later reads.

**Protocols with both ends here** (`Socks5`, `AndroidSocks`, `Hysteria2`, `Text`). Each end is a method over
a connection, proved against a function on streams; the agreement theorems run one end's output into the
other's function.

**The TUN worker** (`Buffers`, `Checksum`, `Packet`, `Flow`, `Reassembly`, `ClientData`, `Forwarding`,
`Schedules`, `TunWorker`, `FlowTable`, `SynRace`). Packets are filled into a fixed buffer by position; the
checksum is computed in a 32-bit signed type in which Dafny checks every operation. `Flow` is the machine of one
flow object: the relay coroutine's atomic steps with any number of other coroutines that read the sequence number
and write a packet later; `Reassembly` is a host that takes the packets of that one flow object, and `SynRace`
says when a key has no second one. `Forwarding` is the machine of the coroutines in the other direction,
`Schedules` its exact conditions, `FlowTable` the machine of the table when keys are used again.

**Concurrent machines** (`Stats`, `Lifecycle`). Any number of threads interleave at the granularity of one
atomic operation or one critical section. The classes beside the machines are the code; `Lifecycle.Client`'s
methods are proved to be runs of the machine.

**Secrets** (`Secrets`). Printing and parsing.

## What the proofs found

The code is modelled as it is. Where a promise holds only under a condition, the condition is proved to be
necessary as well:

- The SOCKS5 handshake cannot tell its peek from unread bytes if and only if the peek does not reach past
  the greeting; beyond it, peeked bytes are dropped (`Socks5.PeekRefinement`).
- Hysteria2 lengths are truncated to 16 bits: acceptance is equality of passwords exactly for passwords
  shorter than 65536 bytes, and the same holds for addresses (`Hysteria2.AcceptedIffEqual`,
  `Hysteria2.AddressDecodedIff`).
- The documented plain spelling of a key is accepted if and only if the key's first byte is neither 0xdd nor
  0xee (`Secrets.PlainAcceptedIff`).
- A handshake finds the client's own secret if and only if no earlier compatible secret's tag happens to
  decrypt validly (`Handshake.Agreement`).
- A failing TUN write is swallowed, and the FIN that answers the host's can overtake a chunk already read. The
  host has the bytes sent if and only if, for each data segment, its write and the SYN-ACK's succeeded and no
  such FIN arrived before it at its number (`Reassembly.RelaySafety`, `Reassembly.FinCutsData`,
  `Reassembly.SynAckLost`).
- An ACK or FIN from another coroutine is at most one segment behind when it reads the sequence number, and
  when it is written if no data went out in between; but any number of segments may (`Flow.ControlLag`,
  `Flow.ControlLagUnbounded`).
- Each segment of client data is written, counted and acknowledged by a coroutine of its own. Streams that arrive
  in order are handed on, and only written bytes acknowledged, if and only if the writes follow the order of
  arrival; an ACK never falls behind its sender's segment if and only if no update of clientSeq follows that of a
  later segment (`Schedules.RunsHandOnIff`, `Schedules.AcksWithinIff`, `Schedules.AcksForwardIff`;
  `Forwarding.Overtaking` and `Forwarding.StaleAcks` are runs that fail). Sequence numbers are not compared: even
  with one coroutine at a time the result is that of a receiver that compares them if and only if segments arrive
  in order and once (`ClientData.ForwardedIffInOrder`, `ClientData.AcksIffInOrder`). A payload in a FIN segment is
  never forwarded (`TunWorker.ForwardedIff`).
- A flow is closed by key. A coroutine can come to close a flow that is not its own if and only if the key was
  taken again before it ended (`FlowTable.OwnFlowsIff`, `FlowTable.OldRelayClosesNewFlow`).
- A SYN is checked against the table when it is handled, and its flow enters it later. The flow the host
  synchronised with is sure to stay the one in the table if and only if no SYN starts an attempt while another of
  its key is pending or the host is synchronised (`SynRace.AgreementIff`, `SynRace.RetransmittedSyn`).
- A dd client's init is random, but eight of the 256 first bytes are taken for another protocol
  (`Server.DdClient`).
- The phone's SOCKS5 server accepts offers without no-auth, and IPv6 addresses; only there does the target
  it takes differ from the proxy's (`AndroidSocks.ServersAgree`).
- A listener is lost if and only if start publishes a new session over one that ended by itself and was not
  stopped; it then holds its port for ever (`Lifecycle.LeakIff`, `Lifecycle.LeakedIff`,
  `Lifecycle.LeakIsForever`, `Lifecycle.LeakHappens`).

## Model

| member | source | states |
|---|---|---|
| Net.PrependConn.Read | proxy/server.go:201-208 | whatever is handed out is the next part of the unread suffix (pushed-back bytes, then the connection), and that suffix loses exactly it |
| Net.PrependConn.ReadFull | proxy/server.go:196-208 | all-or-error reading consumes exactly the first bytes of the unread suffix, however the network cuts it; on an error nothing is left |
| Ctr.MaskConcat | proxy/obfuscated.go:35-47 | ciphering chunk by chunk from running positions is ciphering the whole stream once |
| Ctr.MaskTwice | proxy/obfuscated.go:35-47 | ciphering twice at the same position is the identity |
| Bytes.XorAt | proxy/obfuscated.go:35-47 | the combination with the keystream is exclusive or: a bit of the result is set exactly when the operands differ in it |
| Bytes.BigEndian16 | proxy/faketls.go:53 | two bytes in network order are 256 times the first plus the second, both ways |
| Bytes.BigEndian32 | android/app/src/main/kotlin/com/proxy/hysteria/TunWorker.kt:139-144 | the same for four bytes |
| Ctr.CtrStream.XorKeyStream | proxy/obfuscated.go:35-41 | in-place ciphering of part of a buffer touches only that part and advances the position by its length |
| FakeTls.RecordParts | proxy/faketls.go:327-335 | the bytes placed one by one are type, version, big-endian 16-bit length, payload |
| FakeTls.RecordTakenIff | proxy/faketls.go:46-60 | exactly which bytes are taken as a record, its payload and the rest: content type 23, any version, a length in network order |
| FakeTls.DataRecordBytes | proxy/faketls.go:86-91 | the record for a chunk: type 23, version 3.3, its length, its encryption |
| FakeTls.ReadFills | proxy/faketls.go:37-70 | a Read fills the buffer or leaves nothing behind |
| FakeTls.FakeTlsConn.Read | proxy/faketls.go:37-70 | one Read: leftover first, else exactly one record decrypted at the current position, the part that does not fit kept; errors and every field |
| FakeTls.FakeTlsConn.ReadRecord | proxy/faketls.go:46-60 | header and payload come off the unread bytes whatever the fragments; wrong type and truncation are errors |
| FakeTls.FakeTlsConn.Write | proxy/faketls.go:72-100 | bytes on the wire, count, position and error of a Write of any size over a connection that may fail anywhere |
| FakeTls.FakeTlsConn.SendChunk | proxy/faketls.go:81-95 | one record; on an error the keystream has moved on all the same |
| FakeTls.ChunksFlatten | proxy/faketls.go:74-97 | the chunks of a Write are 1 to 16384 bytes long and concatenate to its argument |
| FakeTls.ChunksFull | proxy/faketls.go:75-79 | every chunk but the last has 16384 bytes |
| FakeTls.WriteSendsChunks | proxy/faketls.go:72-100 | a Write fails exactly when its records do not fit the connection's capacity; otherwise it sends all of them, a failed one sends a strict prefix |
| FakeTls.RecordRead | proxy/faketls.go:37-100 | reading what was sent for one chunk at the same position returns the chunk, as much as fits and the rest kept, and stands at the next record |
| FakeTlsSession.CompleteRecord | proxy/faketls.go:46-60 | a complete record in the receiver's hands is the oldest one in flight, never the truncated one of a failed write |
| FakeTlsSession.StepKeepsInv | proxy/faketls.go:37-100 | every step of sender, network and receiver keeps: unread bytes are the records in flight, and histories and positions balance |
| FakeTlsSession.RunKeepsInv | proxy/faketls.go:37-100 | the same over every run of both directions |
| FakeTlsSession.SessionSafety | proxy/faketls.go:37-100 | main result, over all runs from positions 64 and 0: delivered plus leftover is the decryption of the records consumed and a prefix of what was written; the receiver trails by the bytes in flight; only the connection's end makes a Read fail; a drained wire leaves nothing missing |
| FakeTlsSession.WriteIsARun | proxy/faketls.go:72-100 | a successful Write of any size is a run of the machine's send steps |
| FakeTlsSession.FailedWriteIsARun | proxy/faketls.go:72-100 | a Write that fails anywhere is a run of send steps for the records that fit and one failing step, with the Write's own count, position and wire |
| FakeTlsSession.ReadIgnoresFragments | proxy/faketls.go:45-69 | a Read that collected its bytes in fragments does what one Read over the whole unread stream does |
| FakeTlsReader.AnyPeer | proxy/faketls.go:37-70 | for any bytes a peer sends and any sequence of Reads, what was returned and kept is one decryption of the payloads of the records consumed, of any lengths, and a Read fails only where no whole ApplicationData record follows |
| Obfuscated.ObfuscatedConn.Read | proxy/obfuscated.go:35-41 | a partial read is decrypted at the current position, which advances by what was read |
| Obfuscated.ObfuscatedConn.Write | proxy/obfuscated.go:43-47 | a write sends its encryption, or a prefix of it on an error, and the position advances by the whole length |
| Obfuscated.StepKeeps | proxy/obfuscated.go:35-47 | every send, cut-short send and partial receive keeps: received plus in-flight ciphertext encrypts exactly what was written |
| Obfuscated.SessionSafety | proxy/obfuscated.go:35-105 | main result, over all runs of both directions: chunk-by-chunk decryption is one decryption of the whole, what arrives is a prefix of what was sent, positions start at 64 and 0 |
| ClientHello.ReadClientHello | proxy/faketls.go:176-285 | for arbitrary bytes, result, error and unread remainder are those of the recursive description |
| ClientHello.ScanBody | proxy/faketls.go:198-285 | the cursor over a record body never leaves it and finds what the description names, with each of the source's errors |
| ClientHello.WalkExtensions | proxy/faketls.go:264-283 | the extension loop terminates, stays inside the block and returns the last usable server name |
| ClientHello.ReadServerName | proxy/faketls.go:275-281 | the name is taken exactly when it lies inside its extension |
| ClientHello.AcceptedIff | proxy/faketls.go:176-285 | exactly which streams are accepted, and that the nonce is then the 32 random bytes followed by the 32 of the session id |
| ClientHello.WalkBuilt | proxy/faketls.go:264-283 | the walk over built extensions visits exactly the list, and stops at a malformed one behind it |
| ClientHello.BodyBuilt | proxy/faketls.go:198-285 | parsing a built body returns its nonce and the listed name |
| ClientHello.CompressionBuilt | proxy/faketls.go:246-262 | the extension block is as long as its length says, or as the record lasts |
| ClientHello.ListsCut | proxy/faketls.go:239-256 | a record cut before the extensions' length is complete is accepted without a name |
| ClientHello.ParseBuilt | proxy/faketls.go:176-285 | main result: parsing inverts building for any random, session id, suites, compression methods and extensions, and leaves exactly what follows the record |
| ClientHello.OneServerName | proxy/faketls.go:264-283 | one server_name (section 3 of RFC 6066) at any position among other extensions is the name returned |
| ClientHello.LaterNameWins | proxy/faketls.go:275-282 | of several server names the last one counts |
| ClientHello.NoName | proxy/faketls.go:264-284 | without a server_name there is no name |
| Handshake.ReverseBytes | proxy/obfuscated.go:111-118 | the new buffer holds the bytes in reverse order |
| Handshake.Concat | proxy/obfuscated.go:120-126 | the new buffer holds the first argument followed by the second |
| Handshake.Decode | proxy/obfuscated.go:70-82 | the inner nonce is the whole nonce decrypted under the derived key, which leaves that stream at position 64 |
| Handshake.Backward | proxy/obfuscated.go:94-98 | the other stream's key and IV come from the reversed nonce parts, position 0 |
| Handshake.Search | proxy/obfuscated.go:64-108 | the loop returns the first matching secret, its DC id, inner nonce and both positioned streams, or none when there is none |
| Handshake.TagOkIff | proxy/obfuscated.go:80-89 | a nonce passes a secret's test exactly when it decrypts, from the start, to four bytes 0xef, 0xdd or 0xfe at 56 |
| Handshake.MatchesOwnKind | proxy/faketls.go:118-127 | a secret found is of the handshake's type and, if both it and the hello name a host, of the same host |
| Handshake.DcRoundTrip | proxy/obfuscated.go:92 | the signed 16-bit DC id comes back from its little-endian form, whatever the two bytes after it |
| Handshake.InitKeys | README.md:156-164 | client and server derive the same keystreams, since neither key nor IV depends on the encrypted tail, and the tail decrypts to the client's tag and DC id |
| Handshake.InitIsValid | README.md:156-164 | an init built for a secret passes that secret's test and carries the DC id |
| Handshake.Agreement | proxy/faketls.go:116-167 | main result for both loops: for a secret of the right type whose domain is the server name, if both are given, the search stops at or before it, at it exactly when no earlier such secret's tag is valid, and then DC id, inner init and keystreams are the client's |
| Handshake.FirstMatchUnique | proxy/obfuscated.go:64-108 | the search's result is determined by the nonce and the configuration |
| Handshake.NewObfuscatedClientConn | proxy/obfuscated.go:55-109 | the dd handshake consumes exactly 64 bytes, or fails with nothing left; after a match the connection returned wraps the client's with both streams in position |
| Handshake.NewFakeTlsClientConn | proxy/faketls.go:105-170 | the ee handshake consumes exactly one ClientHello record, answers only after a match, fails as the source does, and returns the wrapped connection with nothing buffered |
| Server.Peek | proxy/server.go:87-94 | one to four bytes taken off the connection, none only at its end |
| Server.Handle | proxy/server.go:81-135 | what a connection is handled as, what is sent and what stays unread, as a relation on the client's whole byte stream; and the connection the relay gets |
| Server.SegmentationIndependence | proxy/server.go:87-128 | main result: any two cuts of the same bytes give an MTProto client the same outcome, bytes sent and unread suffix |
| Server.SocksSegmentation | proxy/server.go:97-101 | a SOCKS5 client whose greeting contains the peek is served as if nothing had been peeked |
| Server.SocksClient | proxy/server.go:97-101 | a SOCKS5 client on the main port, its greeting cut anywhere, is told it is connected exactly when the dialler connected, and relayed from its first byte |
| Server.ServedIff | proxy/server.go:97-135 | exactly which byte streams are relayed as an MTProto client's: by first byte, a complete init or ClientHello, and some secret that matches; nothing sent later changes it |
| Server.ServedStays | proxy/server.go:97-135 | more bytes after a served handshake leave the same nonce and server name, and only lengthen what is unread |
| Server.DdClient | proxy/server.go:97-135 | a dd client's init followed by anything is agreed on end to end exactly when its first byte is not another protocol's and no earlier dd tag is valid |
| Server.EeClient | proxy/server.go:112-135 | the same for an ee client inside any ClientHello whose listed name suits the secret's domain |
| Server.DomainsMet | proxy/faketls.go:122-127 | a hello that names no server suits every domain; one that names a host suits no domain but that host's and the empty one |
| Server.DdApplicationBytes | proxy/server.go:153-189 | after agreement on dd, Reads return what the client encrypts right after its init, and Writes send what the client decrypts, from the first byte |
| Server.EeApplicationBytes | proxy/server.go:153-189 | after agreement on ee, the first Read at either end returns the start of the other's first Write, for any buffer, and stands at the next record |
| Server.EeSession | proxy/faketls.go:161-166 | session safety holds from there with the keystreams and positions the server was left with |
| Socks5.MethodsSplit | proxy/socks5.go:78-103 | methods split between peek and connection read as if they were in one piece |
| Socks5.PeekIsInvisible | proxy/socks5.go:62-159 | same target or error, replies and unread suffix as parsing from scratch (sections 3 to 6 of RFC 1928) when the peek ends within the greeting |
| Socks5.LongPeekShows | proxy/socks5.go:80-88 | otherwise a concrete continuation is answered differently |
| Socks5.PeekRefinement | proxy/socks5.go:62-159 | main result: agreement on every continuation if and only if the peek ends within the greeting |
| Socks5.ChooseMethod | proxy/socks5.go:90-97 | no-auth is selected exactly when it occurs among the offered methods |
| Socks5.ReadMethodsFrom | proxy/socks5.go:78-88 | the method bytes, from peek and connection; peeked bytes beyond them are dropped |
| Socks5.ReadAddress | proxy/socks5.go:118-149 | each address type, its errors, its reply and what it leaves unread |
| Socks5.HandshakeOn | proxy/socks5.go:64-159 | the code computes the stream function, replies cut where the connection fails |
| Socks5.Serve | proxy/socks5.go:23-44 | handshake, dial and reply; a relay starts exactly for a dialled target |
| Socks5.RefusalsTold | proxy/socks5.go:110-149 | a refused request is answered with code 7 for its command or 8 for its address type, and a served one with nothing yet |
| Socks5.OtherVersions | proxy/socks5.go:74-112 | greetings and requests of another version are refused without a reply |
| Socks5.NoAuthNeeded | proxy/socks5.go:90-103 | without no-auth among the methods the reply is 255 and nothing more is read; with it the request decides |
| Socks5.Ipv4Dialled | proxy/socks5.go:121-158 | an IPv4 request reaches the dialler as its address and port |
| Socks5.DomainDialled | proxy/socks5.go:128-158 | a domain request reaches the dialler as its name and port |
| AndroidSocks.Connect | android/app/src/main/kotlin/com/proxy/hysteria/TunWorker.kt:312-364 | the client's outcome, bytes sent and bytes left, for any server bytes and any fragments |
| AndroidSocks.ReadTen | android/app/src/main/kotlin/com/proxy/hysteria/TunWorker.kt:339-346 | the loop collects exactly ten bytes or fails at the end of the stream |
| AndroidSocks.SkipTail | android/app/src/main/kotlin/com/proxy/hysteria/TunWorker.kt:351-363 | the tail of a long reply is skipped by one read of unknown length: at most the tail's size and, if anything came, at least one byte |
| AndroidSocks.HandleGreeting | android/go/hysteria2.go:207-223 | the greeting is consumed and answered with no-auth whatever was offered |
| AndroidSocks.ReadWanted | android/go/hysteria2.go:235-276 | the target's text for each address type |
| AndroidSocks.HandleClient | android/go/hysteria2.go:204-297 | the local server's outcome, replies and unread bytes on any stream |
| AndroidSocks.RequestRead | android/app/src/main/kotlin/com/proxy/hysteria/TunWorker.kt:326-337 | the request the client builds is read back as its host and port |
| AndroidSocks.SocksAgreement | android/go/hysteria2.go:204-297 | main result: the phone's client and server agree on target and outcome, each left at the first relayed byte |
| AndroidSocks.ProxyAgreement | proxy/socks5.go:23-44 | the phone's client against the proxy's own server: connected exactly when the dialler connected to its target, otherwise error 4, each side at the first relayed byte |
| AndroidSocks.ConnectedIff | android/app/src/main/kotlin/com/proxy/hysteria/TunWorker.kt:320-349 | exactly which server bytes make the client connected, and when it sends its request |
| AndroidSocks.GreetedIff | android/go/hysteria2.go:207-223 | exactly which greetings the phone's server accepts, and what it leaves |
| AndroidSocks.AddressesAsked | android/go/hysteria2.go:235-276 | the target for each address type, an IPv6 address in brackets |
| AndroidSocks.PhoneRefusals | android/go/hysteria2.go:230-280 | codes 7 and 8 of the phone's server |
| AndroidSocks.RefusalsSeen | android/app/src/main/kotlin/com/proxy/hysteria/TunWorker.kt:347-349 | a refusal's code is what the client reports |
| AndroidSocks.SocksProgress | android/app/src/main/kotlin/com/proxy/hysteria/TunWorker.kt:316-337 | neither side waits for bytes the other sends only later |
| AndroidSocks.ServersAgree | android/go/hysteria2.go:205-280 | on any stream the repository's two SOCKS5 servers take the same target and leave the same bytes exactly when no-auth is offered and the address is not IPv6, or the phone's server finds no request |
| AndroidSocks.AddressPreserved | android/app/src/main/kotlin/com/proxy/hysteria/TunWorker.kt:209-222 | address and port go through dotted text, SOCKS5 domain request, host:port and the Hysteria2 request and are what the dialler reads |
| Hysteria2.StrRoundTrip | proxy/hysteria2.go:210-231 | what is read back is the prefix whose length survives truncation, and the rest stays in the stream |
| Hysteria2.AuthAgreement | proxy/hysteria2.go:117-144 | both ends reach the same verdict and consume exactly the handshake |
| Hysteria2.AcceptedIffEqual | android/go/hysteria2.go:136-173 | acceptance is password equality against every server, exactly for passwords below 65536 bytes |
| Hysteria2.ServerAcceptsIff | proxy/hysteria2.go:117-144 | against any bytes at all, exactly which streams are accepted |
| Hysteria2.ClientAcceptsIff | android/go/hysteria2.go:155-172 | exactly which responses a client takes for success |
| Hysteria2.RequestLayouts | android/go/hysteria2.go:145-149 | both requests byte by byte |
| Hysteria2.ResponseLayout | proxy/hysteria2.go:129-140 | the authentication response byte by byte |
| Hysteria2.ServedIff | proxy/hysteria2.go:80-111 | streams are served exactly to peers whose first stream begins with the password under its 16-bit length and the rate, and then every later one is |
| Hysteria2.RequestsServed | proxy/hysteria2.go:104-191 | on such a connection every stream carrying a request is served for the address its client put in |
| Hysteria2.TcpAgreement | proxy/hysteria2.go:168-191 | main result: the server's target is the client's, outcomes agree, and after success both sides stand at the first application byte |
| Hysteria2.DialledIff | proxy/hysteria2.go:146-191 | against any bytes at all, exactly which streams get an address dialled, and which address |
| Hysteria2.AddressDecodedIff | android/go/hysteria2.go:310-317 | the address decoded is the client's exactly for addresses below 65536 bytes |
| Hysteria2.ReadStrFrom | proxy/hysteria2.go:210-225 | a length-prefixed string comes off the stream or nothing is left |
| Hysteria2.HandleAuth | proxy/hysteria2.go:117-144 | verdict, response and unread bytes for any stream |
| Hysteria2.SendAuth | android/go/hysteria2.go:136-173 | request sent and response judged, for any response bytes |
| Hysteria2.HandleStream | proxy/hysteria2.go:146-191 | what a stream is served as, its response and unread bytes; an unwritable success reply ends it |
| Hysteria2.OpenTcp | android/go/hysteria2.go:304-345 | request sent, response judged, message skipped |
| Text.DecimalRoundTrip | proxy/socks5.go:158 | printed numbers parse back and have no superfluous zero |
| Text.DialRoundTrip | android/go/hysteria2.go:246-263 | printed address and port parse back to the same four octets and 16-bit port |
| Text.AddressText | android/go/hysteria2.go:247 | the text of an address and port: octets, dots, colon, port |
| Text.DottedLength | android/app/src/main/kotlin/com/proxy/hysteria/TunWorker.kt:327-334 | dotted text fits the one-byte and two-byte length fields it is put into |
| Buffers.ByteBuffer.PutShortAt | android/app/src/main/kotlin/com/proxy/hysteria/TunWorker.kt:406 | an absolute put overwrites two bytes and moves nothing |
| Checksum.OnesComplementSum | android/app/src/main/kotlin/com/proxy/hysteria/TunWorker.kt:441-457 | no 32-bit overflow up to 65536 bytes; the result is the folded sum, by words and by position, and zero exactly for all-zero bytes |
| Checksum.FoldLoop | android/app/src/main/kotlin/com/proxy/hysteria/TunWorker.kt:453-455 | the carry loop terminates with the folded sum |
| Checksum.FoldUnique | android/app/src/main/kotlin/com/proxy/hysteria/TunWorker.kt:453-456 | the folded sum is the only 16-bit number congruent modulo 65535 that is zero exactly for a zero sum |
| Checksum.SumZeroIff | android/app/src/main/kotlin/com/proxy/hysteria/TunWorker.kt:441-457 | the sum, folded or not, is zero exactly when every byte is |
| Checksum.WordSumIsWeighed | android/app/src/main/kotlin/com/proxy/hysteria/TunWorker.kt:444-452 | the sum weighs bytes at even positions by 256 and at odd ones by 1 |
| Checksum.OddPadded | android/app/src/main/kotlin/com/proxy/hysteria/TunWorker.kt:450-452 | an odd last byte counts as if a zero byte followed (section 1 of RFC 1071) |
| Checksum.FoldParts | android/app/src/main/kotlin/com/proxy/hysteria/TunWorker.kt:472-476 | folding two parts, adding and folding is one fold of the total |
| Checksum.WordSumConcat | android/app/src/main/kotlin/com/proxy/hysteria/TunWorker.kt:472-473 | word sums add over a concatenation at an even position |
| Checksum.ComplementCloses | android/app/src/main/kotlin/com/proxy/hysteria/TunWorker.kt:459-461 | adding the complement of the folded sum of a non-zero sum gives 0xFFFF |
| Checksum.InsertedVerifies | android/app/src/main/kotlin/com/proxy/hysteria/TunWorker.kt:401-406 | a checksum put where a zero word stood makes the whole sum 0xFFFF |
| Checksum.IpChecksum | android/app/src/main/kotlin/com/proxy/hysteria/TunWorker.kt:459-461 | the complement of the folded sum of the given range |
| Checksum.TcpChecksum | android/app/src/main/kotlin/com/proxy/hysteria/TunWorker.kt:463-478 | two sums folded separately give the checksum of pseudo-header and segment as one sequence |
| Packet.PacketVerifies | android/app/src/main/kotlin/com/proxy/hysteria/TunWorker.kt:380-434 | main result: for all fields and payloads of either parity, the header, and the segment behind the pseudo-header a receiver makes from the packet, sum by position to a positive multiple of 0xFFFF |
| Packet.FixedFields | android/app/src/main/kotlin/com/proxy/hysteria/TunWorker.kt:393-418 | version, lengths, don't fragment, time to live, protocol, window and urgent pointer, byte by byte |
| Packet.FieldPositions | android/app/src/main/kotlin/com/proxy/hysteria/TunWorker.kt:402-413 | where addresses, ports and numbers stand |
| Packet.PutIpHeader | android/app/src/main/kotlin/com/proxy/hysteria/TunWorker.kt:393-406 | the header written by position, checksum in place |
| Packet.PutTcp | android/app/src/main/kotlin/com/proxy/hysteria/TunWorker.kt:408-421 | the TCP header and payload written by position |
| Packet.PutTcpSegment | android/app/src/main/kotlin/com/proxy/hysteria/TunWorker.kt:408-425 | the segment written behind the IP header, its checksum over pseudo-header and payload in place |
| Packet.Build | android/app/src/main/kotlin/com/proxy/hysteria/TunWorker.kt:387-425 | the filled buffer is the specified packet |
| Packet.PacketRoundTrip | android/app/src/main/kotlin/com/proxy/hysteria/TunWorker.kt:116-180 | main result: parsing a built packet returns every field reduced to its width, and the payload |
| Packet.OptionsSkipped | android/app/src/main/kotlin/com/proxy/hysteria/TunWorker.kt:123-148 | packets with options in either header are parsed to the same fields and payload |
| Packet.ParsedIff | android/app/src/main/kotlin/com/proxy/hysteria/TunWorker.kt:116-137 | exactly which packets are looked at |
| Packet.OctetsOfParsed | android/app/src/main/kotlin/com/proxy/hysteria/TunWorker.kt:212 | the octets shifted out of the signed address are the packet's bytes 16 to 19 |
| Flow.StepKeepsInv | android/app/src/main/kotlin/com/proxy/hysteria/TunWorker.kt:162-306 | every atomic step of the relay and of any other coroutine, with any write failing, keeps the sequence invariant |
| Reassembly.RelaySafety | android/app/src/main/kotlin/com/proxy/hysteria/TunWorker.kt:224-306 | main result, in every reachable state: data segments tile the sequence space from ISN+1 modulo 2^32, the final FIN stands after everything read and no data follows it, no packet is ahead of the data, and the host has the bytes sent exactly when each data segment and the SYN-ACK were written and no other coroutine's FIN arrived first where the segment stands |
| Reassembly.ReassembledIff | android/app/src/main/kotlin/com/proxy/hysteria/TunWorker.kt:272-306 | that equivalence, for any sequence of packets placed as the invariant says |
| Reassembly.ArrivedInOrder | android/app/src/main/kotlin/com/proxy/hysteria/TunWorker.kt:276-291 | while nothing is lost, reassembly by sequence number (section 3.4 of RFC 9293) holds exactly the bytes sent, across wrap-around |
| Reassembly.ReceivedAtMost | android/app/src/main/kotlin/com/proxy/hysteria/TunWorker.kt:427-433 | bytes cut off from the host never come back |
| Reassembly.FinCutsData | android/app/src/main/kotlin/com/proxy/hysteria/TunWorker.kt:162-173 | a run in which every packet is written and the host has none of the data: the answer to its FIN overtakes a chunk already read |
| Reassembly.SynAckLost | android/app/src/main/kotlin/com/proxy/hysteria/TunWorker.kt:237-252 | a run in which every data segment is written and the host has none: the SYN-ACK was lost and the relay went on |
| Flow.ControlLag | android/app/src/main/kotlin/com/proxy/hysteria/TunWorker.kt:162-195 | each ACK or FIN of another coroutine, when written, is behind by what was uncounted when its number was read, at most one segment, plus what was written since; by at most one segment when nothing was |
| Flow.ControlLagUnbounded | android/app/src/main/kotlin/com/proxy/hysteria/TunWorker.kt:182-195 | a run exists for every number of segments written between the reading of the number and its packet |
| Flow.RelayTurn | android/app/src/main/kotlin/com/proxy/hysteria/TunWorker.kt:276-291 | the machine's four relay steps, undisturbed, are one turn of the loop |
| ClientData.WrittenIsPayloads | android/app/src/main/kotlin/com/proxy/hysteria/TunWorker.kt:182-187 | with one coroutine at a time, the socket gets the payloads in arrival order whatever their numbers |
| ClientData.AcksIffInOrder | android/app/src/main/kotlin/com/proxy/hysteria/TunWorker.kt:184-195 | with one coroutine at a time, every ACK is ISN + 1 + bytes forwarded, modulo 2^32, exactly for in-order delivery |
| ClientData.Accepted | android/app/src/main/kotlin/com/proxy/hysteria/TunWorker.kt:176-200 | what a receiver that compares numbers would take: everything in order, strictly less otherwise |
| ClientData.ForwardedIffInOrder | android/app/src/main/kotlin/com/proxy/hysteria/TunWorker.kt:176-200 | with one coroutine at a time, the bytes written are a comparing receiver's exactly when segments arrive in order and once |
| Forwarding.StepKeepsInv | android/app/src/main/kotlin/com/proxy/hysteria/TunWorker.kt:182-200 | every step of any number of forwarding coroutines keeps the account of what was written, by whom, and whose number clientSeq holds |
| Forwarding.ForwardingSafety | android/app/src/main/kotlin/com/proxy/hysteria/TunWorker.kt:176-200 | main result, over all interleavings: the socket has the payloads of distinct segments in the order of the writes, and an ACK carries the number of the last coroutine to update clientSeq, the sender or a later one, whose payload is written |
| Forwarding.WritesInOrder | android/app/src/main/kotlin/com/proxy/hysteria/TunWorker.kt:176-200 | when writes follow arrival the socket has the arrived stream, and if segments arrived in order each ACK counts the stream up to the end of a segment that has been written |
| Forwarding.StreamSurvivesIff | android/app/src/main/kotlin/com/proxy/hysteria/TunWorker.kt:182-187 | a schedule of writes hands on every stream that arrives in order if and only if it follows the order of arrival |
| Forwarding.Overtaking | android/app/src/main/kotlin/com/proxy/hysteria/TunWorker.kt:182-195 | a run in which in-order segments are written out of order and the ACK counts one not written |
| Forwarding.StaleAcks | android/app/src/main/kotlin/com/proxy/hysteria/TunWorker.kt:186-195 | a run written in order in which every ACK counts the first segment only |
| Schedules.ScheduleHappens | android/app/src/main/kotlin/com/proxy/hysteria/TunWorker.kt:182-200 | any distinct segments can be written, and can update clientSeq, in any order: some run does |
| Schedules.RunsHandOnIff | android/app/src/main/kotlin/com/proxy/hysteria/TunWorker.kt:182-187 | every run that writes in a given order hands on its in-order stream if and only if that is the order of arrival |
| Schedules.AcksWithinIff | android/app/src/main/kotlin/com/proxy/hysteria/TunWorker.kt:184-195 | every run that writes in a given order, as far as it gets, only acknowledges bytes it has written if and only if that is the order of arrival |
| Schedules.AcksForwardIff | android/app/src/main/kotlin/com/proxy/hysteria/TunWorker.kt:186-192 | every run that updates clientSeq in a given order, as far as it gets, acknowledges the sender's segment or a later one if and only if no update follows that of a later segment |
| Forwarding.OneAtATime | android/app/src/main/kotlin/com/proxy/hysteria/TunWorker.kt:182-200 | one coroutine at a time is a run of this machine with the effect ClientData states |
| TunWorker.Worker.SendTcpPacket | android/app/src/main/kotlin/com/proxy/hysteria/TunWorker.kt:380-434 | one packet with these fields and payload reaches the device, or nothing does and nobody is told |
| TunWorker.Worker.HandlePacket | android/app/src/main/kotlin/com/proxy/hysteria/TunWorker.kt:116-203 | for arbitrary input: nothing is read outside the packet, and each branch's packet, flow-table change and coroutine; a flow that leaves the table is closed and no other changes |
| TunWorker.Worker.HandleTcpPacket | android/app/src/main/kotlin/com/proxy/hysteria/TunWorker.kt:150-203 | the dispatch, for any segment |
| TunWorker.Worker.CloseFlow | android/app/src/main/kotlin/com/proxy/hysteria/TunWorker.kt:370-374 | whatever flow has the key leaves the table and is closed; an unknown key changes nothing |
| TunWorker.Worker.ForwardToSocks | android/app/src/main/kotlin/com/proxy/hysteria/TunWorker.kt:182-200 | payload written, clientSeq advanced and acknowledged; on a closed flow or a failed write nothing is sent and the flow that has the key is closed |
| TunWorker.Worker.ConnectFlow | android/app/src/main/kotlin/com/proxy/hysteria/TunWorker.kt:209-265 | a flow exists exactly after a connection and a successful handshake, with both numbers one past the ISNs and a SYN-ACK; otherwise a RST |
| TunWorker.Worker.RelayChunk | android/app/src/main/kotlin/com/proxy/hysteria/TunWorker.kt:281-290 | the packet carries the old serverSeq, which then advances by the payload |
| TunWorker.Worker.RelayLoop | android/app/src/main/kotlin/com/proxy/hysteria/TunWorker.kt:276-291 | chunks read concatenate to what left the socket and are emitted at consecutive numbers |
| TunWorker.Worker.Relay | android/app/src/main/kotlin/com/proxy/hysteria/TunWorker.kt:272-306 | the loop's packets, none for a closed flow, then a FIN after the last byte, then the flow that has the key is closed and gone |
| TunWorker.HostReadsEmitted | android/app/src/main/kotlin/com/proxy/hysteria/TunWorker.kt:380-434 | parsing and reassembling the packets on the device is reassembling what was meant to be sent |
| TunWorker.HostRecovers | android/app/src/main/kotlin/com/proxy/hysteria/TunWorker.kt:237-306 | main result on bytes: the host of a connection, which ignores packets for any other addresses and ports, recovers exactly the relayed stream from the wire packets if and only if the SYN-ACK and all data packets were written |
| TunWorker.AnswersSegment | android/app/src/main/kotlin/com/proxy/hysteria/TunWorker.kt:165-172 | a packet in answer to a segment goes back from its destination to its source, with the numbers and flags given |
| TunWorker.ClassifiedBy | android/app/src/main/kotlin/com/proxy/hysteria/TunWorker.kt:152-176 | the dispatch by the flag bits on the wire |
| TunWorker.FinAnswered | android/app/src/main/kotlin/com/proxy/hysteria/TunWorker.kt:158-174 | a FIN is acknowledged by a FIN for the byte after it, a RST by nothing, and the flow is gone |
| TunWorker.SegmentTaken | android/app/src/main/kotlin/com/proxy/hysteria/TunWorker.kt:152-187 | a SYN starts one attempt for its own addresses and number; data goes to the flow of its addresses |
| TunWorker.ForwardedIff | android/app/src/main/kotlin/com/proxy/hysteria/TunWorker.kt:116-201 | for any packet a host can build, exactly when its payload is forwarded, all of it and under its number; none with a FIN is |
| FlowTable.StepKeepsInv | android/app/src/main/kotlin/com/proxy/hysteria/TunWorker.kt:182-306 | the table holds, for each key, the newest of its flows or none, and only open ones |
| FlowTable.ForeignIsNewer | android/app/src/main/kotlin/com/proxy/hysteria/TunWorker.kt:304 | a coroutine that closes a flow not its own closes a newer one with its key |
| FlowTable.HarmlessStepIff | android/app/src/main/kotlin/com/proxy/hysteria/TunWorker.kt:209-235 | the one kind of step that makes this possible: a flow enters the table while a coroutine of an older flow with its key is left |
| FlowTable.OwnFlowsIff | android/app/src/main/kotlin/com/proxy/hysteria/TunWorker.kt:182-306 | over every run, coroutines can only close their own flow if and only if no key is taken again before its coroutines have ended |
| FlowTable.OldRelayClosesNewFlow | android/app/src/main/kotlin/com/proxy/hysteria/TunWorker.kt:295-305 | a run in which a reset connection is made again and the old relay tears the new one down |
| SynRace.SingleRunsAgree | android/app/src/main/kotlin/com/proxy/hysteria/TunWorker.kt:209-250 | over every run in which no SYN is handled while another of its key is pending or the host is synchronised, the flow the host synchronised with is the table's |
| SynRace.AgreementIff | android/app/src/main/kotlin/com/proxy/hysteria/TunWorker.kt:209-250 | main result: a further step keeps that agreement, whatever follows without such a SYN, if and only if it is not one itself |
| SynRace.RetransmittedSyn | android/app/src/main/kotlin/com/proxy/hysteria/TunWorker.kt:210-235 | a run in which a retransmitted SYN gives the host one flow and the table another |
| TunWorker.SynAddressPreserved | android/app/src/main/kotlin/com/proxy/hysteria/TunWorker.kt:136-222 | the address a SYN packet carries is, octet for octet, what the server's dialler reads |
| Stats.Stats.SecretStatsOf | stats/stats.go:66-74 | an existing record is kept, a new one starts at zero, no two names share one |
| Stats.Stats.ConnOpen | stats/stats.go:36-47 | every counter's change, and that other names' records keep theirs |
| Stats.Stats.ConnClose | stats/stats.go:49-58 | the same for closing |
| Stats.RunKeepsInv | stats/stats.go:36-74 | every atomic step of any thread keeps each counter equal to what the threads contribute to it |
| Stats.LookupKeepsInv | stats/stats.go:66-74 | a first lookup adds one record that no thread counts in yet |
| Stats.Conservation | stats/stats.go:36-74 | main result, in every reachable state: activeConns is the sum of per-secret active plus opens minus closes in mid-call (totals likewise), equal exactly when these balance; no counter is negative; racing first opens share one record |
| Stats.ThreadsCanRun | proxy/server.go:161-162 | no thread is ever stuck before it is done |
| Stats.QuietAgreement | stats/stats.go:36-58 | with no call in progress all sums agree and each record counts its live connections |
| Stats.OpenRuns | stats/stats.go:36-47 | ConnOpen, undisturbed, is five steps of its thread: each counter one up, no other record touched |
| Stats.CloseRuns | stats/stats.go:49-58 | ConnClose is three, taking back the two that are |
| Lifecycle.StepKeepsInv | android/go/hysteria2.go:66-130 | every step of callers and session goroutines keeps the lifecycle invariant |
| Lifecycle.LifecycleSafety | android/go/hysteria2.go:66-202 | main result, in every reachable state: at most one session is alive, running is true exactly then, it is cancelled or can be through cancelFunc, and open listeners have different ports |
| Lifecycle.ExitClearsOwnFlag | android/go/hysteria2.go:108-113 | when a goroutine clears running, no other session is alive |
| Lifecycle.HolderCanProceed | android/go/hysteria2.go:66-130 | the holder of the mutex can always take its next step |
| Lifecycle.LeakIff | android/go/hysteria2.go:104-105 | exactly which step loses a listener |
| Lifecycle.LeakedIff | android/go/hysteria2.go:66-202 | over every run, a listener is lost if and only if some start stored its cancelFunc over that of an unstopped session that had ended; never when there is a stop between starts |
| Lifecycle.LeakIsForever | android/go/hysteria2.go:179-202 | a lost listener stays open and its port cannot be listened on again |
| Lifecycle.LeakHappens | android/go/hysteria2.go:66-202 | a run that loses one |
| Lifecycle.Client.Start | android/go/hysteria2.go:66-121 | the fields after start in each case, and that the call is a run of the machine |
| Lifecycle.Client.Stop | android/go/hysteria2.go:123-130 | the session alive, if any, is cancelled; running is left to its goroutine; the call is a run of the machine |
| Secrets.DecodeEncode | config/config.go:30-32 | hexadecimal digits decode to the bytes they were printed from |
| Secrets.EncodeDecode | config/config.go:119-125 | decoded digits print as the same digits in lower case |
| Secrets.ParsePrinted | config/config.go:27-35 | main result: printing and parsing restores type, key and domain of any secret |
| Secrets.PrintParsed | config/config.go:113-153 | any accepted string is well formed and prints as a canonical spelling that parses to the same secret |
| Secrets.SameSecretIff | config/config.go:113-153 | two accepted strings name the same secret exactly when their canonical spellings are equal |
| Secrets.PlainAcceptedIff | config/config.go:145-152 | the plain spelling of a key is accepted, and gives the key back, exactly when its first byte is neither 0xdd nor 0xee |
| Secrets.AcceptedIff | config/config.go:113-153 | exactly which strings are accepted and as which type: by prefix, length and hexadecimal digits of either case |

## Left out

- AES, SHA-256, TLS and QUIC internals: values of type `Crypto` and ordered byte streams; an AES key has the right size by construction, so the key error branches are not there.
- strings.EqualFold and the text of an IPv6 address: parameters (`Fold`, `Ip6Text`).
- Dialling, the clock, the network's fragments and failures: parameters or arbitrary choices; deadlines and logging are not modelled.
- A read error other than the end of the stream: modelled as the end of the stream.
- The random contents of the fake ServerHello, and a failing random source: the message is a parameter.
- The DC table, the connection to the DC and the meaning of the init forwarded to it: they depend on a remote party.
- io.Copy and the relays between two sockets: the session theorems cover any sequence of reads and writes they make.
- Hysteria2.ServedIff: the loop of hy2HandleConn is a function on the accepted streams, since its goroutines share nothing.
- Hysteria2.ReadStrFrom: the two read errors of hy2ReadStr are one outcome, as its callers treat them alike.
- TunWorker.Worker.ForwardToSocks: like the other coroutine bodies it is stated for a run without interference; interleavings are in `Flow` and `Forwarding`, per flow object, and in `FlowTable`.
- Forwarding.ForwardingSafety: the write of one payload is one step, so two writes whose bytes mix inside the socket are not modelled.
- TunWorker.Worker.Relay: a read of zero bytes cannot occur on a non-empty buffer; stopping and socket errors are an arbitrary decision to leave the loop.
- TunWorker.Worker.SendTcpPacket: limited to packets of at most 65535 bytes; the worker's are at most 1500.
- Reassembly.RelaySafety: about the packets of one flow object; a host that gets those of two under one key is excluded by the condition of `SynRace`, not modelled packet by packet.
- TCP features the worker lacks: retransmission, windows, reassembly of out-of-order segments, reordering by the host.
- Stats.Stats.ConnOpen: stated for a run without interference, with interleavings in the machine; 64-bit overflow of the counters is not modelled.
- Byte counters and the statistics page: easy members.
- Lifecycle.Client.Start: the contract is of one call at a time with sessions' goroutines as steps of the machine; scheduling fairness is not modelled, so nothing is said about a stopped session ending eventually.
- Configuration from the environment, command line, certificate generation, user interface and Android services: wrappers.
