# Verification of the meow VPN client's core

A Dafny model of the parts of this repository where a mistake is silent: the simple-obfs stream
adapters, the DNS and packet path of tun2socks, the start and stop of the VPN service, and the
replay of saved selections.

| file | models |
|---|---|
| `Bytes.dfy`, `Transport.dfy` | octets and big-endian fields; the inner byte stream of an adapter, whose chunking, Pending points and failures are left open |
| `WriteLedger.dfy` | the accounting of framed, accepted and in-flight bytes that both adapters keep |
| `TlsWire.dfy`, `ClientHello.dfy`, `TlsMode.dfy` | TLS mode: the decoder and framing on whole strings, the ClientHello with an independent parser, the poll-driven adapter |
| `HttpWire.dfy`, `HttpRequest.dfy`, `HttpMode.dfy` | HTTP mode: the bounded header scan, the request, the poll-driven adapter |
| `DnsName.dfy`, `DnsResponse.dfy`, `DnsEncode.dfy` | names with compression pointers and response messages, each against a grammar; an encoder that shows the grammar is not empty and that the parser inverts it |
| `DnsTable.dfy` | the address table, refined to the history of its inserts |
| `Socks5.dfy` | target choice, the CONNECT request and the exchange with the proxy |
| `Packet.dfy` | the Internet checksum, IPv4/UDP building and parsing |
| `Engine.dfy`, `Lifecycle.dfy` | the native resources with the order in which they may change; the service as steps between suspension points |
| `SelectionReplay.dfy` | the first-member walk and the replay loop |

Check it with `dafny verify dfyconfig.toml`.

## How to read it

* The adapters, the table, the native side and the service are classes with the source's own
  fields. Ghost fields record their history; a `Valid` predicate ties fields to history, and
  methods say what is added to it. What the history means is then proved by lemmas.
* `Transport.Stream` answers each poll nondeterministically, so a theorem about an adapter holds
  for every split of the wire, every Pending and every failure. The stream notes each answer that
  is not bytes moved; the adapters prove that they pass on exactly these, so that a Pending always
  stands on a Pending of the inner stream and no error is made up.
* Length casts and sums on `u16` and `u32` wrap, as in a release build; where that matters the
  exact bound is proved in both directions.
* UTF-8 validity is any predicate on labels. Random bytes, times and the User-Agent numbers are
  arguments.
* The lifecycle is a function on snapshots. An event that nothing waits for changes nothing, so
  every sequence of events is a run, and every theorem about it is for all sequences.

## What the code turns out to do

* `poll_flush` and `poll_shutdown` drain the write buffer but leave the length that the retry of a
  Pending write reports, so a flush between a Pending write and its retry sends the chunk twice.
  Conservation holds exactly for callers that retry first (`WriteLedger.ConservedIffDisciplined`,
  `WriteLedger.FlushBeforeRetryDuplicates`; in the caller's own terms
  `WriteLedger.RetryingIsDisciplined`).
* The comment at simple_obfs.rs:159 speaks of a 16 KiB bound on the HTTP header. The code finds
  every header of up to 16385 bytes and none beyond 17408; between them it depends on the chunking
  (`HttpWire.ScanBounds`, `HttpWire.BoundsAreSharp`).
* A host with a blank line in it ends the fake HTTP header early (`HttpRequest.RequestStripsIff`,
  `HttpRequest.TrailingLineBreakLosesBody`).
* A ClientHello whose lengths do not fit 16 bits cannot be parsed (`ClientHello.HelloParsesIff`).
* A response that counts no question loses its single address record: the parser takes the owner
  for the question and reads on four bytes late (`DnsResponse.NoQuestionLosesAddress`). It can even
  invent an address out of an AAAA record's own bytes (`DnsResponse.NoQuestionInventsAddress`). With
  a question nothing is lost (`DnsResponse.ParseMeetsGrammar`, `DnsResponse.AddressComesThroughIff`).
* A name of more than 255 bytes, which the name reader can return, makes a CONNECT request with a
  wrong length byte (`Socks5.RequestDecodesIff`, `Socks5.LongNameReachesNoProxy`).
* A CONNECT reply with an unknown address type counts as success, and what follows its first four
  bytes is left in the stream (`Socks5.OddReplies`).
* `parse_udp_packet` trusts the UDP length alone, so packets round-trip up to 65527 payload bytes
  although their IPv4 total length is right only up to 65507 (`Packet.RoundTripIff`,
  `Packet.TotalLengthIff`).
* Connected promises a running, protected engine, but not a running forwarder: it runs exactly as
  long as its task has not ended by itself since the start (`Lifecycle.ForwarderRunsIff`).

## Model

| member | source | states |
|---|---|---|
| `WriteLedger.RunWellFormed` | core/src/main/rust/mihomo-proxy-patched/src/simple_obfs.rs:414-475 | in every reachable state of a writer the chunk in flight is the last chunk framed, whatever was written, flushed or retried |
| `WriteLedger.StepConserved` | core/src/main/rust/mihomo-proxy-patched/src/simple_obfs.rs:422-428 | one call keeps framed bytes = accepted bytes + chunk in flight exactly when it is disciplined, and nothing ever repairs a lost balance |
| `WriteLedger.ConservedIffDisciplined` | core/src/main/rust/mihomo-proxy-patched/src/simple_obfs.rs:414-475 | over every run of writes, flushes and shutdowns: each accepted byte was framed once and in order if and only if every Pending write was retried with an extension of the same bytes before anything new |
| `WriteLedger.FlushBeforeRetryDuplicates` | core/src/main/rust/mihomo-proxy-patched/src/simple_obfs.rs:461-475 | the failing family: a flush that completes a Pending write, then its retry, puts the chunk on the wire twice |
| `WriteLedger.RetryingIsDisciplined` | core/src/main/rust/mihomo-proxy-patched/src/simple_obfs.rs:414-475 | the same in what a caller sees: if no flush and no other bytes come between a write left without an answer and the write that completes it, nothing is lost, repeated or reordered |
| `TlsWire.DiscardConsumes` | core/src/main/rust/mihomo-proxy-patched/src/simple_obfs.rs:355-365 | the Discard branch keeps the reader on course for every future of the stream |
| `TlsWire.LengthConsumes` | core/src/main/rust/mihomo-proxy-patched/src/simple_obfs.rs:373-383 | so does a length field that arrives in one or two pieces |
| `TlsWire.LengthDone` | core/src/main/rust/mihomo-proxy-patched/src/simple_obfs.rs:366-372 | a complete length field opens a payload of that big-endian length |
| `TlsWire.PayloadConsumes` | core/src/main/rust/mihomo-proxy-patched/src/simple_obfs.rs:390-408 | payload bytes handed over are the next bytes of the decoded stream |
| `TlsWire.PayloadDone` | core/src/main/rust/mihomo-proxy-patched/src/simple_obfs.rs:385-389 | a finished frame is followed by a 3-byte discard, empty frames included |
| `TlsWire.TracksExact` | core/src/main/rust/mihomo-proxy-patched/src/simple_obfs.rs:349-410 | a reader on course has delivered exactly the payload of the prefix it consumed |
| `TlsWire.DecodeMonotone` | core/src/main/rust/mihomo-proxy-patched/src/simple_obfs.rs:341-411 | later wire bytes never change what was already delivered |
| `TlsWire.DecodeOfRecords` | core/src/main/rust/mihomo-proxy-patched/src/simple_obfs.rs:440-446 | any 102 bytes and then the records of any chunks decode to the chunks |
| `TlsWire.StrictInvertsRecords` | core/src/main/rust/mihomo-proxy-patched/src/simple_obfs.rs:440-446 | a server that insists on type 23 and version 3.3 of every record reads back exactly the chunks |
| `TlsWire.RunFramable` | core/src/main/rust/mihomo-proxy-patched/src/simple_obfs.rs:434-446 | no run ever frames a chunk that overflows the 16-bit record length |
| `TlsWire.AcceptedBytesRoundTrip` | core/src/main/rust/mihomo-proxy-patched/src/simple_obfs.rs:341-459 | write, then read, over whole runs: what a disciplined writer accepted after its first chunk, long writes split at 16 KiB included, is read back unchanged |
| `TlsMode.TlsObfs.constructor` | core/src/main/rust/mihomo-proxy-patched/src/simple_obfs.rs:304-318 | a new adapter has delivered nothing, framed nothing and is on course |
| `TlsMode.TlsObfs.PollRead` | core/src/main/rust/mihomo-proxy-patched/src/simple_obfs.rs:342-411 | for every chunking, Pending point and buffer size: bytes delivered over all polls = decoding of the wire consumed over all polls; terminates on every wire; adds nothing to a buffer with space only at end of file; Pending and errors are passed on, never invented |
| `TlsMode.TlsObfs.PollDiscard` | core/src/main/rust/mihomo-proxy-patched/src/simple_obfs.rs:355-365 | one read of the Discard phase: progress, or the reader is left where it was |
| `TlsMode.TlsObfs.PollLength` | core/src/main/rust/mihomo-proxy-patched/src/simple_obfs.rs:373-383 | one read of the length field, through the two-byte buffer |
| `TlsMode.TlsObfs.PollPayload` | core/src/main/rust/mihomo-proxy-patched/src/simple_obfs.rs:390-408 | one read of payload into the caller's space |
| `TlsMode.TlsObfs.PollDrainWriteBuf` | core/src/main/rust/mihomo-proxy-patched/src/simple_obfs.rs:322-338 | sent bytes followed by queued bytes never change while the queue drains; it ends empty or unchanged; WriteZero only if the stream took nothing |
| `TlsMode.TlsObfs.PollWrite` | core/src/main/rust/mihomo-proxy-patched/src/simple_obfs.rs:415-459 | in every reachable state, sent + queued = the ClientHello of the first chunk and the records of the others; the ledger moves as the state machine says; reports the length of the chunk in flight on a retry, and at most 16384 otherwise |
| `TlsMode.TlsObfs.PollRetry` | core/src/main/rust/mihomo-proxy-patched/src/simple_obfs.rs:422-428 | a retry finishes the queue and reports the in-flight length, whatever buffer it is given |
| `TlsMode.TlsObfs.PollEnframed` | core/src/main/rust/mihomo-proxy-patched/src/simple_obfs.rs:447-458 | a chunk just queued is reported exactly if it drains at once |
| `TlsMode.TlsObfs.EnframeFirst` | core/src/main/rust/mihomo-proxy-patched/src/simple_obfs.rs:437-439 | the first chunk goes into a ClientHello |
| `TlsMode.TlsObfs.EnframeRecord` | core/src/main/rust/mihomo-proxy-patched/src/simple_obfs.rs:440-448 | later chunks become application-data records |
| `TlsMode.TlsObfs.PollFlush` | core/src/main/rust/mihomo-proxy-patched/src/simple_obfs.rs:461-467 | drains the queue, reports nothing, and is done only when the inner stream has been flushed |
| `TlsMode.TlsObfs.PollShutdown` | core/src/main/rust/mihomo-proxy-patched/src/simple_obfs.rs:469-475 | the same before the inner stream is closed |
| `TlsMode.ReaderDeliversAccepted` | core/src/main/rust/mihomo-proxy-patched/src/simple_obfs.rs:341-459 | two adapters end to end: at every moment the reader has delivered a prefix of what the writer accepted, and all of it once it has consumed the records |
| `TlsMode.ServerReadsAccepted` | core/src/main/rust/mihomo-proxy-patched/src/simple_obfs.rs:415-571 | the whole write side, over every disciplined run: a server that knows the TLS grammar reads from all that was sent and queued (ticket of the hello, then records of type 23 and version 3.3) exactly the bytes accepted and in flight, if 212 + first chunk + server name fits 16 bits; otherwise the hello does not parse |
| `TlsMode.ServerReadsRetryingCaller` | core/src/main/rust/mihomo-proxy-patched/src/simple_obfs.rs:415-571 | the same for every caller that retries a write left without an answer before anything else |
| `ClientHello.BuildClientHello` | core/src/main/rust/mihomo-proxy-patched/src/simple_obfs.rs:481-571 | the pushed bytes are the declarative hello |
| `ClientHello.PushHeader` | core/src/main/rust/mihomo-proxy-patched/src/simple_obfs.rs:493-503 | record and handshake header with the source's 16-bit sums |
| `ClientHello.PushIntro` | core/src/main/rust/mihomo-proxy-patched/src/simple_obfs.rs:505-530 | version, random, session id, suites and compression |
| `ClientHello.PushExtensionsLength` | core/src/main/rust/mihomo-proxy-patched/src/simple_obfs.rs:532-534 | the extensions length |
| `ClientHello.PushExtensions` | core/src/main/rust/mihomo-proxy-patched/src/simple_obfs.rs:536-568 | the seven extensions in order |
| `ClientHello.PushSniBody` | core/src/main/rust/mihomo-proxy-patched/src/simple_obfs.rs:541-547 | the nested server-name lengths |
| `ClientHello.WalkInvertsEncode` | core/src/main/rust/mihomo-proxy-patched/src/simple_obfs.rs:536-568 | a walker that knows only the extension grammar (section 7.4.1.4 of RFC 5246) recovers any list of extensions |
| `ClientHello.ExtensionsSize` | core/src/main/rust/mihomo-proxy-patched/src/simple_obfs.rs:532-534 | the constant 79 is the size of everything but data and name |
| `ClientHello.HostNameRecovers` | core/src/main/rust/mihomo-proxy-patched/src/simple_obfs.rs:541-547 | the server-name list (section 3 of RFC 6066) gives the name back |
| `ClientHello.HelloParsesIff` | core/src/main/rust/mihomo-proxy-patched/src/simple_obfs.rs:481-571 | every nested length covers its bytes and the hello parses, if and only if 212 + data + name fits 16 bits (so for 16384 data bytes: names up to 48939) |
| `ClientHello.HelloCarries` | core/src/main/rust/mihomo-proxy-patched/src/simple_obfs.rs:481-571 | the ticket of a hello that parses is the payload, its host name the server |
| `ClientHello.HelloOffers` | core/src/main/rust/mihomo-proxy-patched/src/simple_obfs.rs:505-568 | what else a server reads in it: time and random, session id, 28 suites, no compression, and the five fixed extensions |
| `ClientHello.RecordLength` | core/src/main/rust/mihomo-proxy-patched/src/simple_obfs.rs:493-497 | the record header names the length of the hello, truncated to 16 bits |
| `HttpWire.FindDoubleCrlf` | core/src/main/rust/mihomo-proxy-patched/src/simple_obfs.rs:253-263 | returns the least index of CR LF CR LF, or that there is none |
| `HttpWire.TerminatorIs` | core/src/main/rust/mihomo-proxy-patched/src/simple_obfs.rs:253-263 | the terminator is 13, 10, 13, 10 |
| `HttpWire.HeaderEndExtends` | core/src/main/rust/mihomo-proxy-patched/src/simple_obfs.rs:157-184 | where the header ends depends on no later byte, terminators across reads included |
| `HttpWire.ScanBounds` | core/src/main/rust/mihomo-proxy-patched/src/simple_obfs.rs:157-192 | under every chunking: at most 17408 bytes kept; a header of up to 16385 bytes is found; one beyond 17408 never is; what is found is the true end |
| `HttpWire.BoundsAreSharp` | core/src/main/rust/mihomo-proxy-patched/src/simple_obfs.rs:161-191 | between the bounds the chunking decides: some chunkings find the header and some refuse it |
| `HttpRequest.BuildHttpRequest` | core/src/main/rust/mihomo-proxy-patched/src/simple_obfs.rs:79-114 | written line by line, the request gives its body back to a peer that strips to the first blank line if and only if the host puts no blank line into its own line |
| `HttpRequest.RequestStripsIff` | core/src/main/rust/mihomo-proxy-patched/src/simple_obfs.rs:84-113 | a peer that strips to the first blank line gets the body back if and only if the host puts no blank line into its own line |
| `HttpRequest.ServerReadsRequest` | core/src/main/rust/mihomo-proxy-patched/src/simple_obfs.rs:79-114 | a server that reads lines finds in every request with a clean host and key the GET line, the host and port, the upgrade, the key, and a Content-Length that reads as the size of the body behind the blank line |
| `HttpRequest.TrailingLineBreakLosesBody` | core/src/main/rust/mihomo-proxy-patched/src/simple_obfs.rs:84-88 | hosts that do: any that ends in CR LF, on port 80 |
| `HttpMode.HttpObfs.constructor` | core/src/main/rust/mihomo-proxy-patched/src/simple_obfs.rs:55-70 | a new adapter is scanning, has delivered and framed nothing |
| `HttpMode.HttpObfs.PollRead` | core/src/main/rust/mihomo-proxy-patched/src/simple_obfs.rs:137-196 | over all polls: delivered + leftover = what follows the first CRLFCRLF of the bytes consumed; a poll with space adds nothing before passthrough only at end of file or once at a terminator that ends a read; InvalidData only past 16384 bytes without terminator, so never when the header ends by 16385; passthrough is never left; no invented Pending or error |
| `HttpMode.HttpObfs.DrainLeftover` | core/src/main/rust/mihomo-proxy-patched/src/simple_obfs.rs:144-155 | hands over kept body bytes in order, through any buffer size |
| `HttpMode.HttpObfs.PollHeader` | core/src/main/rust/mihomo-proxy-patched/src/simple_obfs.rs:157-192 | the scan loop: terminates on every wire, at most 17408 bytes of scratch |
| `HttpMode.HttpObfs.PollPiece` | core/src/main/rust/mihomo-proxy-patched/src/simple_obfs.rs:163-170 | one read of the header is one piece of the bounded scan |
| `HttpMode.HttpObfs.EndHeader` | core/src/main/rust/mihomo-proxy-patched/src/simple_obfs.rs:171-184 | splits body from header; at most 1023 bytes are kept back |
| `HttpMode.HttpObfs.DeliveredIsBody` | core/src/main/rust/mihomo-proxy-patched/src/simple_obfs.rs:137-196 | delivered bytes are a prefix of what follows the header on the whole wire; the header has been passed exactly when its end has been read, and one that ends beyond 17408 never is |
| `HttpMode.AdvanceScan` | core/src/main/rust/mihomo-proxy-patched/src/simple_obfs.rs:165-191 | one more read is one more piece of the scan, which never keeps 1024 body bytes |
| `HttpMode.HttpObfs.PollDrainWriteBuf` | core/src/main/rust/mihomo-proxy-patched/src/simple_obfs.rs:117-133 | sent bytes followed by queued bytes never change while the queue drains |
| `HttpMode.HttpObfs.PollWrite` | core/src/main/rust/mihomo-proxy-patched/src/simple_obfs.rs:200-234 | in every reachable state, sent + queued = the request built around the first chunk, then the later chunks as they are; the ledger moves as the state machine says |
| `HttpMode.HttpObfs.PollRetry` | core/src/main/rust/mihomo-proxy-patched/src/simple_obfs.rs:209-214 | a retry finishes the request and reports the first chunk |
| `HttpMode.HttpObfs.PollFirst` | core/src/main/rust/mihomo-proxy-patched/src/simple_obfs.rs:216-221 | the first write, empty or not, becomes a request |
| `HttpMode.HttpObfs.PollEnframed` | core/src/main/rust/mihomo-proxy-patched/src/simple_obfs.rs:222-230 | its length is reported exactly if it drains at once |
| `HttpMode.HttpObfs.PollPassthrough` | core/src/main/rust/mihomo-proxy-patched/src/simple_obfs.rs:231-233 | later writes go straight through, with the inner stream's own answer |
| `HttpMode.HttpObfs.PollFlush` | core/src/main/rust/mihomo-proxy-patched/src/simple_obfs.rs:236-242 | drains the queue, reports nothing, and is done only when the inner stream has been flushed |
| `HttpMode.HttpObfs.PollShutdown` | core/src/main/rust/mihomo-proxy-patched/src/simple_obfs.rs:244-250 | the same before the inner stream is closed |
| `HttpMode.ServerReadsAccepted` | core/src/main/rust/mihomo-proxy-patched/src/simple_obfs.rs:200-234 | the whole write side, over every disciplined run: a peer that strips to the first blank line of all that was sent and queued finds exactly the bytes accepted and in flight, if and only if the host has no blank line |
| `HttpMode.ServerReadsRetryingCaller` | core/src/main/rust/mihomo-proxy-patched/src/simple_obfs.rs:200-234 | the same for every caller that retries a write left without an answer before anything else |
| `DnsName.ReadDnsName` | core/src/main/rust/mihomo-android-ffi/src/dns_table.rs:142-190 | the loop terminates on every input, pointer cycles included, and returns the name and end the recursive reading gives |
| `DnsName.SpelledIsRead` | core/src/main/rust/mihomo-android-ffi/src/dns_table.rs:162-186 | labels spelled with no more pointers than allowed are read |
| `DnsName.ReadIsSpelled` | core/src/main/rust/mihomo-android-ffi/src/dns_table.rs:149-186 | labels read are spelled by the grammar, with a count of pointers within the limit |
| `DnsName.NameReadIff` | core/src/main/rust/mihomo-android-ffi/src/dns_table.rs:142-190 | a name is returned exactly when the grammar (section 4.1.4 of RFC 1035, lengths up to 0xBF read as labels) has one with at most 32 pointers; it is that name; its end is in (offset, len] |
| `DnsName.NameStep` | core/src/main/rust/mihomo-android-ffi/src/dns_table.rs:149-189 | what is read at a byte that is no pointer, byte by byte: nothing past the end or at half a pointer, the empty name at a zero, otherwise a UTF-8 label of that length, a dot and the name behind it |
| `DnsName.NameLabelBound` | core/src/main/rust/mihomo-android-ffi/src/dns_table.rs:149-186 | at most 33*len/2 labels |
| `DnsName.NameEndLocal` | core/src/main/rust/mihomo-android-ffi/src/dns_table.rs:155-168 | where a name ends depends on no byte from that end on, so on nothing behind a pointer |
| `DnsName.NameTruncated` | core/src/main/rust/mihomo-android-ffi/src/dns_table.rs:142-190 | a name read from a truncation reads identically from the whole |
| `DnsResponse.ParseDnsQueryName` | core/src/main/rust/mihomo-android-ffi/src/dns_table.rs:60-66 | the first name of any message long enough for a header |
| `DnsResponse.ParseDnsResponseRecords` | core/src/main/rust/mihomo-android-ffi/src/dns_table.rs:68-140 | the offset-driven loops compute the specification on every byte string |
| `DnsResponse.SkipFurtherQuestions` | core/src/main/rust/mihomo-android-ffi/src/dns_table.rs:82-88 | the question loop |
| `DnsResponse.CollectAnswers` | core/src/main/rust/mihomo-android-ffi/src/dns_table.rs:90-139 | the answer loop |
| `DnsResponse.ReadAnswer` | core/src/main/rust/mihomo-android-ffi/src/dns_table.rs:94-136 | one record: kept, skipped, or the end of the list |
| `DnsResponse.ParseMeetsGrammar` | core/src/main/rust/mihomo-android-ffi/src/dns_table.rs:68-140 | any message with a question, compressed in any way within 32 pointers, gives exactly its 4-byte A and 16-byte AAAA records, in order, with their TTLs and the first question's name |
| `DnsResponse.RecordContributes` | core/src/main/rust/mihomo-android-ffi/src/dns_table.rs:117-134 | each record, wherever it stands, contributes its four bytes if of type 1, its sixteen if of type 28, with its TTL and the name of the question, and nothing otherwise |
| `DnsResponse.NoQuestionLosesRecord` | core/src/main/rust/mihomo-android-ffi/src/dns_table.rs:77-115 | a response that counts no question and whose one answer, under any owner and TTL, has at most four data bytes, so any single A record, parses to nothing |
| `DnsResponse.NoQuestionLosesAddress` | core/src/main/rust/mihomo-android-ffi/src/dns_table.rs:77-136 | a single address record, A or AAAA, of a response that counts no question is always lost: nothing returned has its address |
| `DnsResponse.AddressComesThroughIff` | core/src/main/rust/mihomo-android-ffi/src/dns_table.rs:68-140 | among messages with one answer, an address record, the address comes through if and only if the message counts a question |
| `DnsResponse.NoQuestionReadsShifted` | core/src/main/rust/mihomo-android-ffi/src/dns_table.rs:77-136 | what the parser makes of such a response: the record that its own bytes spell when read one name and four bytes too late |
| `DnsResponse.NoQuestionInventsAddress` | core/src/main/rust/mihomo-android-ffi/src/dns_table.rs:77-123 | such bytes exist: one AAAA record, read as the A record 1.2.3.4 |
| `DnsResponse.ParseTruncated` | core/src/main/rust/mihomo-android-ffi/src/dns_table.rs:68-140 | the records of a truncation are a prefix of the records of the whole |
| `DnsEncode.NameReadsBack` | core/src/main/rust/mihomo-android-ffi/src/dns_table.rs:142-190 | any name with labels of 1 to 191 bytes, written without pointers anywhere in a message, is read back with its end |
| `DnsEncode.EncodedParses` | core/src/main/rust/mihomo-android-ffi/src/dns_table.rs:68-140 | any such message with a question, written out with any id and flags, parses back to exactly its address records |
| `DnsEncode.PointerReads` | core/src/main/rust/mihomo-android-ffi/src/dns_table.rs:162-177 | where the bytes 0xC0 + off / 256, off % 256 stand, the name at off is read, up to 31 pointers further, with its end right behind the two bytes |
| `DnsEncode.SelfPointerRefused` | core/src/main/rust/mihomo-android-ffi/src/dns_table.rs:162-167 | a pointer to itself is refused |
| `DnsEncode.CompressedParses` | core/src/main/rust/mihomo-android-ffi/src/dns_table.rs:68-140 | a response whose answers all point back to the question at offset 12, with the bytes 0xC0 0x0C, parses to exactly its address records |
| `DnsTable.Table.constructor` | core/src/main/rust/mihomo-android-ffi/src/dns_table.rs:19-20 | an empty table owes no answer |
| `DnsTable.Table.Insert` | core/src/main/rust/mihomo-android-ffi/src/dns_table.rs:27-42 | the table stays a refinement of the insert history, and one larger than 4096 after an insert holds only unexpired entries |
| `DnsTable.Table.Sweep` | core/src/main/rust/mihomo-android-ffi/src/dns_table.rs:38-41 | eviction removes nothing that a lookup could still answer |
| `DnsTable.Table.Lookup` | core/src/main/rust/mihomo-android-ffi/src/dns_table.rs:45-54 | answers the latest insert for the address while its TTL, clamped to 60..3600 s, lasts, and None otherwise, whatever was evicted or lazily removed |
| `DnsTable.AnsweredMeans` | core/src/main/rust/mihomo-android-ffi/src/dns_table.rs:22-54 | in the inserts themselves: a lookup owes the name of the last insert for the address, for the TTL it came with but at least 60 and at most 3600 seconds, to the nanosecond |
| `DnsTable.NothingInsertedNothingAnswered` | core/src/main/rust/mihomo-android-ffi/src/dns_table.rs:45-54 | an address never inserted has no answer |
| `DnsTable.FillFromResponse` | core/src/main/rust/mihomo-android-ffi/src/tun2socks.rs:437-440 | every record of a response is inserted, in order |
| `DnsTable.ResponseHost` | core/src/main/rust/mihomo-android-ffi/src/dns_table.rs:77-131 | all answers carry the name of the first question |
| `DnsTable.LatestInFill` | core/src/main/rust/mihomo-android-ffi/src/dns_table.rs:27-42 | an address in the response is answered by an insert of the response |
| `DnsTable.AnswerStaysUsable` | core/src/main/rust/mihomo-android-ffi/src/dns_table.rs:27-54 | for 60 s after a response, each of its addresses answers the first question's name unless something newer was inserted |
| `Socks5.ChooseTarget` | core/src/main/rust/mihomo-android-ffi/src/tun2socks.rs:242-245 | the target is the hostname the history owes, or the address |
| `Socks5.RequestDecodesIff` | core/src/main/rust/mihomo-android-ffi/src/tun2socks.rs:293-319 | a parser of section 4 of RFC 1928 decodes the request to the target exactly when a domain has at most 255 bytes |
| `Socks5.TargetReachesProxy` | core/src/main/rust/mihomo-android-ffi/src/tun2socks.rs:242-245 | what the proxy decodes: the address and port of the stream if the table has no name for it, else the name and port if the name has at most 255 bytes |
| `Socks5.RequestsOnTheWire` | core/src/main/rust/mihomo-android-ffi/src/tun2socks.rs:293-319 | the request bytes for 1.2.3.4:443, for a.b:80 and for any IPv6 address |
| `Socks5.AnswerReachesProxy` | core/src/main/rust/mihomo-android-ffi/src/tun2socks.rs:242-245 | from DNS answer to proxy: a stream to an address of a response less than 60 s old asks for the first question's name and the stream's port, exactly if the name has at most 255 bytes |
| `Socks5.LongNameReachesNoProxy` | core/src/main/rust/mihomo-android-ffi/src/tun2socks.rs:311-318 | the failing half is reachable: after a response to a question of two 150-byte labels, every stream to its address sends a request that cannot be decoded |
| `Socks5.Connect` | core/src/main/rust/mihomo-android-ffi/src/tun2socks.rs:283-347 | unless the connection breaks, the outcome is the verdict on the proxy's bytes, success has sent greeting and request, and just the verdict's bytes were read |
| `Socks5.ReadBoundAddress` | core/src/main/rust/mihomo-android-ffi/src/tun2socks.rs:329-345 | the rest of the reply by address type |
| `Socks5.ReplyConsumedExactly` | core/src/main/rust/mihomo-android-ffi/src/tun2socks.rs:321-346 | for address types 1, 3 and 4 success leaves the stream exactly behind the reply of section 6 of RFC 1928 |
| `Socks5.ReplyUnderstood` | core/src/main/rust/mihomo-android-ffi/src/tun2socks.rs:321-346 | against an encoder of section 6 of RFC 1928: whatever follows it, a reply that grants the request, with any bound address, connects and is consumed to its last byte and no further; any other code is a refusal with that code |
| `Socks5.OtherVerdicts` | core/src/main/rust/mihomo-android-ffi/src/tun2socks.rs:287-345 | a proxy that wants authentication is reported as that; a granting reply cut short anywhere is an I/O error |
| `Socks5.OddReplies` | core/src/main/rust/mihomo-android-ffi/src/tun2socks.rs:288-345 | replies outside the standard: another version, and an unknown address type, which counts as success and is read no further |
| `Packet.IpChecksum` | core/src/main/rust/mihomo-android-ffi/src/tun2socks.rs:406-419 | the complement of the one's-complement sum, with the u32 accumulator written out; exact for up to 65537 words |
| `Packet.AddWords` | core/src/main/rust/mihomo-android-ffi/src/tun2socks.rs:407-414 | the summing loop, an odd last byte included |
| `Packet.Fold` | core/src/main/rust/mihomo-android-ffi/src/tun2socks.rs:415-417 | the fold loop terminates and keeps the sum modulo 65535, with 0 only for 0 |
| `Packet.FoldStep` | core/src/main/rust/mihomo-android-ffi/src/tun2socks.rs:415-417 | one fold makes the sum smaller and keeps it modulo 65535 |
| `Packet.WordSumBound` | core/src/main/rust/mihomo-android-ffi/src/tun2socks.rs:407-414 | the accumulator bound |
| `Packet.ChecksumVerifies` | core/src/main/rust/mihomo-android-ffi/src/tun2socks.rs:397-398 | the checksum put into a zeroed aligned field makes any header sum to 0 (section 3.1 of RFC 791) |
| `Packet.ChangeDetectedIff` | core/src/main/rust/mihomo-android-ffi/src/tun2socks.rs:406-419 | changing one word of such a header goes unnoticed if and only if the words agree modulo 65535 and the header is not all zero |
| `Packet.ParseUdpPacket` | core/src/main/rust/mihomo-android-ffi/src/tun2socks.rs:353-378 | total on every byte string; the payload is a slice of the packet behind both headers |
| `Packet.ParsesIffCarries` | core/src/main/rust/mihomo-android-ffi/src/tun2socks.rs:353-378 | some datagram is returned exactly when the bytes are an IPv4 header of version 4, protocol 17 and whatever header length its first byte names, a UDP header behind that length with a length of at least 8, and its payload, cut to the packet; then it is the datagram with those addresses, ports and bytes |
| `Packet.OtherProtocolRefused` | core/src/main/rust/mihomo-android-ffi/src/tun2socks.rs:353-362 | TCP and every other protocol is left alone, as is any other IP version |
| `Packet.BuildUdpPacket` | core/src/main/rust/mihomo-android-ffi/src/tun2socks.rs:380-404 | the buffer filled slice by slice is the packet |
| `Packet.PutIpHeader` | core/src/main/rust/mihomo-android-ffi/src/tun2socks.rs:387-396 | the IPv4 header fields |
| `Packet.PutChecksum` | core/src/main/rust/mihomo-android-ffi/src/tun2socks.rs:397-398 | the checksum goes into its field |
| `Packet.PutUdpHeader` | core/src/main/rust/mihomo-android-ffi/src/tun2socks.rs:399-401 | the UDP header fields |
| `Packet.CheckedHeader` | core/src/main/rust/mihomo-android-ffi/src/tun2socks.rs:387-398 | the header of every packet built sums to 0 |
| `Packet.Layout` | core/src/main/rust/mihomo-android-ffi/src/tun2socks.rs:380-404 | a built packet is that header, the UDP header and the payload, each where the parser looks |
| `Packet.BuiltConstants` | core/src/main/rust/mihomo-android-ffi/src/tun2socks.rs:387-403 | the constant bytes of a built packet: version, no options, no fragment, TTL 64, protocol 17, no UDP checksum |
| `Packet.TotalLengthIff` | core/src/main/rust/mihomo-android-ffi/src/tun2socks.rs:387-391 | the total length field is right exactly up to 65507 payload bytes |
| `Packet.RoundTripIff` | core/src/main/rust/mihomo-android-ffi/src/tun2socks.rs:353-404 | building and parsing is the identity on all five values exactly up to 65527 payload bytes, in either host byte order |
| `Engine.Native.StartEngine` | core/src/main/go/mihomo-core/engine.go:52-77 | refused while running; otherwise hook, then configuration, then running, the hook staying in after a bad configuration |
| `Engine.Native.StopEngine` | core/src/main/go/mihomo-core/exports.go:53-57 | stops a running engine and clears the hook in any case |
| `Engine.Native.StartTun2Socks` | core/src/main/rust/mihomo-android-ffi/src/tun2socks.rs:27-52 | refused while the flag is set |
| `Engine.Native.StopTun2Socks` | core/src/main/rust/mihomo-android-ffi/src/tun2socks.rs:53-55 | clears the flag |
| `Engine.OrderedIsSafe` | core/src/main/java/io/github/madeye/meow/bg/MihomoInstance.kt:43-49 | a trace that follows the designed order is safe at every earlier moment |
| `Lifecycle.VpnService.constructor` | core/src/main/java/io/github/madeye/meow/bg/BaseService.kt:31-37 | the service starts Stopped with nothing held |
| `Lifecycle.VpnService.Dispatch` | core/src/main/java/io/github/madeye/meow/bg/BaseService.kt:134-218 | every event runs the code that waits for it; the state is the step function's and the invariant is kept |
| `Lifecycle.VpnService.OnStartCommand` | core/src/main/java/io/github/madeye/meow/bg/BaseService.kt:180-185 | only from Stopped; launches the connecting coroutine |
| `Lifecycle.VpnService.ProfileArrives` | core/src/main/java/io/github/madeye/meow/bg/BaseService.kt:186-216 | profile or none, every failure, and the finally clause that the early return skips |
| `Lifecycle.VpnService.PreInit` | core/src/main/java/io/github/madeye/meow/bg/VpnService.kt:67-70 | consent, then the network listener |
| `Lifecycle.VpnService.StartProcesses` | core/src/main/java/io/github/madeye/meow/bg/VpnService.kt:72-84 | TUN, engine, tun2socks, in this order |
| `Lifecycle.VpnService.StartVpn` | core/src/main/java/io/github/madeye/meow/bg/VpnService.kt:129-133 | sets active before establish, conn after it |
| `Lifecycle.VpnService.StartInstance` | core/src/main/java/io/github/madeye/meow/bg/MihomoInstance.kt:18-54 | the protect reference before the engine |
| `Lifecycle.VpnService.StopRunner` | core/src/main/java/io/github/madeye/meow/bg/BaseService.kt:157-161 | once only; joins a running connecting job, passes a finished one |
| `Lifecycle.VpnService.RunScope` | core/src/main/java/io/github/madeye/meow/bg/BaseService.kt:163-172 | the body of the stopping scope |
| `Lifecycle.VpnService.KillProcesses` | core/src/main/java/io/github/madeye/meow/bg/VpnService.kt:56-62 | instance, then descriptor |
| `Lifecycle.VpnService.StopInstance` | core/src/main/java/io/github/madeye/meow/bg/MihomoInstance.kt:64-72 | forwarder, engine and hook, protect reference |
| `Lifecycle.VpnService.StopListener` | core/src/main/java/io/github/madeye/meow/bg/VpnService.kt:59 | the child that drops the network callback |
| `Lifecycle.VpnService.Finish` | core/src/main/java/io/github/madeye/meow/bg/BaseService.kt:173-174 | Stopped, then a restart or the end |
| `Lifecycle.VpnService.ForceLoad` | core/src/main/java/io/github/madeye/meow/bg/BaseService.kt:134-141 | reload from Stopped, from a state that can stop, and from neither |
| `Lifecycle.BootOrdered` | core/src/main/java/io/github/madeye/meow/bg/VpnService.kt:72-84 | however far a start gets, it acquires in the designed order |
| `Lifecycle.KillReleases` | core/src/main/java/io/github/madeye/meow/bg/VpnService.kt:56-62 | whatever a start left held is released, in the designed order |
| `Lifecycle.StepKeepsInv` | core/src/main/java/io/github/madeye/meow/bg/BaseService.kt:157-218 | every step keeps the invariant |
| `Lifecycle.StateMeaning` | core/src/main/java/io/github/madeye/meow/bg/BaseService.kt:157-218 | in every run: Stopped and Connecting hold nothing (instance, receiver, notification, descriptor, callback, engine, hook, protect reference); Connected holds all of them with the engine running; a live start exists exactly in Connecting, a live stop exactly in Stopping |
| `Lifecycle.ProtectedThroughout` | core/src/main/java/io/github/madeye/meow/bg/MihomoInstance.kt:43-49 | at every moment of every run, inside a start too: the engine never runs or parses its configuration without descriptor, protect reference and hook; nothing is acquired twice |
| `Lifecycle.EveryStepIsAnEdge` | core/src/main/java/io/github/madeye/meow/bg/BaseService.kt:49-53 | Connected only from Connecting, Connecting only from Stopped, Stopping left only for Stopped, Idle never |
| `Lifecycle.ForwarderRunsIff` | core/src/main/rust/mihomo-android-ffi/src/tun2socks.rs:42-48 | over every run: in Connected the forwarder runs if and only if its task has not ended since the service was last Connecting |
| `Lifecycle.ConnectedWithoutForwarder` | core/src/main/rust/mihomo-android-ffi/src/tun2socks.rs:42-48 | the failing case, from any Connected state: the task ends on its own and the service stays Connected and serving |
| `Lifecycle.StoppingStep` | core/src/main/java/io/github/madeye/meow/bg/BaseService.kt:158-175 | each event a stop waits for brings it one step nearer; no other event delays or redirects it |
| `Lifecycle.EveryStopEnds` | core/src/main/java/io/github/madeye/meow/bg/BaseService.kt:157-176 | every stop of every run ends after at most four awaited events, with everything released and exactly the one request it was asked for |
| `Lifecycle.StopEndsAsAsked` | core/src/main/java/io/github/madeye/meow/bg/BaseService.kt:134-176 | over every run, from events to requests alone: a stop asked for outside Stopping, and a reload in Connecting or Connected, end after the awaited events in Stopped with everything released and one more request, StartService for a reload or a stop with restart and StopSelf otherwise, whatever comes in between |
| `Lifecycle.FailedStartEndsService` | core/src/main/java/io/github/madeye/meow/bg/BaseService.kt:186-215 | a start that finds no profile, or fails at any point, ends in Stopped with everything released and StopSelf |
| `Lifecycle.ReloadStartsStopped` | core/src/main/java/io/github/madeye/meow/bg/BaseService.kt:134-138 | a reload in Stopped adds StartService and changes nothing else |
| `Lifecycle.StartReachesConnected` | core/src/main/java/io/github/madeye/meow/bg/BaseService.kt:180-208 | progress: from every reachable Stopped state, the start command and a boot that goes well reach Connected, serving, with the forwarder up |
| `Lifecycle.ReloadReconnects` | core/src/main/java/io/github/madeye/meow/bg/BaseService.kt:134-176 | a reload of a connected service goes down to nothing, asks for a start, and that start connects it again |
| `SelectionReplay.WalkIsSound` | flutter_module/lib/services/vpn_channel.dart:164-174 | a positive walk has a number of first-member steps to a bypass |
| `SelectionReplay.WalkIsComplete` | flutter_module/lib/services/vpn_channel.dart:164-174 | the cycle guard never hides a bypass |
| `SelectionReplay.WalkDecidesBypass` | flutter_module/lib/services/vpn_channel.dart:162-174 | on every group graph: true if and only if following first members reaches DIRECT or REJECT |
| `SelectionReplay.GroupsByName` | flutter_module/lib/services/vpn_channel.dart:144-146 | the loop builds that map |
| `SelectionReplay.MembersMean` | flutter_module/lib/services/vpn_channel.dart:144-146 | the map holds exactly the names of the groups, of whatever kind, each with the members of the last group of that name |
| `SelectionReplay.ReplaySelectionsOnConnect` | flutter_module/lib/services/vpn_channel.dart:138-160 | the calls, in group order: one per Selector whose saved node is a member and whose first member reaches no bypass, and no other, even if calls fail |
| `SelectionReplay.OwedOnce` | flutter_module/lib/services/vpn_channel.dart:147-159 | counted call for call, they match the eligible groups one to one |
| `SelectionReplay.OwedInOrder` | flutter_module/lib/services/vpn_channel.dart:147-159 | the calls come in the order of the groups |
| `SelectionReplay.DistinctOnce` | flutter_module/lib/services/vpn_channel.dart:144-159 | over the groups themselves, with distinct names: each Selector whose saved node is a member, and whose first members taken again and again never arrive at DIRECT or REJECT, is called for exactly once with that node, and no other call is made |

## Left out

* `ReadBuf` with its uninitialised space: a read poll is given the room left and returns the bytes added, which the caller appends in order.
* The debug-build panic on an overflowing `u16` sum in `build_client_hello` and on an overflowing `u32` in `ip_checksum`: the sums wrap, as in a release build.
* `HttpObfs` after `InvalidData`: the error is terminal, and the reader is not modelled past it.
* One poll method of the source is several methods here (`PollRead` with `PollDiscard`, `PollLength`, `PollPayload`, and so on); nothing is reordered by the split.
* Base64 of the random key: any bytes without CR.
* `std::str::from_utf8` and the bytes it accepts.
- DnsTable.Table.Insert: the table belongs to one caller; the lock that serialises tasks is not modelled, and the clock does not run backwards, as `Instant` promises.
- Packet.ParseUdpPacket: the slice that the source returns by reference is a copy.
* The rest of `tun2socks.rs`: TUN reads and writes, the smoltcp stack, task plumbing, the UDP relay, and whether an earlier forwarding task has ended when a new one starts (its flag may drop at any time in the model).
* `doh_client.rs`, `v2ray_plugin.rs` and the upstream engine: network clients over libraries that are not part of this model.
* JNI mechanics and their failures: native calls are atomic steps; `nativeSetProtect` always takes or drops the reference.
* Two coroutine schedules of one outcome: where the dispatcher may run the listener's child, or the join of a job that is just ending, either in place or queued, the model takes the queued one.
* Exceptions outside the source's own `try` (loading the profile in `Core.currentProfile()`, creating the notification, registering the receiver, closing the descriptor), `onDestroy` cancelling the service's scope, and calls from other threads than the main thread.
* State broadcasts over AIDL, traffic polling, notifications' contents, per-app routing, the metered flag and the underlying network.
* The rewriting of the YAML configuration and the seeding of Geo files in `MihomoInstance.start`: one outcome stands for any exception before the protect reference is set.
* `lastError` strings and log lines.
* The proxy list behind `replaySelectionsOnConnect` and the persisted selections: both are arguments.
* Room persistence, the Flutter screens, method-channel dispatch, REST wrappers and build scripts.
