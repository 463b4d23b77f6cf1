# Verified models of the proxy core

A Dafny model of the parts of the Go core whose correctness depends on more than one function: the
Vision padding protocol, the mux connection, the AEAD chunk stream, the DNS cache with its background
migration, the bucketed IP matchers, the parallel DNS query, and the small state machines for
replay filtering, LRU caching and installing downloaded geodata files.

`dafny verify dfyconfig.toml` checks everything. Each Go file that changes state step by step is
modelled by classes and methods with loops; every such method is tied to a function or a predicate, and
the theorems are about those.

## What is proved

**Vision** (`Vision*.dfy`). `VisionUnpadding.Run` unwraps a stream byte by byte. `XtlsUnpadding`, which
works on whole buffers and stops anywhere, refines it, so the cut into buffers cannot matter. For every
list of blocks, every raw tail and every cut, unpadding gives back the contents and the tail if and
only if no buffer of the raw tail opens with the user's UUID. The reader's decision to leave padding mode ignores
a header that has only partly arrived; the offsets at which it then decides too early are characterised
exactly, and away from them the reader leaves padding, and goes direct, at the very byte where the
writer did. Padding length is computed in 32 bits; the seeds for which it can become negative are
characterised exactly. A call of the writer ends padding exactly when its data are whole TLS records or the
filter gives up. The filter enables XTLS when a TLS 1.3 server hello with a strong cipher comes, for every length of its
fields and every cut, and only for the extension in the part of a buffer that a server hello covers.

**Mux** (`SessionManager`, `Address`, `Frame`, `MuxReader`, `ChunkStream`, `MuxWriter`, `MuxServer`,
`MuxDemux`). Addresses and frames are read back exactly when they are canonical and within the length
limit. One handled frame consumes exactly its own bytes, whatever it is and however the link cuts the
stream. A run over any interleaving of whole frames refines an ideal demultiplexer, and a session's
place in that depends only on its own frames: its pipe holds a prefix of its writer's bytes, and all of
them while it is live. Exactly the frames that carry data for a session that is not there are answered, each
with an End frame. Session IDs are never reused exactly when the connection limit, cut to 16 bits, is not zero.

**AEAD chunk stream** (`AuthStream`, `AuthWriter`, `AuthReader`). For every cipher that opens what it sealed and
every masking of the sizes, the reader returns what was written up to the first empty write, however much
was buffered at each of its soft reads, and from a stream that breaks off the whole chunks before the
break. Packets keep the two generators in step exactly if none is too large for the padding of its turn.

**DNS cache** (`DnsCache`). Two maps, a migrator working in batches and concurrent updates refine one
map from domains to records, for every interleaving of the locked sections. A cleanup drops exactly the
answers that expired longer ago than stale answers are to be served.

**IP matchers** (`IpMatcher`, `IpMultiMatcher`, `IpMultiFilter`). Membership is constant on a bucket, so
every bucketed query equals the pointwise one. Filtering by several matchers can put an IP in both
results; exactly when is proved.

**DNS query** (`DnsQuery`), **replay filter**, **LRU**, **file swap** and **MultiBuffer**: see the table.

## Where the code falls short of what one would expect

- The Vision reader may go direct in the middle of a block header (`VisionReader.EarlyDirectExample`).
- Padding length can be negative for some seeds, and buffer extension then panics (`VisionPadding.SeedExamples`).
- Filtering by a matcher with only IPv4 rules and one with only IPv6 rules lists a matching IPv4 address
  as unmatched too, because the unused family of a matcher counts as not bucketed (`IpMultiFilter.OverlapExample`).
- Serving stale answers for more than 2^31 seconds is stored as a negative time, and answers are then dropped before they
  expire (`DnsCache.GraceIsTtlExactly`).
- A lookup during migration can miss a family that is cached (`DnsCache.PartialRecordReached`).
- When all clients fail, serial and parallel query can report different errors, because only the parallel one counts
  a disabled FakeDNS client as an empty response (`DnsQuery.SkippedClientExample`).
- A packet that is too large is dropped after it has drawn a padding; the writer is then out of step and the reader
  can fail on the next packet (`AuthReader.DroppedPacketExample`).
- A chunk stream that breaks off right behind a size is reported as a clean end (`AuthReader.CutUnseenExactly`).
- The LRU's value index is not the inverse of the key index once a live key gets a new value or two keys
  share one (`LruCache.PutInverseExactly`).
- Compacting a list with an empty buffer behind the first panics (`MultiBuffer.Compact`).
- A 256-byte domain passes the length check and is written with length byte 0 (`Addresses.AddressPortRoundTrip`).
- Metadata with long domains as source and local is written but refused by every reader (`Frames.LongNamesRefused`).
- Only a target that vanishes between download and swap, and is itself named like a backup, could be removed by commit
  (`FileSwap.VanishedTargetExample`); targets that are there when swapping begins never are.
- A server that is sent New twice with one live ID loses the first session, and the second when the first closes
  (`Sessions.IsolatesExactly`). Without a connection limit, as the reverse portal runs it, a client's own allocation does
  that to a session that outlives 65535 others (`Sessions.AllocatesUnusedExactly`).
- With a connection limit that is a multiple of 65536, session IDs wrap (`Sessions.NeverReusesExactly`),
  and the check before allocation reads 32 bits of the limit while the allocator reads 16 (`Sessions.FullMatchesRefusal`).

## Model

| member | source | states |
|---|---|---|
| VisionUnpadding.RunConcat | xray-go/proxy/proxy.go:560-612 | unwrapping can stop and resume at any byte |
| VisionUnpadding.RunContent | xray-go/proxy/proxy.go:580-590 | taking n content bytes at once equals taking them one by one |
| VisionUnpadding.RunPadding | xray-go/proxy/proxy.go:591-598 | skipping n padding bytes at once equals skipping them one by one |
| VisionUnpadding.Link.ReadHeader | xray-go/proxy/proxy.go:561-579 | one of the five header bytes is folded into command, content length or padding length |
| VisionUnpadding.Link.FinishBlock | xray-go/proxy/proxy.go:599-611 | a finished Continue block awaits the next header; End and Direct return to the initial state |
| VisionUnpadding.Link.Consume | xray-go/proxy/proxy.go:560-612 | each turn of the loop consumes at least one byte and emits what the byte machine would |
| VisionUnpadding.Link.XtlsUnpadding | xray-go/proxy/proxy.go:535-616 | one call on a buffer of any size equals the byte machine, starting it on an opening UUID, and its output fits a buffer |
| VisionRoundTrip.RunBlock | xray-go/proxy/proxy.go:496-532 | a padded block unwraps to its content, whatever follows |
| VisionRoundTrip.RunBlocks | xray-go/proxy/proxy.go:535-616 | a terminated list of blocks and a raw tail unwrap to contents and tail, ending in the initial state |
| VisionRoundTrip.InitialExactly | xray-go/proxy/proxy.go:599-611 | the state is initial exactly from the end of the last block on |
| VisionRoundTrip.CutIndependence | xray-go/proxy/proxy.go:551-558 | any cut into buffers gives the same output unless a buffer met in the initial state opens with the UUID; then bytes are lost |
| VisionRoundTrip.UnpaddingInvertsPadding | xray-go/proxy/proxy.go:496-616 | for every block list, tail and cut whose first buffer has 21 bytes: contents and tail come back if and only if no raw buffer opens with the UUID |
| VisionFilter.FilterKeepsCoherent | xray-go/proxy/proxy.go:619-670 | XTLS enabled implies TLS 1.2 or above implies TLS, in every run; learned flags stay; the packet budget never grows |
| VisionFilter.EnablingNeedsTls13 | xray-go/proxy/proxy.go:624-665 | XTLS is enabled only by the TLS 1.3 extension within the part of a buffer that a server hello covers, with a strong cipher, and after a server hello |
| VisionFilter.Tls13Enables | xray-go/proxy/proxy.go:619-665 | the converse: a server hello with a strong cipher, cut into buffers in any way, whose extension lies in the record, enables XTLS, marks TLS and TLS 1.2 and stops the filter |
| VisionFilter.HelloExactly | xray-go/proxy/proxy.go:627-665 | from a server hello built from its fields the filter learns exactly its cipher, for every length of the session id, and whether it selects TLS 1.3; says exactly when the filter stops |
| VisionFilter.TlsExactly | xray-go/proxy/proxy.go:625-645 | a buffer makes the connection TLS exactly if it begins a client or server hello, and TLS 1.2 exactly if a server hello |
| VisionFilter.TrafficState.XtlsFilterTls | xray-go/proxy/proxy.go:619-670 | the flags after a call are the fold of the per-packet rule |
| VisionReader.VisionReader.ReadMultiBuffer | xray-go/proxy/proxy.go:203-284 | one read is unpadding, decision, filtering of what came out, which keeps the shared flags coherent, and, on going direct, the drained TLS buffers exactly once |
| VisionReader.ReadStepExact | xray-go/proxy/proxy.go:235-253 | a read delivers what the byte machine does, and its decision is right exactly when it is not premature |
| VisionReader.PrematureExactly | xray-go/proxy/proxy.go:244-253 | the decision is premature exactly at offsets inside the header of an End or Direct block before a nonzero length byte |
| VisionReader.ReaderRun | xray-go/proxy/proxy.go:203-284 | over any part of a run the reader tracks the stream exactly when no read ends prematurely; bytes are lost exactly if a buffer that is unpadded opens with the UUID past the padding |
| VisionReader.ReaderSoFar | xray-go/proxy/proxy.go:203-284 | of a stream that has arrived in part the reader has delivered what the byte machine makes of that part, a prefix of contents and tail |
| VisionReader.ReaderFollowsWriter | xray-go/proxy/proxy.go:235-253 | the reader leaves padding and goes direct at the writer's offset if and only if no read ends at an ambiguous offset; then it delivers contents and tail if and only if no buffer that it still unpads opens with the UUID again |
| VisionReader.EarlyDirectExample | xray-go/proxy/proxy.go:244-253 | a read that ends after the command byte of a Direct header goes direct too early |
| VisionPadding.GrammarIsScan | xray-go/proxy/proxy.go:407-458 | scanning headers and lengths accepts exactly the concatenations of nonempty application-data records |
| VisionPadding.IsCompleteRecord | xray-go/proxy/proxy.go:407-458 | true exactly if the bytes, however cut, are zero or more complete application-data records |
| VisionPadding.ReshapeMultiBuffer | xray-go/proxy/proxy.go:461-493 | the pieces of each buffer, in order: same bytes, every buffer at most 8192-21, small buffers untouched |
| VisionPadding.CutsAtLastHeader | xray-go/proxy/proxy.go:475-478 | a large buffer is cut before its last application-data header if that lies between 21 and 8171, else in the middle |
| VisionPadding.CutsInTheMiddle | xray-go/proxy/proxy.go:475-478 | a large buffer without such a header is cut in the middle |
| VisionPadding.WholeRecordsStart | xray-go/proxy/proxy.go:360-364 | whole records show themselves in the first reshaped buffer unless the first buffer has less than six bytes |
| VisionPadding.PaddingNeverNegative | xray-go/proxy/proxy.go:496-517 | the padding length is never negative exactly for good seeds, in 32-bit arithmetic |
| VisionPadding.PaddingFits | xray-go/proxy/proxy.go:502-529 | with a good seed UUID, header, content and padding fit one buffer |
| VisionPadding.PaddingConceals | xray-go/proxy/proxy.go:502-517 | a long padding fills up a short content to the long base, or all that fits; otherwise the padding stays below the bounds of the random draw |
| VisionPadding.SeedExamples | xray-go/proxy/proxy.go:502-517 | the default seed is good; two seeds that are not |
| VisionPadding.XtlsPadding | xray-go/proxy/proxy.go:496-532 | the buffer is the UUID once and a block with the given command and content and the drawn padding; nothing is truncated; a short content is concealed if long padding is asked for |
| VisionPadding.BlockLayout | xray-go/proxy/proxy.go:523-529 | a block on the wire: command 0, 1 or 2, two lengths of two bytes, content, padding |
| VisionWriter.VisionWriter.WriteMultiBuffer | xray-go/proxy/proxy.go:322-404 | content is added to the plain stream in order; at most one terminating block, the last; padding ends exactly at the first buffers that are whole TLS records and begin one, or when the filter gives up, and never at a single nil; direct copy is set exactly in the first case with XTLS enabled; the filter has seen the buffers; block lengths of a TLS handshake are concealed |
| VisionWriter.VisionWriter.PadBuffers | xray-go/proxy/proxy.go:360-393 | the blocks and the commands chosen for one call, and what stays unpadded |
| VisionWriter.PaddedCall | xray-go/proxy/proxy.go:356-394 | a padded call keeps the stream's shape: UUID once, Continue blocks, at most one terminator, raw bytes |
| VisionWriter.RawCall | xray-go/proxy/proxy.go:395-397 | a call after padding appends its bytes unchanged |
| VisionWriter.VisionEndToEnd | xray-go/proxy/proxy.go:203-404 | a reader delivers what the writer was given, and both switch at the same offset, if and only if no buffer that it still unpads opens with the UUID again |
| VisionReader.HandoverIsARead | xray-go/proxy/proxy.go:259-283 | the drained buffers followed by raw reads continue the stream exactly once |
| VisionWriter.VisionHandover | xray-go/proxy/proxy.go:203-404 | the same end to end when the outer connection had read ahead, whatever bytes it held |
| VisionWriter.PaddingSoFar | xray-go/proxy/proxy.go:203-404 | while the writer still pads the reader has delivered a prefix, all of it at a block boundary, and everything if everything has arrived |
| VisionWriter.TerminatedSoFar | xray-go/proxy/proxy.go:203-404 | the same after padding, when only part of the stream has arrived |
| VisionWriter.ReadBetweenWrites | xray-go/proxy/proxy.go:203-404 | a read by the other direction leaves the writer ready for its next call |
| Buf.Buffer.Write | xray-go/common/buf/buffer.go:266-274 | appends the prefix that fits and reports its length |
| Buf.Buffer.Extend | xray-go/common/buf/buffer.go:148-157 | appends zero bytes |
| Buf.Buffer.ReadFull | xray-go/common/buf/buffer.go:313-324 | takes exactly n bytes from the front, or fails and takes all |
| Buf.Buffer.Advance | xray-go/common/buf/buffer.go:223-229 | drops bytes from the front |
| MultiBuffer.SplitBytes | xray-go/common/buf/multi_buffer.go:100-123 | min(n, total) bytes from the front; front and rest are the whole |
| MultiBuffer.SplitSize | xray-go/common/buf/multi_buffer.go:173-204 | at most size bytes from the front; front and rest are the whole; always progresses |
| MultiBuffer.MergeBytes | xray-go/common/buf/multi_buffer.go:39-54 | the content is extended by exactly the given bytes |
| MultiBuffer.Compact | xray-go/common/buf/multi_buffer.go:137-158 | panics exactly if a buffer behind the first is empty; otherwise keeps the content |
| MuxReader.BufferedReader.Read | xray-go/common/buf/reader.go:61-86 | bytes come in order from what is pending, buffered first, under any pieces from the link |
| MuxReader.BufferedReader.ReadFull | xray-go/common/serial/serial.go:9-15 | exactly the next n pending bytes, or an error exactly when fewer are left |
| MuxReader.BufferedReader.ReadAtMost | xray-go/common/buf/reader.go:100-115 | at most size of the next pending bytes, with progress |
| MuxReader.DecodeTake | xray-go/common/crypto/chunk.go:102-126 | a chunk may be taken in parts |
| MuxReader.ChunkStreamReader.ReadMultiBuffer | xray-go/common/crypto/chunk.go:102-126 | each call returns the next part of what the chunk stream means, or its end, or its error |
| MuxReader.Copy | xray-go/common/buf/copy.go:91-121 | copies everything the chunks hold unless the output breaks, which leaves the reader where its stream goes on |
| MuxReader.WholeChunk | xray-go/common/mux/reader.go:57-59 | a one-chunk reader takes exactly a whole chunk |
| MuxReader.CopyStream | xray-go/common/mux/server.go:316-323 | copying, and discarding after a failed write, together consume exactly one chunk |
| MuxReader.PacketReader.ReadMultiBuffer | xray-go/common/mux/reader.go:30-54 | one packet of at most 8192 bytes, whole, then EOF |
| MuxReader.WholePacket | xray-go/common/mux/reader.go:30-54 | a packet reader takes exactly a whole packet |
| ChunkStream.WriteMultiBuffer | xray-go/common/crypto/chunk.go:140-160 | chunks of at most 8192 bytes with the same content; a zero chunk exactly for an empty write |
| ChunkStream.ChunkStreamRoundTrip | xray-go/common/crypto/chunk.go:102-160 | a chunk stream reads back whole up to its first empty chunk and leaves what follows that |
| ChunkStream.UnterminatedRoundTrip | xray-go/common/crypto/chunk.go:102-160 | a stream without an empty chunk reads back whole |
| Addresses.IsValidDomain | xray-go/common/protocol/address.go:159-166 | accepts exactly letters, digits, '-', '.' and '_' |
| Addresses.ReadAddress | xray-go/common/protocol/address.go:174-226 | the code reads what the format says, including a zero length that takes the whole scratch buffer |
| Addresses.ReadAddressPort | xray-go/common/protocol/address.go:87-134 | both port orders |
| Addresses.WriteAddress | xray-go/common/protocol/address.go:228-259 | the bytes appended, and which addresses are refused |
| Addresses.WriteAddressPort | xray-go/common/protocol/address.go:105-142 | both port orders |
| Addresses.AddressPortRoundTrip | xray-go/common/protocol/address.go:83-259 | an accepted address comes back with port and untouched rest if and only if it is canonical |
| Frames.MuxSound | xray-go/common/mux/frame.go:38-43 | the mux parser reads back every family it writes |
| Frames.DestLayout | xray-go/common/mux/frame.go:33-43 | a destination on the wire: network 1 or 2, port, type byte 1, 2 or 3 for IPv4, domain or IPv6, and the address |
| Frames.WriteTo | xray-go/common/mux/frame.go:67-111 | the frame's bytes, with the length patched in; an error exactly for an address that cannot be written |
| Frames.UnmarshalFromBuffer | xray-go/common/mux/frame.go:134-222 | the code parses what the format says |
| Frames.FrameRoundTrip | xray-go/common/mux/frame.go:67-222 | ID, status, option, target, GlobalID or source and local come back, and the rest is untouched, exactly up to 512 bytes of metadata |
| Frames.FrameFits | xray-go/common/mux/frame.go:67-132 | metadata whose source and local are IPs is always under the limit |
| Frames.LongNamesRefused | xray-go/common/mux/frame.go:119-121 | long domains as source and local make a frame that is refused |
| MuxServer.Unmarshal | xray-go/common/mux/frame.go:114-130 | takes exactly the metadata from the stream, or fails |
| MuxWriter.Writer.Transmit | xray-go/common/mux/writer.go:71-87 | a frame goes out whole: metadata, length, data; exactly if its addresses can be written and the link takes it |
| MuxWriter.Writer.GetNextFrameMeta | xray-go/common/mux/writer.go:44-60 | New exactly once, Keep ever after |
| MuxWriter.Writer.WriteMultiBuffer | xray-go/common/mux/writer.go:97-119 | the bytes given are the bytes carried, in order, in frames of 1 to 8192 bytes; one frame without data for an empty write; fails only if the link is full or the session's addresses cannot be written |
| MuxWriter.Writer.WritePackets | xray-go/common/mux/writer.go:97-119 | one frame per packet with its content and address, up to the last one that is not empty |
| MuxWriter.Writer.Close | xray-go/common/mux/writer.go:122-136 | one End frame, marked if there was an error |
| MuxWriter.EndFrameLayout | xray-go/common/mux/writer.go:122-136 | an End frame on the wire, byte by byte |
| MuxWriter.StreamFrameLayout | xray-go/common/mux/writer.go:44-95 | New and Keep frames of a stream on the wire, with status, option, destination and data |
| MuxServer.ServerWorker.HandleStatusNew | xray-go/common/mux/server.go:191-298 | opens a session under the frame's ID with a pipe of its own and delivers the first data; succeeds exactly if admitted and the data is intact |
| MuxServer.ServerWorker.HandleStatusKeep | xray-go/common/mux/server.go:300-324 | delivers to the session, or discards and answers with the bytes of an End frame for an unknown one; closes the session if its pipe broke |
| MuxServer.ServerWorker.Notify | xray-go/common/mux/server.go:307-310 | one End frame for the ID goes to the link |
| MuxServer.ServerWorker.HandleStatusEnd | xray-go/common/mux/server.go:326-334 | removes the session and discards the data |
| MuxServer.ServerWorker.HandleFrame | xray-go/common/mux/server.go:336-361 | exactly the frame is consumed and exactly its effect happens; says exactly when the connection breaks |
| MuxDemux.FrameRefines | xray-go/common/mux/server.go:157-334 | every frame, with or without a broken pipe, keeps the server below the ideal demultiplexer and live sessions equal to it |
| MuxDemux.ConsumedRefines | xray-go/common/mux/server.go:336-361 | a written frame in front of any stream is consumed whole and does what the ideal demultiplexer does |
| MuxDemux.Run | xray-go/common/mux/server.go:363-384 | over every stream of whole frames, every cut and every choice of lost sessions, broken pipes and refused dispatches, the server refines the ideal demultiplexer, and equals it if nothing was lost or broke; it stops early exactly at the first New frame that is not admitted or unknown status; the link gets exactly one End frame, in order, for each Keep frame with data that met no live session |
| MuxDemux.ConsumedAnswered | xray-go/common/mux/server.go:300-361 | one turn keeps: a session is live exactly if a New frame opened it and nothing since ended, lost or broke it, and the answers are those to Keep frames with data that met none |
| MuxDemux.GentleAnswers | xray-go/common/mux/server.go:300-334 | if nothing is lost the ideal demultiplexer alone tells the answers |
| MuxDemux.ToldToEnd | xray-go/common/mux/server.go:300-312 | then a peer session is told to end as often as its own frames sent data without an open session |
| MuxDemux.StopsExactly | xray-go/common/mux/server.go:191-361 | a frame ends the connection exactly for an unknown status or a New frame whose network is not allowed, that has a global ID, is not dispatched, or comes after the connection was shut |
| MuxDemux.ProjectDecides | xray-go/common/mux/server.go:300-361 | what a session gets depends on its own frames only, not on the interleaving |
| MuxDemux.SessionGetsItsBytes | xray-go/common/mux/server.go:300-361 | one pipe per session, holding a prefix of its bytes, all of them while live or if nothing broke |
| MuxDemux.WriterBytesArrive | xray-go/common/mux/writer.go:97-136 | what a writer was given is what the live session's pipe holds |
| MuxDemux.ProjectTells | xray-go/common/mux/server.go:300-361 | for every stream of frames, what the sessions under one ID receive is told by that ID's frames alone |
| MuxDemux.TalksGetTheirBytes | xray-go/common/mux/server.go:300-361 | an ID used again: one pipe per talk, in order, each a prefix of its talk's bytes; the live session is the last and has all of them |
| MuxDemux.UnderstoodFrame | xray-go/common/mux/frame.go:67-222 | frames with canonical addresses and IP source and local are always understood |
| Sessions.SessionManager.Allocate | xray-go/common/mux/session.go:54-73 | refuses exactly when closed, at the concurrency limit or at the 16-bit connection limit; otherwise the next ID |
| Sessions.SessionManager.Add | xray-go/common/mux/session.go:75-86 | registers under the given ID unless closed |
| Sessions.SessionManager.Remove | xray-go/common/mux/session.go:88-106 | removes one ID unless closed |
| Sessions.SessionManager.Get | xray-go/common/mux/session.go:108-118 | finds exactly the registered sessions of an open table |
| Sessions.SessionManager.CloseIfNoSessionAndIdle | xray-go/common/mux/session.go:120-136 | closes exactly when empty, sampled empty and the count unchanged |
| Sessions.SessionManager.Close | xray-go/common/mux/session.go:138-154 | closed and empty |
| Sessions.ClosedIsForever | xray-go/common/mux/session.go:54-154 | no run reopens, fills or allocates from a closed table |
| Sessions.CountsRegistrations | xray-go/common/mux/session.go:54-86 | the counter is the number of registrations modulo 65536 |
| Sessions.IdleCloseExactly | xray-go/common/mux/session.go:120-136 | closing after a run happens exactly if the table is empty, was sampled empty and a multiple of 65536 sessions was registered since |
| Sessions.IdleCloseMeansNoneCreated | xray-go/common/mux/client.go:226-244 | below 65536 registrations, idle close means none since the count was sampled |
| Sessions.ConcurrencyBounded | xray-go/common/mux/client.go:299-322 | live sessions never exceed MaxConcurrency, even if the check before allocation was stale |
| Sessions.AllocatedInOrder | xray-go/common/mux/session.go:54-73 | under a limit the IDs of every run are 1, 2, 3 and so on up to it |
| Sessions.NeverReusesExactly | xray-go/common/mux/session.go:54-73 | no run reuses an ID if and only if the limit modulo 65536 is not zero |
| Sessions.FullMatchesRefusal | xray-go/common/mux/client.go:289-309 | the check and the allocator agree on all open tables if and only if the limit fits 16 bits or is a multiple of 65536 |
| Sessions.IsolatesExactly | xray-go/common/mux/session.go:75-106 | closing one live session leaves all others registered, the newly added one included, if and only if its ID was not in use |
| Sessions.AllocatesUnusedExactly | xray-go/common/mux/session.go:54-73 | in every client run the ID about to be allocated is not in use, if and only if the limit modulo 65536 is not zero or only one session is allowed at a time |
| AuthStream.IncrementCounts | xray-go/common/crypto/auth.go:30-49 | the nonce generator adds one, little-endian, and wraps only at the end |
| AuthStream.NonceValue | xray-go/common/crypto/auth.go:43-49 | the k-th nonce has value k-1 |
| AuthStream.NoncesDistinct | xray-go/common/crypto/auth.go:30-49 | no nonce repeats within a whole period |
| AuthStream.SealsNeverShareNonce | xray-go/common/crypto/auth.go:30-49 | no two chunks of one writer are sealed with the same nonce within a whole period |
| AuthStream.TurnAfter | xray-go/common/crypto/auth.go:119-133 | after k chunks an end has made exactly 2k calls to the padding and size generators |
| AuthWriter.AuthenticationWriter.Seal | xray-go/common/crypto/auth.go:249-276 | one chunk with masked size, sealed payload and drawn padding; an oversize chunk draws a padding and nothing else |
| AuthWriter.AuthenticationWriter.WriteStream | xray-go/common/crypto/auth.go:278-310 | the chunks added carry exactly the bytes given; an empty chunk exactly for an empty write; the chunks so far carry the writes so far, up to the first empty one |
| AuthWriter.AuthenticationWriter.WritePacket | xray-go/common/crypto/auth.go:312-335 | exactly the packets that fit with the padding of their turn are sent, at the places that leaves; nothing is dropped if and only if every nonempty packet fits at its turn; the writer is in step if and only if nothing was dropped |
| AuthWriter.AuthenticationWriter.WriteMultiBuffer | xray-go/common/crypto/auth.go:338-350 | an empty write is the terminator in both modes; otherwise stream or packets |
| AuthWriter.SendsAll | xray-go/common/crypto/auth.go:249-260 | all packets are sent if and only if each fits with the padding drawn at its turn |
| AuthWriter.InStepExactly | xray-go/common/crypto/auth.go:249-260 | what was sent is a stream of chunks in step with the generators if and only if nothing was dropped |
| AuthReader.AuthenticationReader.NextSize | xray-go/common/crypto/auth.go:119-133 | the size and padding of the next chunk, remembered or read; the end of the input; or an error |
| AuthReader.AuthenticationReader.TryRead | xray-go/common/crypto/auth.go:153-204 | one hard or soft attempt: nothing yet, a chunk, the end or an error |
| AuthReader.AuthenticationReader.OpenChunk | xray-go/common/crypto/auth.go:137-151 | the chunk's plaintext is appended; input that ends right before the chunk is the end |
| AuthReader.AuthenticationReader.ReadMultiBuffer | xray-go/common/crypto/auth.go:206-226 | one hard read and up to fifteen soft ones |
| AuthReader.ReadLinked | xray-go/common/crypto/auth.go:119-204 | an attempt on a written stream, cut anywhere, waits with nothing lost, returns the next chunk with reader and writer in step, or ends or fails exactly as the cut says |
| AuthReader.CutStream | xray-go/common/crypto/auth.go:119-226 | from a written stream cut after any number of bytes the reader returns the whole chunks before the cut, in order, then reports the end or an error, for any amount buffered at every soft read |
| AuthReader.CutUnseenExactly | xray-go/common/crypto/auth.go:119-142 | an unterminated stream's cut passes for the end if and only if it falls between two chunks or right behind a size |
| AuthReader.AuthRoundTrip | xray-go/common/crypto/auth.go:206-350 | for every written stream, terminated or not, the reader returns the plaintext up to the first empty write and then reports the end; it never fails |
| AuthReader.WritesArrive | xray-go/common/crypto/auth.go:206-350 | a reader of what stream writes sent returns the concatenation of the writes up to the first empty one |
| AuthReader.PacketsArrive | xray-go/common/crypto/auth.go:206-335 | a reader gets exactly the packets sent, each by itself, if all fit at their turns or the generators have no state |
| AuthReader.DroppedPacketExample | xray-go/common/crypto/auth.go:249-260 | a packet that is too large makes the reader fail on the next one, which it would have read otherwise |
| DnsCache.CacheController.CollectExpiredKeys | xray-go/app/dns/cache_controller.go:73-101 | exactly the domains with an answer that expired before now, or with serveStale before now less the configured TTL, once each; none during a migration |
| DnsCache.CacheController.WriteAndShrink | xray-go/app/dns/cache_controller.go:103-170 | of the given domains exactly the answers that expired before that time leave the view, and no others; a migration starts exactly if more than 10240 domains and 65 percent of the peak are gone; an empty map is reset from a peak of 512 on |
| DnsCache.CacheController.CacheCleanup | xray-go/app/dns/cache_controller.go:61-71 | an uninterrupted cleanup drops exactly the answers that expired before that time, of all domains |
| DnsCache.GraceIsTtlExactly | xray-go/app/dns/cache_controller.go:43-58 | stale answers are kept for the configured TTL if and only if it is at most 2^31; a larger one drops answers that have not expired |
| DnsCache.CacheController.Migrate | xray-go/app/dns/cache_controller.go:177-219 | a whole migration leaves the view of every domain unchanged |
| DnsCache.CacheController.FlushBatch | xray-go/app/dns/cache_controller.go:221-243 | a batch leaves every view unchanged and covers its keys |
| DnsCache.CacheController.UpdateRecord | xray-go/app/dns/cache_controller.go:245-309 | the new state, and the other family's answer that is published, taken from the view; cleanup is scheduled unless stale answers are served forever |
| DnsCache.CacheController.FindRecords | xray-go/app/dns/cache_controller.go:311-320 | the record found in one of the two maps |
| DnsCache.FoundAgreesWithView | xray-go/app/dns/cache_controller.go:311-320 | every answer found is the view's |
| DnsCache.FoundIsWholeView | xray-go/app/dns/cache_controller.go:311-320 | the record found is the whole view if and only if the new map's record does not hide an answer of the old one |
| DnsCache.InvStep | xray-go/app/dns/cache_controller.go:73-309 | every locked step keeps: at most one migration, only while the old map exists, flushed keys covered |
| DnsCache.StepRefines | xray-go/app/dns/cache_controller.go:73-309 | an update changes one family of one domain in the view, a cleanup outside migration drops expired answers of collected domains, everything else changes nothing |
| DnsCache.RunRefines | xray-go/app/dns/cache_controller.go:73-309 | every interleaving refines one map, with at most one migration at any time |
| DnsCache.NewCacheRefines | xray-go/app/dns/cache_controller.go:43-309 | from a new cache every run holds what the updates stored less what expired |
| DnsCache.PartialRecordReached | xray-go/app/dns/cache_controller.go:103-320 | a run from a new cache in which an update during migration hides the other family from lookups, for any two answers |
| IpMatcher.CreateFrom | xray-go/common/geodata/ip_matcher.go:879-949 | the recorded maximum prefix bounds every prefix of its family, or says there is none |
| IpMatcher.BucketConstant | xray-go/common/geodata/ip_matcher.go:194-215 | with prefixes at most 24 (64) long, IPs of one bucket match alike |
| IpMatcher.CoversByBytes | xray-go/common/geodata/ip_matcher.go:879-949 | a prefix covers exactly the addresses with its whole leading bytes and the leading bits of the next one |
| IpMatcher.MatchExactly | xray-go/common/geodata/ip_matcher.go:55-77 | a plain matcher matches exactly what a prefix of the family covers, a reversed one exactly what none covers, and neither anything in a family without prefixes |
| IpMatcher.ReverseExactly | xray-go/common/geodata/ip_matcher.go:63-77 | reversing turns the answer round exactly in the families with prefixes |
| IpMatcher.MappedAlike | xray-go/common/geodata/ip_matcher.go:55-61 | an IPv4 address matches alike in four and in sixteen bytes |
| IpMatcher.Lookup | xray-go/common/geodata/ip_matcher.go:63-77 | some prefix of the family covers the address, or none if reversed; never in a family without prefixes |
| IpMatcher.AnyMatch | xray-go/common/geodata/ip_matcher.go:80-127 | some valid IP matches |
| IpMatcher.Matches | xray-go/common/geodata/ip_matcher.go:130-191 | not empty, all valid, all match |
| IpMatcher.FilterIPs | xray-go/common/geodata/ip_matcher.go:218-305 | the valid IPs are split into matching and not matching, with multiplicity; what prefixes cover is the matched part of a plain matcher and the unmatched part of a reversed one |
| IpMultiMatcher.GeneralAnyMatch | xray-go/common/geodata/ip_matcher.go:332-340 | some valid IP matches some matcher |
| IpMultiMatcher.GeneralMatches | xray-go/common/geodata/ip_matcher.go:342-350 | one matcher matches all IPs |
| IpMultiMatcher.MultiMatch | xray-go/common/geodata/ip_matcher.go:387-400 | some matcher matches the IP |
| IpMultiMatcher.MultiAnyMatch | xray-go/common/geodata/ip_matcher.go:402-450 | the same as the general matcher's, with buckets shared between matchers |
| IpMultiMatcher.EnsureView | xray-go/common/geodata/ip_matcher.go:515-591 | the view a matcher needs is built once and represents the list; fails exactly on an invalid IP |
| IpMultiMatcher.ViewDecides | xray-go/common/geodata/ip_matcher.go:452-508 | asking the view is asking every IP of the family |
| IpMultiMatcher.MultiMatches | xray-go/common/geodata/ip_matcher.go:452-508 | the same as the general matcher's |
| IpMultiFilter.MultiFilterIPs | xray-go/common/geodata/ip_matcher.go:594-792 | matched are exactly the IPs some matcher matches; unmatched are exactly those left in some view that was used |
| IpMultiFilter.OverlapExactly | xray-go/common/geodata/ip_matcher.go:613-696 | no unmatched IP is lost; an IP is in both results exactly if both modes are used for its family and only one of them hits |
| IpMultiFilter.AgreeingModesPartition | xray-go/common/geodata/ip_matcher.go:613-696 | matchers that agree on the mode per family give a partition |
| IpMultiFilter.OverlapExample | xray-go/common/geodata/ip_matcher.go:613-696 | an IPv4-only and an IPv6-only matcher overlap on a matching address |
| DnsQuery.MakeGroups | xray-go/app/dns/dns.go:479-533 | the maximal runs of equal policy, and the run of every client |
| DnsQuery.ParallelQuery | xray-go/app/dns/dns.go:386-438 | for every order of arrival: success from the earliest group that has one, or all errors in client order |
| DnsQuery.OrderDoesNotMatter | xray-go/app/dns/dns.go:386-438 | two orders agree on success, on the group and on the errors; success exactly if some client succeeds |
| DnsQuery.SerialQuery | xray-go/app/dns/dns.go:363-384 | the first client with IPs, or all errors |
| DnsQuery.QueryIP | xray-go/app/dns/nameserver.go:168-228 | a client's reply has IPs exactly if it has no error |
| DnsQuery.QueryIPExactly | xray-go/app/dns/nameserver.go:168-228 | which IPs remain, by what the two filters match: the strict rules first, then the preferences, each only if something is left; the TTL is the server's; which error there is |
| DnsQuery.SerialAnswersAlike | xray-go/app/dns/dns.go:363-438 | with singleton groups serial and parallel succeed together, from the same client with the same IPs and TTL |
| DnsQuery.SerialFailsAlikeExactly | xray-go/app/dns/dns.go:363-474 | when all fail they report the same error if and only if no client was skipped, or all were, or the asked ones amount to an empty response and either one was skipped before the first of them or that one's error is not wrapped |
| DnsQuery.SkippedClientExample | xray-go/app/dns/dns.go:366-369 | a skipped client beside a server without the record makes the errors differ |
| DnsQuery.MergeQueryErrors | xray-go/app/dns/dns.go:339-361 | which error a list of errors, wrapped or not, becomes in every case |
| ReplayFilter.ReplayFilter.Check | xray-go/common/antireplay/mapfilter.go:29-46 | accepted exactly if in neither pool after rotation; the new pools |
| ReplayFilter.Window | xray-go/common/antireplay/mapfilter.go:29-46 | once accepted at t, rejected up to and including t plus the interval, in every run |
| ReplayFilter.RejectionHasCause | xray-go/common/antireplay/mapfilter.go:29-46 | a rejection has an earlier acceptance with at most one rotation since |
| ReplayFilter.NoFalseRejection | xray-go/common/antireplay/mapfilter.go:18-46 | the same from a new filter |
| ReplayFilter.AcceptedAgain | xray-go/common/antireplay/mapfilter.go:29-46 | a value is accepted again once two intervals have passed since its last acceptance, with a call between them |
| LruCache.Lru.Get | xray-go/common/cache/lru.go:40-49 | the value of the key, which becomes the most recent |
| LruCache.Lru.GetKeyFromValue | xray-go/common/cache/lru.go:51-60 | the key the value index names, made most recent if live |
| LruCache.Lru.PeekKeyFromValue | xray-go/common/cache/lru.go:62-68 | while the value index is the exact inverse, the answer is exactly the key whose Get gives the value, and none if there is none |
| LruCache.ValueIndexMeans | xray-go/common/cache/lru.go:51-68 | asking the exact inverse for a value gives exactly the key that holds it |
| LruCache.Lru.Put | xray-go/common/cache/lru.go:70-89 | the new cache, invariant kept |
| LruCache.InvPut | xray-go/common/cache/lru.go:70-89 | size within capacity, key index and list hold the same elements |
| LruCache.InsertKeepsRecency | xray-go/common/cache/lru.go:70-89 | a new key goes first and the least recently touched one leaves |
| LruCache.RunKeepsRecency | xray-go/common/cache/lru.go:40-89 | in every run the list is ordered by last touch |
| LruCache.PutInverseExactly | xray-go/common/cache/lru.go:70-89 | a put keeps the value index the exact inverse if and only if it neither changes a live key's value nor shares one |
| LruCache.TameRunKeepsInverse | xray-go/common/cache/lru.go:40-89 | runs of such puts keep it |
| LruCache.NewCacheKeepsRecency | xray-go/common/cache/lru.go:30-89 | from a new cache: at most the capacity, in order of last touch, in every run |
| LruCache.NewCacheInverse | xray-go/common/cache/lru.go:30-89 | from a new cache with such puts only, a value always gives exactly the key that holds it |
| FileSwap.Disk.SwapOne | xray-go/app/geodata/download.go:256-287 | one swap with any unused backup name, or, only if an operation failed or the temporary file is missing, an error that leaves the disk as it was unless a further operation failed |
| FileSwap.Disk.SwapAll | xray-go/app/geodata/download.go:244-254 | for every choice of failing operations and of unused backup names: all installed, no backup named like a target that existed, and rollback would restore the old disk; or every target as before unless a restoring operation failed too; an error only if an operation failed or a temporary file was missing |
| FileSwap.Disk.Rollback | xray-go/app/geodata/download.go:289-312 | undoes the swaps, latest first, and touches nothing but targets and backups even if operations fail; reports an error only if one did or a backup is gone |
| FileSwap.Disk.Commit | xray-go/app/geodata/download.go:314-322 | removes backups and changes nothing else; reports an error only if an operation failed |
| FileSwap.RollbackRestores | xray-go/app/geodata/download.go:244-312 | for every stage list, repeated targets included, rollback gives back the whole old disk less the temporary files |
| FileSwap.InstalledRestorable | xray-go/app/geodata/download.go:244-312 | after success every backup that rollback needs is there when it needs it |
| FileSwap.LaterRollback | xray-go/app/geodata/download.go:289-312 | a later rollback restores every target whatever else happened on the disk |
| FileSwap.LastStageWins | xray-go/app/geodata/download.go:244-287 | after success each target holds its last stage's file |
| FileSwap.UnrelatedUntouched | xray-go/app/geodata/download.go:244-287 | nothing but targets, temporary files and backups changes |
| FileSwap.CommitKeepsTargets | xray-go/app/geodata/download.go:314-322 | commit changes no target: targets exist when swapping begins, so no backup has the name of one |
| FileSwap.ExistingKept | xray-go/app/geodata/download.go:324-346 | a file that exists at the start, unless temporary, stays and is never a backup's name |
| FileSwap.CommitKeepsTargetsExactly | xray-go/app/geodata/download.go:314-322 | in general commit keeps every target if and only if no backup got a target's name |
| FileSwap.VanishedTargetExample | xray-go/app/geodata/download.go:314-322 | a target that vanished before the swap and whose name a backup gets is lost by commit |
| FileSwap.Disk.ReloadWithUpdate | xray-go/app/geodata/geodata.go:67-86 | every target holds its new file, or every target is as it was unless a restoring operation failed; without failing operations the reload decides which |
| FileSwap.Disk.Clean | xray-go/app/geodata/download.go:226-232 | touches temporary files only |
| FileSwapOrder.ForwardRestoresExactly | xray-go/app/geodata/download.go:289-297 | undoing in forward order restores the targets if and only if every target staged again existed and its last stage but one brought the same content; reverse order always does |
| FileSwapOrder.ForwardLosesOriginal | xray-go/app/geodata/download.go:289-297 | a repeated target that loses its original in forward order |

## Left out

- Frames.WriteTo: a New frame must have a target, as every caller's does; the Go code would panic on a nil address.
- Addresses.ReadAddress: net.ParseAddress on a name that may be an IP is a parameter; the scratch buffer starts empty, as in every caller here.
- MuxServer.ServerWorker.HandleStatusNew: the handover of UDP sessions by GlobalID is not modelled and ends the model's run; logging and contexts are left out; whether dispatching succeeds is an input.
- MuxServer.ServerWorker.HandleFrame: outputs are byte sequences, so the packet boundaries and addresses that a packet session passes on are not recorded.
- MuxDemux.Run: other goroutines act between frames, not in the middle of one; a session lost while its data is copied is one lost just after.
- MuxWriter.Writer.WriteMultiBuffer: a buffer holds at most 8192 bytes, as everywhere in the program; the link takes a given number of frames and then refuses.
- MuxReader.ChunkStreamReader.ReadMultiBuffer: the chunk counter does not wrap at 32 bits; sizes are plain two-byte numbers, the AEAD-masked ones are part of AuthStream.
- Sessions.SessionManager.Close: closing each session's pipes is not modelled.
- VisionFilter.TrafficState.XtlsFilterTls: bytes read past the end of a short buffer are an input.
- VisionPadding.XtlsPadding: required to have a good seed and a reshaped content; the other seeds make the Go code panic or wrap, as PaddingNeverNegative states.
- VisionWriter.VisionWriter.WriteMultiBuffer: the writer below takes everything; what remains of the flags after its error is not modelled.
- VisionReader.VisionReader.ReadMultiBuffer: the raw connection, splicing and counters are not modelled; the two TLS buffers that are drained are byte sequences.
- AuthWriter.AuthenticationWriter.Seal: the AEAD is any pair of functions in which opening inverts sealing under the same nonce and sealing adds a fixed overhead (sections 2.1 and 2.2 of RFC 5116); associated data is fixed.
- AuthReader.AuthenticationReader.TryRead: the padding of a chunk larger than a buffer is at most its size, as the maximum padding guarantees; the 16-bit difference is not modelled.
- DnsCache.CacheController.Migrate: the recovery from a panic, which drops data on purpose, is not modelled; a duration is an unbounded number and records are values, not shared pointers.
- DnsCache.CacheController.WriteAndShrink: the ratio of 65 percent is taken exactly, not in floating point.
- MuxServer.ServerWorker.Notify: what is handed to the link counts as sent; the source ignores an error there.
- IpMatcher.CreateFrom: an IP set is a list of prefixes and contains what some prefix covers (section 3.1 of RFC 4632); merging ranges is not modelled.
- IpMultiMatcher.EnsureView: the two families are built separately instead of in one pass.
- FileSwap.Disk.SwapOne: promises nothing if the backup got the name of a temporary file that is missing.
- FileSwap.Disk.SwapAll: temporary names and targets are required to be disjoint, which holds because temporary files are created exclusively; a stray backup file can only have the name of a target that was missing at the start.
- The client's receiving loop, which differs from the server's in discarding New frames, and the worker picker.
- Sorting DNS clients by domain rules, publishing to subscribers, DNS transports, and the HTTP downloader.
- Router, balancer, policy, configuration loading, generated code and everything that depends on the operating system.
- Buffer pooling and release, logging and counters.
