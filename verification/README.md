# A verified model of the TAIFEX market data SDK

The SDK turns bytes into order books in five stages: a TCP client that recovers lost messages, a
deduplicator for two redundant multicast feeds, a validator and sequence tracker, body parsers, and one
order book per product. This project models each stage in Dafny and proves what it does to whole streams
and whole runs. `dafny verify dfyconfig.toml` checks everything.

Stateful components are classes (`RetransmissionClient`, `NetworkManager`, `OrderBook`, `TaifexSdk`) whose
methods follow the C++ member functions branch by branch; each method is tied by its postcondition to a
function on plain values (`Feed`, `Process`, `Update`, `Track`, ...), and the theorems are about those
functions. Callbacks and warnings that matter are recorded in output logs. Time stamps, send results and
receive results are inputs; callbacks return normally.

| module | source |
|---|---|
| `Bytes`, `Checksum`, `PackBcd`, `CommonHeader` | big-endian fields, the two check codes, packed BCD, the common header |
| `RetransmissionProtocol` | the eight retransmission messages |
| `RetransmissionClient`, `StreamReassembly`, `SessionRuns` | the TCP client, streams through it, login sessions |
| `NetworkManager`, `Deduplication` | the dual-feed log, what it remembers and drops |
| `MessageBodies`, `ProductBody` | I081 and I083 bodies, I010 bodies |
| `OrderBook`, `OrderBookLaws`, `OrderBookRecovery` | the book, its algebra, invariants and restoration |
| `TaifexSdk`, `SdkRuns`, `SequenceTracking` | validation, per-product books, gap reports |
| `Pipeline` | deduplicator and SDK together |

Where the program and its documentation or tests differ, the model follows the program:

- An I081 with an old sequence number is applied (the early `return` is commented out), while
  tests/test_order_book.cpp:370-375 expects it to be ignored. `OldUpdateIgnoredIff` says exactly when it
  makes no difference.
- The deduplication log holds 100 keys per configured feed, while tests/test_network_manager.cpp:190-195
  counts 100 in all. `RepeatForwardedIff` says exactly when a repeat is forwarded again, and
  `HundredIsEnoughIff` that 100 newer packets suffice only with at most one feed.
- The deduplication key lets a ten-digit sequence number run into the channel's bits. It tells all packets
  of a set of channels apart exactly when every channel in use is a multiple of four (`KeyInjectiveIff`);
  one multiple of four is not safe by itself, since packet 2^32 of channel 4 and packet 0 of channel 5
  share a key (`NeighbourCollides`).
- A DataResponse102 whose size field starts with byte 0x1B is read as market data, and one of more than
  65512 data bytes is cut short because its size field wraps. `SerializedIsCutIff` gives the payload
  lengths.
- The check sum of a DataResponse102 does not always reveal a changed size field, because the size decides
  where the check sum is read. `OneByteCorruption` says exactly when the change passes.
- `request_retransmission` and `send_client_heartbeat` return true even when sending fails, although
  networking/retransmission_client.h:102-109 documents false (`TrueWithoutSending`). `RequestResultIff` and
  `HeartbeatResultIff` say exactly when the result is right.
- networking/retransmission_protocol.h:47-48 says that client numbers restart at 0 after each successful
  login; they restart with each login request. `FirstRequestIsOne` is a run whose first request after the
  login carries 1, and `FirstAfterLoginIff` says exactly when the first message does carry 0.
- networking/network_manager.cpp:16 speaks of the last 100 numbers per channel, but the log is shared and
  evicts the smallest key, so higher channels push out lower ones. `ChannelWindowIff` says exactly when a
  repeat is dropped, `QuietChannelForgotten` shows a channel's only packet forgotten, and
  `LowChannelNeverDeduplicated` that a channel below a full one is not deduplicated at all.
- The deduplicator forwards "unique" packets (networking/network_manager.h:110), but it logs a key before the
  frame is validated, so a damaged copy hides the good one (`DamagedCopyHidesGood`).
  `DeduplicationInvisibleIff` says exactly which runs lose nothing that way.
- order_book/order_book.h:54-62 says that prices are scaled by the decimal locator; they are stored as they
  come. `LocatorPlaysNoPart` states it for every run; `ScalingShows` is a run that tells the two apart, and
  `ScalingIff` says that none does exactly when the locator is 0.
- The product key is looked up by what precedes the first slash of an identifier, so that "TXFF3/I3" finds
  its first leg; but I010 keys are stored with all their ten bytes. `BookPossibleIff` says exactly which
  products can ever get a book; `SpreadHasNoBook` that such spreads never do.

## Model

| member | source | states |
|---|---|---|
| `Checksum.CalculateXorChecksum` | checksum.cpp:9-18 | bit k of the result is the parity of the number of bytes of the segment that have bit k set, for every k |
| `Bytes.NetworkOrder` | networking/retransmission_protocol.cpp:57-102 | integers are read with the most significant byte first |
| `Checksum.XorDetectsOneByte` | checksum.cpp:9-18 | replacing one byte keeps the check code exactly when it writes the same byte |
| `Checksum.CalculateRetransmissionChecksum` | networking/retransmission_protocol.cpp:18-24 | the sum modulo 256 is exact although the 32-bit accumulator may wrap |
| `Checksum.SumDetectsOneByte` | networking/retransmission_protocol.cpp:18-24 | replacing one byte keeps the sum modulo 256 exactly when it writes the same byte |
| `PackBcd.AsciiToPackBcd` | pack_bcd.cpp:8-34 | throws exactly on a non-digit; otherwise packs digit pairs after padding to even length |
| `PackBcd.PackBcdToAscii` | pack_bcd.cpp:36-66 | throws exactly on a bad nibble; otherwise all digits, padded or cut to the requested count |
| `PackBcd.PackBcdToAsciiAll` | pack_bcd.cpp:68-85 | the overload without a count decodes every digit |
| `PackBcd.AsciiRoundTrip` | pack_bcd.cpp:8-66 | packing any digit string and decoding it at its length gives it back |
| `PackBcd.BcdRoundTrip` | pack_bcd.cpp:8-85 | decoding any valid BCD vector without a count and packing again restores it |
| `PackBcd.PackedByte` | pack_bcd.cpp:24-32 | byte i of the packed string holds digits 2i and 2i + 1, the earlier one in its high half |
| `PackBcd.PackedValue` | pack_bcd.cpp:8-34 | packing any digit string, padded or not, keeps the number it denotes |
| `PackBcd.SizedValue` | pack_bcd.cpp:36-66 | a decode at n > 0 digits denotes the BCD value modulo 10^n |
| `PackBcd.DecodeNumber` | messages/message_parser_utils.cpp:11-34 | decoding a field and converting it yields its last n digits as a number (all for n = 0), or fails on an empty field or a bad nibble |
| `PackBcd.NumberRoundTrip` | pack_bcd.cpp:8-66 | every number that fits the declared digits survives encoding and decoding |
| `CommonHeader.Parse` | common_header.cpp:20-48 | succeeds exactly on 19 bytes or more, with every field from its own bytes |
| `CommonHeader.HeaderRoundTrip` | common_header.cpp:20-48 | every header is recovered from its wire image, whatever follows |
| `CommonHeader.GetChannelId` | common_header.cpp:83-98 | throws exactly on a bad nibble; the range guard never fires and the value is below 10000 |
| `CommonHeader.GetChannelSeq` | common_header.cpp:100-110 | throws exactly on a bad nibble; the value is the ten-digit number |
| `CommonHeader.GetBodyLength` | common_header.cpp:128-142 | throws exactly on a bad nibble; the range guard never fires and the value is below 10000 |
| `RetransmissionProtocol.SerializeHeader` | networking/retransmission_protocol.cpp:57-73 | appends the 16 header bytes to any buffer |
| `RetransmissionProtocol.Serialize` | networking/retransmission_protocol.cpp:162-467 | for all eight messages, appends exactly one frame to any buffer |
| `RetransmissionProtocol.DeserializeHeader` | networking/retransmission_protocol.cpp:75-102 | fails exactly when fewer than 16 bytes remain; otherwise reads the fields and advances by 16 |
| `RetransmissionProtocol.Deserialize` | networking/retransmission_protocol.cpp:183-524 | for all eight messages, succeeds exactly on a frame of the right type, size and check sum, with its fields |
| `RetransmissionProtocol.FrameLayout` | networking/retransmission_protocol.cpp:57-467 | where every field of each of the eight frames is, with its type number, size and check sum |
| `RetransmissionProtocol.RoundTripIff` | networking/retransmission_protocol.cpp:162-524 | a frame with anything after it decodes to the message it was made from, except exactly a DataResponse102 of more than 65512 data bytes |
| `RetransmissionProtocol.DecodedIsCanonical` | networking/retransmission_protocol.cpp:183-524 | whatever decodes re-serializes to the bytes that were read |
| `RetransmissionProtocol.OneByteCorruption` | networking/retransmission_protocol.cpp:110-524 | a frame with any one byte changed, and anything after it, decodes exactly when it is a DataResponse102 whose size field changed and the byte now read as check sum (a data byte if lowered, a byte after the frame if raised) equals the sum before it |
| `RetransmissionProtocol.RaisedSizeCanPass` | networking/retransmission_protocol.cpp:481-523 | whatever byte a size byte of a DataResponse102 is raised to, some bytes after the frame make it decode, and alone it never does |
| `RetransmissionProtocol.LoweredSizeCanPass` | networking/retransmission_protocol.cpp:481-523 | a concrete DataResponse102 whose lowered size byte goes undetected |
| `RetransmissionClient.RetransmissionClient.ConnectToServer` | networking/retransmission_client.cpp:56-102 | an existing connection is kept; any other attempt ends the login and connects if it succeeds |
| `RetransmissionClient.RetransmissionClient.PerformLogin` | networking/retransmission_client.cpp:104-138 | restarts the numbering and sends request 020 exactly when connected and not logged in |
| `RetransmissionClient.RetransmissionClient.SendTcpMessage` | networking/retransmission_client.cpp:141-177 | a complete send is recorded with its bytes; a failed one disconnects and ends the login; without a connection nothing happens |
| `RetransmissionClient.RetransmissionClient.ReceiveFailed` | networking/retransmission_client.cpp:205-232 | a receive error or close disconnects and ends the login |
| `RetransmissionClient.RetransmissionClient.Stop` | networking/retransmission_client.cpp:254-274 | stops once, disconnecting and ending the login |
| `RetransmissionClient.RetransmissionClient.RequestRetransmission` | networking/retransmission_client.cpp:278-306 | builds, serializes and sends request 101 exactly when logged in, with the next number, and returns true exactly then |
| `RetransmissionClient.RetransmissionClient.SendClientHeartbeat` | networking/retransmission_client.cpp:308-329 | builds, serializes and sends heartbeat 105 exactly when connected, with the next number, and returns true exactly then |
| `RetransmissionClient.RetransmissionClient.HandleProtocolMessage` | networking/retransmission_client.cpp:408-476 | acts on messages 050, 102, 104 and 010 that decode, and on nothing else |
| `RetransmissionClient.RetransmissionClient.ProcessFront` | networking/retransmission_client.cpp:334-404 | one round of the loop shortens the buffer without changing what draining it leads to, or finishes |
| `RetransmissionClient.RetransmissionClient.ProcessIncomingData` | networking/retransmission_client.cpp:331-406 | a chunk leaves the client where draining the extended buffer does |
| `StreamReassembly.CutIsStable` | networking/retransmission_client.cpp:338-404 | once the front of the buffer can be cut, more bytes do not change the cut |
| `StreamReassembly.ChunkingIndependence` | networking/retransmission_client.cpp:331-406 | for every stream and every split, the same deliveries, session, Failed flag and, unless failed, leftover as in one piece |
| `StreamReassembly.AnyTwoSplitsAgree` | networking/retransmission_client.cpp:331-406 | two splits of one stream lead to the same place |
| `StreamReassembly.FramesRecovered` | networking/retransmission_client.cpp:338-404 | any list of frames, concatenated and split arbitrarily, is delivered as that list without the runts, in order, and leaves nothing |
| `StreamReassembly.DrainOutcome` | networking/retransmission_client.cpp:334-404 | every buffer is a list of frames and a rest that is no whole frame yet or has a bad length; the frames are delivered, the rest is kept, and the client fails exactly in the second case |
| `StreamReassembly.ClientFailsIff` | networking/retransmission_client.cpp:338-356 | however a stream is split, the client fails exactly when, after whole frames, a market header with a bad length nibble comes |
| `StreamReassembly.StoppedClientCollects` | networking/retransmission_client.cpp:334-336 | a stopped client only collects bytes |
| `StreamReassembly.LeftoverMattersIff` | networking/retransmission_client.cpp:56-102 | since connecting does not clear the buffer, every frame list of a new connection is delivered as such, runts apart, exactly when nothing was left over in it |
| `StreamReassembly.BadCheckSumSkipped` | networking/retransmission_client.cpp:338-399 | a protocol frame with a bad check sum anywhere in a stream of frames, however split, leaves the client as if it had not been there, but for its own log entry in its place |
| `StreamReassembly.SerializedIsCutIff` | networking/retransmission_client.cpp:338-379 | a serialized message is cut out as one protocol frame, except exactly a DataResponse102 of 6889 to 7144 or of more than 65512 data bytes |
| `StreamReassembly.ServerMessageTakesEffect` | networking/retransmission_client.cpp:414-475 | the whole session after each serialized server message: 050 opens the login, 010 closes it, 102 is reported with its fields, 104 is answered with the next number or the failed answer disconnects, others do nothing |
| `StreamReassembly.ChangedByteCostsOneFrame` | networking/retransmission_client.cpp:338-399 | in a stream of frames, however split, one changed byte after the size field of a serialized message costs only that message: the client ends as without it, but for one log entry |
| `SessionRuns.EveryRun` | networking/retransmission_client.cpp:56-329 | in every run the flags tell whether the latest connection and login still stand; login requests carry operator 168 and the client's own check code and session, over a connection without a login; requests 101 need the login, heartbeats the connection; numbers count from the latest login request; what goes out is the frame just built, over an open connection |
| `SessionRuns.SilentWhileDown` | networking/retransmission_client.cpp:141-232 | after a failed receive, a failed connect or a stop nothing goes out until a connect succeeds |
| `SessionRuns.FlagsAfter` | networking/retransmission_client.cpp:56-274 | a standing connection is kept and any other attempt decides the flag and ends the login; a failed receive and a stop end both, a second stop does nothing |
| `SessionRuns.StepBuilds` | networking/retransmission_client.cpp:104-329 | a login step builds one login request exactly when connected and not logged in, a request step one 101 exactly when logged in, a heartbeat step one 105 exactly when connected, each with its fields |
| `SessionRuns.ConsecutiveNumbers` | networking/retransmission_client.cpp:114-124 | messages built one after the other carry consecutive numbers modulo 2^32; a login request starts at 0 |
| `SessionRuns.FirstAfterLoginIff` | networking/retransmission_client.cpp:114-124 | in every run the first message built after an accepted 050 carries 0 exactly when it is a login request or a multiple of 2^32 messages were built since the latest one |
| `SessionRuns.FirstRequestIsOne` | networking/retransmission_client.cpp:114-290 | in the run that connects, logs in and requests data, the first request after the login carries 1 |
| `SessionRuns.RequestResultIff` | networking/retransmission_client.cpp:278-306 | the result of a request tells whether its frame went out exactly when the client is not logged in, or is connected and sending succeeds |
| `SessionRuns.HeartbeatResultIff` | networking/retransmission_client.cpp:308-329 | the same for the heartbeat: exactly when not connected, or when sending succeeds |
| `SessionRuns.TrueWithoutSending` | networking/retransmission_client.cpp:141-177 | in the session that this run leads to both calls return true, and nothing goes out, when sending fails |
| `NetworkManager.NetworkManager.ProcessIncomingPacket` | networking/network_manager.cpp:155-192 | the packet is ignored, thrown on, dropped or forwarded, and the log updated, as the specification says |
| `Deduplication.KeyBits` | networking/network_manager.cpp:163-165 | the key is the bitwise or of the sequence and the channel shifted by 32, bit by bit |
| `Deduplication.KeyFromBytes` | networking/network_manager.cpp:157-165 | the key of any packet from its bytes: none below 19 bytes, a throw on a bad nibble in bytes 9 to 15 |
| `Deduplication.StoppedIsInert` | networking/network_manager.cpp:155-157 | a stopped manager forwards and remembers nothing, whatever arrives |
| `Deduplication.KeyInjective32` | networking/network_manager.cpp:163-165 | keys tell all pairs with 32-bit sequence numbers apart |
| `Deduplication.KeyInjectiveIff` | networking/network_manager.cpp:163-165 | over ten-digit numbers, keys tell all pairs of a set of channels apart exactly when every channel of the set is a multiple of four |
| `Deduplication.OneChannelKeysIff` | networking/network_manager.cpp:163-165 | the ten-digit numbers of one channel have distinct keys exactly when it is a multiple of four |
| `Deduplication.NeighbourCollides` | networking/network_manager.cpp:163-165 | a ten-digit packet of channel 4 has the key of packet 0 of channel 5 |
| `Deduplication.LogHoldsLargest` | networking/network_manager.cpp:167-189 | after every run the log holds exactly the 100 x feeds largest distinct multicast keys seen |
| `Deduplication.LargestByCount` | networking/network_manager.cpp:182-188 | a key is in the log exactly when it was seen and fewer than 100 x feeds larger keys were |
| `Deduplication.DiscardedIff` | networking/network_manager.cpp:167-191 | a multicast packet is discarded exactly when its key was seen and fewer than 100 x feeds distinct larger keys were; otherwise forwarded |
| `Deduplication.RetransmissionBypasses` | networking/network_manager.cpp:167-199 | retransmitted packets are always forwarded and leave the log alone |
| `Deduplication.OnlyMulticastMatters` | networking/network_manager.cpp:155-192 | leaving out all retransmitted and unparsable packets changes neither the log nor the decision on any later packet |
| `Deduplication.ForwardCount` | networking/network_manager.cpp:155-192 | however packets are lost, repeated, reordered and retransmitted, as many are forwarded as there are distinct multicast keys, late repeats and retransmissions |
| `Deduplication.NothingLost` | networking/network_manager.cpp:155-192 | in every run, of every multicast key seen some multicast packet is forwarded |
| `Deduplication.AnyChannelsMergeIff` | networking/network_manager.cpp:155-192 | for two feeds with the same packets of any channels, no key twice, the output is that sequence once and in order exactly when no packet is repeated after 100 x feeds larger keys |
| `Deduplication.DualFeedMergeIff` | networking/network_manager.cpp:155-192 | for two feeds with the same increasing packets, the output is that sequence once and in order exactly when no packet arrives more than 100 x feeds behind the other feed |
| `Deduplication.BoundedLagIsEnough` | networking/network_manager.cpp:155-192 | it is so whenever neither feed is ever more than 100 x feeds ahead |
| `Deduplication.RepeatForwardedIff` | networking/network_manager.cpp:182-188 | after increasing packets in order, a repeat is forwarded again exactly when at least 100 x feeds newer packets came since |
| `Deduplication.HundredIsEnoughIff` | networking/network_manager.cpp:182-188 | a packet has aged out after 100 newer ones exactly when there is at most one feed |
| `Deduplication.ChannelWindowIff` | networking/network_manager.cpp:182-188 | in every run a repeat is dropped exactly when the newer keys of its channel and all keys of higher channels are fewer than 100 x feeds |
| `Deduplication.LowChannelNeverDeduplicated` | networking/network_manager.cpp:182-188 | once higher channels brought 100 x feeds keys, every packet of a lower channel is forwarded, repeats included, whatever else arrives |
| `Deduplication.QuietChannelForgotten` | networking/network_manager.cpp:182-188 | a channel's only packet is forwarded a second time with nothing newer on the channel |
| `MessageBodies.ParseQuote` | messages/message_i081.cpp:82-121 | reads kind, sign, price, size and level of one entry, or fails on a bad nibble |
| `MessageBodies.ParseI081Body` | messages/message_i081.cpp:16-126 | all reads in bounds; returns the message or fails, as the specification says |
| `MessageBodies.ParseI083Body` | messages/message_i083.cpp:16-128 | all reads in bounds; returns the message or fails, as the specification says |
| `MessageBodies.UpdateParsesIff` | messages/message_i081.cpp:26-125 | a body parses exactly when it is long enough for its declared entries and all their nibbles are decimal |
| `MessageBodies.SnapshotParsesIff` | messages/message_i083.cpp:26-127 | the same for I083 |
| `MessageBodies.UpdateRoundTrip` | messages/message_i081.cpp:35-125 | the wire image of any I081 in range, with anything after it, parses to that message, its sequence modulo 2^32 |
| `MessageBodies.SnapshotRoundTrip` | messages/message_i083.cpp:35-127 | the same for I083 |
| `MessageBodies.UpdateFields` | messages/message_i081.cpp:35-125 | from which bytes every field of a parsed I081 and of its entries comes |
| `MessageBodies.SnapshotFields` | messages/message_i083.cpp:35-127 | the same for I083 |
| `ProductBody.ParseI010Body` | messages/message_i010.cpp:17-128 | all reads in bounds; returns the message or fails, as the specification says |
| `ProductBody.ProductParsesIff` | messages/message_i010.cpp:36-128 | a body parses exactly when it has 32 bytes and decimal nibbles in its BCD fields; the locator is one digit |
| `ProductBody.ProductFields` | messages/message_i010.cpp:42-128 | from which bytes every field of a parsed I010 comes |
| `ProductBody.ProductRoundTrip` | messages/message_i010.cpp:42-128 | every I010 in range is parsed back from its wire image, whatever follows |
| `OrderBook.OrderBook.Reset` | order_book/order_book.cpp:26-33 | everything but the identity is cleared |
| `OrderBook.OrderBook.ApplySnapshot` | order_book/order_book.cpp:105-161 | clears, stores the sequence and places each entry |
| `OrderBook.OrderBook.ApplyUpdate` | order_book/order_book.cpp:163-272 | advances the sequence and applies each entry in order |
| `OrderBook.OrderBook.GetTopBids` | order_book/order_book.cpp:43-54 | the min(n, size) highest bids, prices strictly falling, with their quantities; every bid left out is below all of them |
| `OrderBook.OrderBook.GetTopAsks` | order_book/order_book.cpp:56-67 | the min(n, size) lowest asks, prices strictly rising, with their quantities; every ask left out is above all of them |
| `OrderBook.TakeBest` | order_book/order_book.cpp:43-67 | the iteration behind both queries |
| `OrderBookLaws.LastWriterWins` | order_book/order_book.cpp:182-271 | after any raw entries each price, side and derived quote shows the outcome of the last entry that writes it, by the bytes of kind, action and sign |
| `OrderBookLaws.ReorderAcrossSlots` | order_book/order_book.cpp:182-271 | entry lists that agree on each slot's own writers build the same book |
| `OrderBookLaws.DifferentSlotsCommute` | order_book/order_book.cpp:182-271 | neighbouring entries on different prices or sides commute |
| `OrderBookLaws.OldUpdateIgnoredIff` | order_book/order_book.cpp:170-179 | an old I081 changes nothing exactly when every slot it writes already shows its outcome |
| `OrderBookLaws.OldUpdateApplied` | order_book/order_book.cpp:170-179 | a concrete book that an old I081 changes |
| `OrderBookLaws.SnapshotIsReplay` | order_book/order_book.cpp:105-161 | a snapshot equals a reset followed by its entries as New and Overlay updates, sequence included |
| `OrderBookLaws.SuffixDecides` | order_book/order_book.cpp:26-33 | in any run only the last snapshot or reset and what follows decide the book |
| `OrderBookLaws.SequenceIsMaximum` | order_book/order_book.cpp:170-172 | after updates the stored sequence is the maximum of the starting one and theirs |
| `OrderBookLaws.SequenceSinceSnapshot` | order_book/order_book.cpp:105-172 | in any run the stored sequence is the maximum since the last snapshot or reset |
| `OrderBookLaws.RunKeepsIdentity` | order_book/order_book.cpp:26-33 | no operation changes the product or its decimal locator |
| `OrderBookLaws.LocatorPlaysNoPart` | order_book/order_book.cpp:94-272 | books that differ only in product and locator differ only in those after every run |
| `OrderBookLaws.ScalingIff` | order_book/order_book.cpp:94-272 | scaling all prices of both messages by the locator would leave every run of the book as it is exactly when the locator is 0 |
| `OrderBookLaws.ScalingShows` | order_book/order_book.cpp:94-161 | with any other locator one snapshot with one bid at price 1 tells the two apart |
| `OrderBookRecovery.EveryRunIsSound` | order_book/order_book.cpp:119-159 | in every run, whatever the messages, levels have a positive quantity and no derived quote is (0, 0) |
| `OrderBookRecovery.FullQueryIsSide` | order_book/order_book.cpp:43-67 | a query for at least the whole side returns exactly its levels |
| `OrderBookRecovery.QueriesRestoreBook` | order_book/order_book.cpp:86-161 | a snapshot built from the full queries and derived quotes reproduces the book's levels in any book |
| `OrderBookRecovery.RestoreOverTheWire` | messages/message_i083.cpp:35-127 | that snapshot, encoded and parsed again, still reproduces them whenever it has fewer than 100 entries |
| `TaifexSdk.TaifexSdk.IsSequenceValid` | sdk/taifex_sdk.cpp:353-381 | verdict, stored number and gap report, as the specification says |
| `TaifexSdk.TaifexSdk.ProcessMessage` | sdk/taifex_sdk.cpp:51-117 | only a frame that passes every check reaches sequence tracking; throws exactly on a bad header nibble that is read |
| `TaifexSdk.TaifexSdk.GetOrCreateOrderBook` | sdk/taifex_sdk.cpp:221-252 | an existing book is returned; a new one needs the base product's cached locator |
| `TaifexSdk.TaifexSdk.HandleI010` | sdk/taifex_sdk.cpp:259-279 | a body that parses is cached under its ten-byte product key; any other changes nothing |
| `TaifexSdk.TaifexSdk.HandleI081` | sdk/taifex_sdk.cpp:282-302 | a body that parses updates its own product's book in place and no other |
| `TaifexSdk.TaifexSdk.HandleI083` | sdk/taifex_sdk.cpp:304-323 | a body that parses replaces its own product's book in place and no other |
| `TaifexSdk.TaifexSdk.HandleI002` | sdk/taifex_sdk.cpp:330-351 | throws on a bad channel nibble before anything changes; otherwise clears every book and restarts the one channel |
| `SdkRuns.StepProjects` | sdk/taifex_sdk.cpp:221-351 | one step changes a product's book only through its own message or a reset |
| `SdkRuns.BookIsOwnFold` | sdk/taifex_sdk.cpp:221-351 | in every run each book is the fold of its own messages and resets from the first message after its base I010, with the locator cached then |
| `SdkRuns.NoBookBeforeCreation` | sdk/taifex_sdk.cpp:227-251 | without such a message the book does not exist |
| `SdkRuns.EveryBookInRange` | messages/message_i081.cpp:90-110 | in every book reachable from raw bodies prices, quantities, derived quotes and the locator are in range |
| `SdkRuns.LocatorFromOwnPrefix` | sdk/taifex_sdk.cpp:190-252 | every book that raw bodies can produce has the locator of an I010 whose key is the first ten bytes of the book's identifier |
| `SdkRuns.BaseProductIs` | sdk/taifex_sdk.cpp:190-219 | the key looked up is what precedes the first slash or, without one, the first ten bytes |
| `SdkRuns.BookPossibleIff` | sdk/taifex_sdk.cpp:190-252 | over all runs on raw bodies, a product can get a book exactly when its 20-byte identifier has no slash or its first slash is the eleventh byte |
| `SdkRuns.SpreadHasNoBook` | sdk/taifex_sdk.cpp:190-252 | in no such run an identifier with a slash among its first ten bytes has a book |
| `SequenceTracking.GapPartition` | sdk/taifex_sdk.cpp:353-381 | from any state that tracks a channel until its next reset: earlier reports stay, the stored number is the maximum, and every number up to it either advanced the channel or lies in exactly one newly reported gap |
| `SequenceTracking.EpochPartition` | sdk/taifex_sdk.cpp:330-381 | the same in every run from the start, counted from the channel's last reset with base 0 or, if it was never reset, from its first message with base that number |
| `SequenceTracking.TrackedIff` | sdk/taifex_sdk.cpp:330-381 | a channel is tracked after a run exactly when such a reset or first message exists |
| `SequenceTracking.VerdictsTrueIff` | sdk/taifex_sdk.cpp:353-381 | between resets every verdict on a channel is true exactly when its numbers are consecutive, and then no gap is reported and the last number is stored |
| `SequenceTracking.NewChannelVerdictsIff` | sdk/taifex_sdk.cpp:353-381 | on a channel not tracked yet and not reset every verdict is true exactly when its numbers are consecutive from its first one, which is always accepted |
| `SequenceTracking.VerdictOn` | sdk/taifex_sdk.cpp:51-117 | the verdict on any bytes, from the bytes: rejected, thrown on, or accepted with channel and number |
| `SequenceTracking.BuiltFrameAccepted` | sdk/taifex_sdk.cpp:65-109 | a frame built as prescribed is accepted with the channel and number of its header |
| `SequenceTracking.OneByteChangeIff` | sdk/taifex_sdk.cpp:65-113 | one changed byte leaves an accepted frame acceptable exactly when it is the ESC byte or a terminal-code byte |
| `Pipeline.DeduplicationInvisibleIff` | networking/network_manager.cpp:155-205 | for any arrivals off the wire, lost, repeated, reordered, retransmitted or damaged: the SDK always stands where it would if every packet had reached it exactly when no valid frame is dropped before an equal or later one of its channel came |
| `Pipeline.DeduplicationIsInvisible` | networking/network_manager.cpp:155-205 | it does so whenever multicast packets with one key are judged alike |
| `Pipeline.DroppedCopyIff` | networking/network_manager.cpp:163-191 | of two packets with one key the drop of the second does not show exactly when the first is valid or the second would have had no effect |
| `Pipeline.DamagedCopyHidesGood` | networking/network_manager.cpp:163-191 | a copy with a damaged check sum on one feed keeps the intact copy of the other from the SDK |
| `Pipeline.TwoFeedsAreOne` | networking/network_manager.cpp:155-205 | two feeds with the same valid frames of any channels, interleaved in any way and with any lag, bring the SDK exactly where one perfect feed does |
| `Pipeline.RedundantFeedsAreGapless` | networking/network_manager.cpp:155-205 | if the frames continue their channels or start new ones, that is at the leading feed's latest numbers, with no gap reported |
| `Pipeline.OneChannelIsGapless` | networking/network_manager.cpp:155-205 | for one channel, tracked or new, it is at the number of the leading feed's last frame |

## Left out

- Sockets, threads and atomics: `receive_loop`, `start`, multicast reception and the failover between retransmission servers; steps are atomic and send or receive results are inputs.
- The socket descriptor: it is folded into `connected`, since every assignment to one accompanies the other in sequential runs.
- An exception leaves the receive buffer as it was; the model stops processing from there on.
- Exceptions thrown by callbacks, and the null-pointer checks on data and on the SDK pointer.
- `calculate_check_code`: the login check code is an input.
- `message_identifier.cpp`, which maps codes to message types, and the I001 and I002 body parsers, which accept bodies of 0 or 3 bytes and read nothing.
- Logging, string utilities, the log file packet simulator and the examples.
- RetransmissionProtocol.OneByteCorruption: it starts from frames that decode in the first place, so not from a DataResponse102 of more than 65512 data bytes (`RoundTripIff`).
- PackBcd.DecodeNumber: the overflow of conversions above 19 digits; no caller asks for more than ten.
- Sdk events carry parsed bodies; `SdkRuns.HandlersAreSteps` ties them to the handlers for raw bodies.
- Platforms whose `unsigned long` has 32 bits, where a ten-digit PROD-MSG-SEQ above 4294967295 fails to parse instead of being reduced.
