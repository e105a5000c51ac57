# Torr: a verified model

This project models the parts of the BitTorrent client Torr that interpret bytes and coordinate
processes, and proves what they do over whole inputs and whole runs. `dafny verify dfyconfig.toml`
checks all of it.

* **Bencode** (`Decimal`, `TargetTree`, `Bencode`, `BencodeMachine`, `BencodeSimulation`, `BencodeTheorems`,
  `BencodeMap`, `BencodeAccess`). `bencode_map` reads one byte at a time, without recursion, and keeps a
  stack of raw pointers into the tree it is building. `Bencode` gives the recursive grammar and the meaning
  of a value, `BencodeMachine` the byte machine as a function, `BencodeMap` the class with its fields
  updated in place and its cursor. The machine is proved to simulate the grammar at any nesting depth, and
  to succeed on exactly the well-formed values; any chain of subscripts finds in the parsed tree what it
  means in the document. A `target*` is modelled as the path from `m_root` to the node, followed again at
  each use, so a write through any pointer is seen from the root; that no `push_back` or map assignment
  moves or replaces a node that is still pointed to is proved.
* **Torrent files** (`TorrentFile`). Validation, the accesses after it, and the bytes of the info hash.
* **HTTP and UDP announce** (`Http`, `CompactPeers`, `Endian`, `Tracker`). The growing receive buffer,
  the removal of the header, parsing with the zero bytes left in the buffer, and the peer list, composed
  into one statement from received chunks to peers.
* **Piece bitfields** (`Bits`, `DynamicBitset`, `Selection`). Masked bytes as sets, the search for a
  missing piece under every skip count, and the selection loop.
* **Peer connection** (`Stream`, `PeerWire`, `PeerMachine`, `Reception`, `PieceNumbers`, `TorrentPeer`,
  `VectorGrowth`, `DownloadRun`, `Completion`, `Sending`, `WorkerRun`, `MultiprocTask`). The handlers on
  messages that arrive completely (`PeerMachine`), and on any bytes cut anywhere (`Reception`), which is
  what the class does; requesting and assembling a piece; whole runs against any peer, and against one that
  answers in order, from the bytes received to the bytes sent, the pieces notified and the frames in the
  FIFO, and which pieces those are when selection and download go on together. A connection
  ends closed or broken. A vector is its elements and what its allocation holds behind them, because the
  source sends a vector's whole capacity and keeps its allocation when it clears it.
* **Worker-to-parent channel** (`Channel`, `BoundedChannel`, `PieceFile`, `Multiproc`, `Delivery`). Any
  number of processes writing to one FIFO under one semaphore, as an interleaving transition system; the
  same with the parent that reads it and with a FIFO of bounded room; and what of the peers' content gets
  into the parent's files.

Classes of the source are classes here, with its fields and loops; each method is proved against a
function of the old state, and the lemmas are about those functions. A call that can throw, abort or be
undefined returns an `Outcome`; the fields after a call that ended so are not described.
SHA-1 is a parameter. Random skip counts, what a receive reports, the clock, the bits and bytes other
processes write, and what memory holds that the program has not written are parameters that range over
everything.

## Where the code does not keep a promise

Each of these is proved: a concrete input, and when the code does keep the promise, which is exactly then
unless only "if" is said.

* Empty strings and keys are not parsed: `0:` wraps the countdown (`BencodeTheorems.EmptyStringSwallows`).
  Parsing succeeds on exactly the well-formed values (`BencodeTheorems.ParsesExactlyWellFormed`).
* The comment on the search (source/generic/dynamic_bitset.hpp:116-119) promises an index that is set there
  and clear here. The search looks into one differing byte only (`Bits.SearchOverlooks`). It overlooks
  nothing, whatever the skip count, exactly if nothing is missing or every differing byte lacks a bit
  (`Bits.SearchCompleteExactly`).
* A message header is read by a single receive, so a header cut by TCP is misread
  (`Reception.CutUnchokeChokes`); it is read whole exactly if it arrived in one segment
  (`Stream.FixedReadExactly`).
* A block message of length 1 to 8 wraps its payload length. Then the vector refuses the new size, or the
  data shrinks and the next receive is handed bytes beyond its end (`Reception.ShortBlockLeavesBuffer`,
  `Reception.StaysInsideExactly`).
* A peer that closes its connection inside a block makes the receive loop run for ever, exactly if the
  payload is not complete (`Reception.StaysInsideExactly`); between messages its end reads as keep-alives
  (`Reception.ClosedReadsAsKeepAlive`).
* A bitfield is kept with its bits in mirrored order, and a `have` with its index in the byte order of the
  host, so other pieces are taken to be there (`PieceNumbers.FirstPieceIsTakenForEighth`,
  `PieceNumbers.HaveIsLost`). A bitfield is kept right exactly if its bytes are palindromes
  (`PieceNumbers.BitfieldKeptExactly`), a `have` exactly if its index reads the same in both orders
  (`PieceNumbers.HaveKeptExactly`).
* A keep-alive is read with one byte of the next message, unless nothing follows it in its segment
  (`Reception.KeepAliveTakesNext`), and sent with one byte too many, so that its peer reads what follows with
  a length of at least 2^24 (`Sending.KeepAliveShiftsNext`); everything else that is sent is a whole message
  (`Sending.WholeExceptKeepAlive`).
* Request offsets wrap once the last one is 2^32 or more: from the start of a piece with more than 2^18 blocks
  (`PeerMachine.OffsetsWrap`, `PeerMachine.RequestsTileExactly`).
* Unchoked again inside a piece, the worker requests the blocks still missing and as many behind them as have
  come, all beyond the whole blocks of the piece (`Sending.RequestedAgain`).
* A piece that is not whole blocks never completes (`DownloadRun.PartialBlockWaits`); with whole blocks
  every piece does (`DownloadRun.EveryPieceCompletes`).
* After a failed selection the finished piece is notified again, bytes and all, by every further message
  that selects nothing (`DownloadRun.LastPieceTwice`, `DownloadRun.NotifiedAgainAndAgain`,
  `PeerMachine.StaleNotification`).
* The capacity of a vector is sent, not its size. With three blocks in a vector that doubles, a fourth
  block's room is sent along (`VectorGrowth.ThreeBlocks`). For any policy of growth the notified pieces
  are the peer's exactly if the blocks of a piece end up in an allocation of its length
  (`DownloadRun.NotifiedExactlyByGrowth`), which with doubling means a power of two of blocks
  (`VectorGrowth.DoublingFitsPowersOfTwo`).
* A worker selects its next piece while the parent may not have marked the last one, so it can download and
  notify the same piece twice (`Completion.SamePieceTwice`). It notifies none twice if every selection
  sees the pieces notified so far (`Completion.NotifiedOnce`).
* The semaphore is never unlinked. With a value left from an earlier run it admits two writers, and the
  stream cannot be read any more (`Channel.CollisionBreaksFraming`, `Channel.FramedExactlyIfPostedOnce`).
* The parent waits for the semaphore between the header and the data of a frame. Pieces can stop everything
  for good exactly if their frames have more bytes than the FIFO's room and one header; so any piece
  can, notified often enough (`BoundedChannel.DeadlockExactly`, `BoundedChannel.DeadlockWheneverRepeated`).
* The parent reads whole buffers, so it takes a second frame into the file of the first
  (`BoundedChannel.SecondFrameInFirstFile`). The files of a run are the pieces exactly if nothing else
  is ever queued, or the buffer is no larger than the piece (`BoundedChannel.FilesAreRightExactly`).
* In such a run no piece with more data than the FIFO's room is ever completed; a piece can get through
  exactly if it has no more (`Delivery.CompletedPiecesFit`, `Delivery.DeliversExactly`).
* The parent counts a piece down in a signed 32-bit integer. A read far enough beyond the piece wraps it, and
  the parent waits for bytes that do not come (`PieceFile.CountdownWraps`, `PieceFile.StopsExactly`).

## Model

| member | source | states |
|---|---|---|
| Decimal.StolOfIntText | source/generic/bencode_map.hpp:110-123 | the accumulated text of a printed integer is read back as that integer if it fits 64 bits; otherwise the call throws |
| Decimal.StolOfAnyDigits | source/generic/bencode_map.hpp:110-123 | any digits, zeros in front included, with or without `-`, are read as the number they denote or throw out of range, and what does not continue them is ignored |
| Decimal.StolNeedsDigit | source/generic/bencode_map.hpp:110-123 | the call throws invalid argument if and only if there is no digit at the start or behind a `-` there |
| TargetTree.GraftGraft | source/generic/bencode_map.hpp:156-160 | two successive changes along one open path are one change, with the raw bytes of both noted in order by every container above |
| TargetTree.GraftExtend | source/generic/bencode_map.hpp:76-96 | changing a child through its own pointer is changing it through its parent |
| Bencode.DenoteEntriesIsLastWins | source/generic/bencode_map.hpp:88-89 | a dictionary holds exactly the keys written, each with the last value written for it |
| Decimal.DigitsArePositional | source/generic/bencode_map.hpp:110-123 | every digit of a printed number is its decimal digit at that place, and there are no more than needed |
| BencodeMachine.PushToTarget | source/generic/bencode_map.hpp:65-98 | delivering any child keeps the queue equal to the chain of containers from the root to the innermost open one |
| BencodeMachine.EndTarget | source/generic/bencode_map.hpp:100-103 | closing a container keeps the queue a chain of open containers; with an empty queue the call is undefined |
| BencodeMachine.ConsumeByte | source/generic/bencode_map.hpp:162-193 | every byte, on any input, keeps the queue invariant or ends in a fault |
| BencodeMachine.Run | source/generic/bencode_map.hpp:201-217 | the queue invariant holds after any bytes at all |
| BencodeMachine.RunConcat | source/generic/bencode_map.hpp:201-217 | two buffers in a row leave the state, or the fault, of their concatenation: parsing does not depend on how the input is cut |
| BencodeSimulation.RunStr | source/generic/bencode_map.hpp:147-183 | a non-empty string of any bytes is delivered as one leaf, and its whole text is noted by every open container |
| BencodeSimulation.RunInt | source/generic/bencode_map.hpp:120-172 | an integer is delivered as one leaf if it fits 64 bits, and otherwise `stol` throws |
| BencodeSimulation.RunEncode | source/generic/bencode_map.hpp:65-193 | at any point where a value is expected, feeding the encoding of a well-formed value of any nesting has exactly the effect of inserting its tree and noting its text in all open containers |
| BencodeSimulation.RunItems | source/generic/bencode_map.hpp:76-80 | the items of a list arrive in order behind those already there |
| BencodeSimulation.RunEntries | source/generic/bencode_map.hpp:82-90 | the entries of a dictionary are merged into it, later ones winning, and no key is left pending |
| BencodeTheorems.ParseEncoded | source/generic/bencode_map.hpp:65-193 | a fresh parser ends between values, with an empty queue and the tree of the value as its root |
| BencodeTheorems.ParsesExactlyWellFormed | source/generic/bencode_map.hpp:110-183 | on encodings below 2^64 bytes parsing succeeds if and only if strings and keys are non-empty and below 2^63 bytes and integers fit 64 bits; on all other values it throws or is left inside a word |
| BencodeTheorems.EmptyStringSwallows | source/generic/bencode_map.hpp:110-183 | `0:` and any byte: the byte is taken into a word with 2^64 - 1 bytes to go |
| BencodeTheorems.PaddingIgnored | source/generic/bencode_map.hpp:144-146 | after a complete value any run of zero bytes leaves the whole state unchanged |
| BencodeTheorems.JunkByte | source/generic/bencode_map.hpp:126-154 | between values a byte that starts no value and ends no container is only noted |
| BencodeAccess.DelimitersAreAlike | source/generic/bencode_map.hpp:166-190 | any byte but a digit ends a length, and any but a digit and `-` an integer |
| BencodeTheorems.KeyMustBeString | source/generic/bencode_map.hpp:82-97 | what stands for a key and is no string is dropped and changes nothing, and a container there is not opened |
| BencodeTheorems.PartsOfTree | source/generic/bencode_map.hpp:219-231 | the paths of the tree are those of the value, and each leads to the tree of that part |
| BencodeTheorems.RawRecordsAreSlices | source/generic/bencode_map.hpp:156-165 | with raw storing on, every list and dictionary at every depth records its own slice of the input without the opening byte; with that byte in front it is the encoding of the part, and it stands in the input |
| BencodeTheorems.QueueIsOpenPath | source/generic/bencode_map.hpp:65-103 | after every prefix of a well-formed value the queue is exactly the root-to-current path of its open containers; no pop finds it empty, and for a container it empties at the last byte and not before |
| BencodeTheorems.QueuedPointersStayValid | source/generic/bencode_map.hpp:74-97 | after any input, each queued pointer leads to a container open in the one before, and the next delivery neither moves nor replaces a queued node |
| BencodeMap.BencodeMap.PushToTarget | source/generic/bencode_map.hpp:65-98 | the method changes the fields as the machine says, invariant kept |
| BencodeMap.BencodeMap.EndTarget | source/generic/bencode_map.hpp:100-103 | pops the innermost container, or is undefined |
| BencodeMap.BencodeMap.SwitchState | source/generic/bencode_map.hpp:105-124 | finishes a length, a word or an integer as the machine says, with the same exceptions |
| BencodeMap.BencodeMap.ConsumeState | source/generic/bencode_map.hpp:126-154 | starts or ends a value as the machine says |
| BencodeMap.BencodeMap.PushRawBencode | source/generic/bencode_map.hpp:156-160 | the loop over the queue notes the byte in every open container, each through its own pointer, and changes nothing else |
| BencodeMap.BencodeMap.ConsumeByte | source/generic/bencode_map.hpp:162-193 | one byte changes the fields as the machine says |
| BencodeMap.BencodeMap.FromBuffer | source/generic/bencode_map.hpp:201-217 | the loop runs the machine over the buffer and puts the cursor on the root |
| BencodeMap.BencodeMap.At | source/generic/bencode_map.hpp:219-231 | a subscript moves the cursor to the child, is ignored on a node of another kind, and throws without moving if there is no such child |
| BencodeMap.LookupIndex | source/generic/bencode_map.hpp:219-224 | a number finds that element of a list or throws, and is ignored on any other node |
| BencodeMap.LookupAlong | source/generic/bencode_map.hpp:219-231 | along any path of any tree the subscripts find the node at its end |
| BencodeAccess.AccessFinds | source/generic/bencode_map.hpp:201-231 | for every well-formed document and any subscripts: after parsing they find the tree of what they mean in the document, and throw exactly if they mean nothing |
| BencodeAccess.DocumentRead | tests/bencode_map/bencode.cpp:5-20 | a document with a list inside, byte by byte: its first, second and nested items are found as written, and a fourth throws |
| BencodeMap.BencodeMap.TypeAt | source/generic/bencode_map.hpp:219-238 | a complete access sees the node found from the root, whatever was accessed before, and returns the cursor to the root |
| BencodeMap.BencodeMap.StrAt | source/generic/bencode_map.hpp:240-246 | the text of the node found from the root, or a failed assertion if it is not a string |
| BencodeMap.BencodeMap.IntAt | source/generic/bencode_map.hpp:248-254 | the number of the node found from the root, or a failed assertion if it is not an integer |
| BencodeMap.BencodeMap.RawAt | source/generic/bencode_map.hpp:256-261 | the raw record of the node found from the root |
| TorrentFile.Validate | source/torrent.hpp:41-52 | true if and only if the root is a dictionary with a string `announce` and a dictionary `info` with an integer `piece length` and a string `pieces`; any exception is a missing key |
| TorrentFile.TorrentFile.FromPath | source/torrent_file.cpp:38-68 | loads exactly when parsing succeeds on a tree of that shape; then piece length, hash and announce address are the ones in the tree, and otherwise nothing changes; a file that is the encoding of a well-formed value loads exactly if the value is a torrent, and what is kept is what its last entries say, the hash that of the encoding of `info` |
| TorrentFile.TorrentFile.Read | source/torrent_file.cpp:54-67 | after validation none of the assertions behind the accesses can fail |
| TorrentFile.LoadsExactlyTorrents | source/torrent_file.cpp:38-68 | a file holding one well-formed value has a tree of the required shape if and only if the value is a torrent, last keys counting; then the hashed bytes are the encoding of the `info` value and a slice of the file |
| TorrentFile.SmallTorrentLoads | source/torrent_file.cpp:38-68 | a file byte by byte, with its four keys spelled: it loads, and the announce address, the piece length and the hashed bytes are those written |
| Endian.HtonllSwaps | source/network/socket/endian.hpp:6-7 | two swapped 32-bit halves make the swapped 64-bit value |
| Endian.WrapRoundTrips | source/network/socket/endian.hpp:9-37 | every 16-, 32- and 64-bit value read back from its wrapper is unchanged |
| Endian.WrapMemory16 | source/network/socket/endian.hpp:9-17 | 16-bit wrappers lie in memory most significant byte first |
| Endian.WrapMemory32 | source/network/socket/endian.hpp:19-27 | 32-bit wrappers lie in memory most significant byte first |
| Endian.WrapMemory64 | source/network/socket/endian.hpp:29-37 | 64-bit wrappers lie in memory as their upper half, then their lower half, each most significant byte first |
| Http.Http.Receive | source/network/socket/http.cpp:100-106 | the buffer always has room for the next receive; at the end it is the received bytes in order, then 1024 bytes of what the buffer held there before, zeros on a fresh object |
| Http.Http.StripHeader | source/network/socket/http.cpp:108-120 | keeps exactly what follows the first line break that has only carriage returns between it and the line break before, or everything if there is none |
| Http.Http.GetRequest | source/network/socket/http.cpp:65-123 | on a fresh object the result is what follows the first empty line of the received bytes and 1024 zeros |
| Http.BlankLineOfResponse | source/network/socket/http.cpp:108-120 | in a response with header lines ended by CR LF the first empty line is the one that ends the header, whatever the body |
| CompactPeers.RecordPreserved | source/network/tracker.cpp:244-251 | decoding keeps the four address bytes and two port bytes of every record, and a record ends the list if and only if its six bytes are zero |
| CompactPeers.DecodesMaximalRun | source/network/tracker.cpp:239-252 | for any bytes the peers are those of the maximal run of non-zero records in the first 6144 bytes, zero-padded |
| CompactPeers.DecodeEncoded | source/network/tracker.cpp:239-252 | decoding an encoded list returns it up to its first all-zero peer and at most 1024 peers |
| Tracker.Tracker.PushPeers | source/network/tracker.cpp:244-252 | the loop appends exactly the decoded peers to those known before |
| Tracker.Tracker.UdpAnnounce | source/network/tracker.cpp:123-151 | the reply is refused if too short, of another transaction or action, in that order, and changes nothing; otherwise the interval is stored and the peers replace the old ones; for every reply that encodes fields and peers it is accepted exactly with this transaction and action 1, and then interval and peers are those encoded, at most 1024 |
| Tracker.ReplyDecodes | source/network/tracker.cpp:123-151 | for all fields and peers: 20 bytes of big-endian integers and the records are read back as what they encode, and refused exactly by transaction, then action |
| Tracker.OneReply | source/network/tracker.hpp:122-127 | a reply byte by byte: transaction 7, 1800 seconds, one peer 127.0.0.1:8080 |
| Tracker.Tracker.HttpAnnounce | source/network/tracker.cpp:230-254 | for any split of the response into receives, a header, an empty line and a bencoded dictionary with the compact encoding of peers under `peers` adds exactly those peers, up to the first all-zero one and at most 1024 |
| Tracker.AnnounceDelivers | source/network/tracker.cpp:230-252 | the stages composed: the body is found, parsing ignores the zeros behind it, and decoding returns the peers |
| Tracker.OneResponse | source/network/tracker.cpp:230-254 | a response byte by byte, with the key `peers` spelled: it is one of those for which the announce is proved to deliver its peer |
| Bits.BitIsDigit | source/generic/dynamic_bitset.hpp:95-100 | bit k of a byte is its binary digit of weight 2^k |
| Bits.WithBitAdds | source/generic/dynamic_bitset.hpp:79-85 | setting an index in range adds it to the set and nothing else; out of range nothing changes |
| Bits.WithoutBitRemoves | source/generic/dynamic_bitset.hpp:87-93 | clearing an index removes it from the set and nothing else |
| Bits.MembersInjective | source/generic/dynamic_bitset.hpp:72-100 | bytes of one length are determined by the set of their bits |
| Bits.SearchFinds | source/generic/dynamic_bitset.hpp:120-160 | what is found is missing, and is the least missing index of the mismatched byte number min(skips, mismatches - 1) |
| Bits.SearchFailsExactly | source/generic/dynamic_bitset.hpp:138-160 | nothing is found if and only if no byte differs or the inspected byte lacks nothing |
| Bits.SearchCompleteExactly | source/generic/dynamic_bitset.hpp:116-160 | no skip count overlooks a missing index if and only if nothing is missing or ours lacks a bit of theirs in every byte that differs |
| Bits.SearchWithoutSkips | source/generic/dynamic_bitset.hpp:138-160 | without skips, what is found is the least missing index of all |
| Bits.SearchCompleteWithin | source/generic/dynamic_bitset.hpp:120-160 | if ours lie within theirs on the common bytes, every skip count finds something if and only if something is missing |
| Bits.SearchOverlooks | source/generic/dynamic_bitset.hpp:116-160 | a concrete pair for which a missing index exists and is not found |
| DynamicBitset.DynamicBitset.BitSet | source/generic/dynamic_bitset.hpp:79-85 | in place, on own or foreign bytes: adds the index if in range, reports that, touches no byte beyond |
| DynamicBitset.DynamicBitset.BitClear | source/generic/dynamic_bitset.hpp:87-93 | in place: removes the index, touches no byte beyond |
| DynamicBitset.DynamicBitset.BitGet | source/generic/dynamic_bitset.hpp:95-100 | membership in the set, false out of range |
| DynamicBitset.DynamicBitset.FromExistingBuffer | source/generic/dynamic_bitset.hpp:109-114 | afterwards the foreign bytes are the ones read and written |
| DynamicBitset.DynamicBitset.FindPositiveBitCompliment | source/generic/dynamic_bitset.hpp:120-160 | the loops compute the search for every pair of bitsets and every skip count |
| Selection.SelectionFinishes | source/network/peer/peer.cpp:230-239 | with ours within theirs, every round of selecting and setting picks a different missing piece until none is left, under every sequence of skips |
| Selection.SelectionEndsEqual | source/network/peer/peer.cpp:230-239 | after exactly as many rounds as pieces were missing, exactly those were picked, the common bytes are equal and every further search fails |
| Selection.SharedBitsAreHandledPieces | source/ipc/ipc.cpp:105-113 | over any run the shared bits are the in-range indices handled since the last construction of the shared memory, in whichever process it happened |
| Stream.FixedReadExactly | source/network/socket/tcp.cpp:65-79 | a single receive leaves the stream behind a structure if and only if the structure arrived in one segment |
| PeerWire.FrameBytes | source/network/peer/peer.hpp:20-38 | choke, unchoke, interested, not interested and have, byte by byte |
| PeerWire.BitfieldBytes | source/network/peer/peer.hpp:20-38 | a bitfield byte by byte: length high byte first, type 5, bits |
| PeerWire.BlockBytes | source/network/peer/peer.hpp:20-38 | a block byte by byte: length, type 7, index and offset high byte first, payload |
| PeerWire.PacketBytes | source/network/peer/peer.cpp:402-461 | everything that is sent, byte by byte: interested is type 2, a have type 4 with its index, a request type 6 with its three fields, high byte first |
| PeerWire.FrameInjective | source/network/peer/peer.hpp:35-38 | a framed message determines itself and where the next one starts |
| PeerWire.ArrivesAlone | source/network/peer/peer.cpp:168-170 | at most one message is next in a stream, and with it where the stream goes on |
| PeerWire.RequestDecodes | source/network/peer/peer.cpp:424-436 | the 17 bytes of a request decode to its index, offset and length |
| Reception.StaysInsideExactly | source/network/peer/peer.cpp:343-368 | for every length and every count the receives of a payload stay inside the data if and only if the length is 0, at least 9, or the count is below 9 minus the length, in which last case the vector refuses the size; and they go on for ever if and only if the connection is closed before the payload is complete |
| Reception.ShortBlockLeavesBuffer | source/network/peer/peer.cpp:343-364 | a block message of length 1 behind one block: the data shrinks to 16376 bytes and the receive is handed bytes from 16384 on |
| Reception.ArrivingIsHandled | source/network/peer/peer.cpp:163-222 | a message that arrives completely is handled as the model of messages says, and the stream goes on behind it, or behind the prefix of a block of another piece |
| Reception.HeaderAlone | source/network/peer/peer.cpp:168-222 | for any length: request, cancel, unknown types and a have of another length leave the connection as it is behind the header; unchoke, interested and not interested act; a choke acts with length 1, makes the socket healthy with more and is a keep-alive with none |
| Reception.BitfieldReceived | source/network/peer/peer.cpp:295-306 | the bytes of one receive stand at their places in the new array, what memory held behind them, and interest is sent |
| Reception.HaveReceived | source/network/peer/peer.cpp:280-293 | a have whose index is cut takes the bytes that came, low one first, over those the variable held |
| Reception.CutPrefixIsPayload | source/network/peer/peer.cpp:332-370 | when the prefix of a block is cut behind its index, the rest of its offset is taken for payload |
| Reception.KeepAliveTakesNext | source/network/peer/peer.cpp:168-180 | a keep-alive of four bytes is answered, and the stream goes on behind it if and only if nothing follows it in its segment |
| Reception.CutUnchokeChokes | source/network/peer/peer.cpp:168-180 | an unchoke arriving as four bytes and one byte chokes the connection and leaves a byte behind |
| Reception.ClosedReadsAsKeepAlive | source/network/socket/tcp.cpp:65-79 | behind the last byte of a closed connection a message reads as a keep-alive: it is answered once a second, and the second one in a second makes the socket unhealthy |
| PeerMachine.RequestsTileExactly | source/network/peer/peer.cpp:410-434 | from the byte downloaded to, the requests tile as many blocks as a piece has, in order, if and only if the last begins below 2^32 |
| PeerMachine.TilesCover | source/network/peer/peer.cpp:410-434 | tiles are disjoint, ascending, and cover every byte of their blocks |
| PeerMachine.OffsetsWrap | source/network/peer/peer.cpp:413-433 | with 2^18 + 1 blocks the last request is the first again |
| PieceNumbers.KeptOfBitfield | source/network/peer/peer.cpp:295-306 | of any bitfield exactly the indices i are kept for which binary digit i mod 8 of byte i / 8 is set |
| PieceNumbers.BitfieldKeptExactly | source/network/peer/peer.cpp:295-306 | the indices kept are the pieces that the peer has, high bit first, if and only if every byte reads the same in both directions |
| PieceNumbers.FirstPieceIsTakenForEighth | source/network/peer/peer.cpp:295-306 | the byte 128, which says that the peer has the first of eight pieces, is kept as having only the last |
| PieceNumbers.HaveKeptExactly | source/network/peer/peer.cpp:280-293 | a have for a piece in range not yet there adds that piece if and only if its index reads the same in both byte orders |
| PieceNumbers.HaveIsLost | source/network/peer/peer.cpp:280-293 | with up to 2^21 bytes of bits a have for any of the pieces 1 to 255 adds nothing |
| PeerMachine.StaleNotification | source/network/peer/peer.cpp:496-500 | after a failed selection a message notifies nothing if and only if it is an unchoke that selects; otherwise the bytes of the finished piece are notified again, or zeros and the payload if the message is another block of it |
| TorrentPeer.TorrentPeer.FillOutstandingRequests | source/network/peer/peer.cpp:410-420 | the loop sends exactly the requests of the model, in order |
| TorrentPeer.TorrentPeer.DetermineDownloadPiece | source/network/peer/peer.cpp:230-245 | a found index starts an empty piece of the torrent's piece length; a failed search changes nothing |
| TorrentPeer.TorrentPeer.DownloadNextPiece | source/network/peer/peer.cpp:247-265 | selects if there is no piece, and requests unless choked or complete |
| TorrentPeer.TorrentPeer.FillPayload | source/network/peer/peer.cpp:361-368 | for every segmentation: the data are those before with the received bytes behind the count, and the loop ends when the payload is complete or the connection breaks; it never ends if the connection is closed before; and if the payload reaches beyond the data the first receive is undefined |
| TorrentPeer.TorrentPeer.ReceivePayload | source/network/peer/peer.cpp:359-381 | the 64-bit sum, the new size, the loop, and the count and announcements only after a complete payload; the announcements are, byte by byte, a have with the index and interested, if and only if the piece is complete then |
| TorrentPeer.TorrentPeer.ReceiveMessageBlock | source/network/peer/peer.cpp:332-384 | every outcome of a block of any length and segmentation: no prefix, refused index, refused size, undefined receive, endless loop, payload cut off, or payload appended, counted and announced when it completes the piece |
| TorrentPeer.TorrentPeer.ReceiveMessageHave | source/network/peer/peer.cpp:280-293 | sets the bit whose index the four bytes are in host order, those that did not come being what the variable held |
| TorrentPeer.TorrentPeer.ReceiveMessageBitfield | source/network/peer/peer.cpp:295-306 | the peer's bits become a new array with the received bytes at its start, and interest is sent unless the receive failed; when the bitfield came in one segment, exactly the indices are kept whose binary digits are set in its bytes, and 0, 0, 0, 1, 2 is sent |
| TorrentPeer.TorrentPeer.ReceiveMessage | source/network/peer/peer.cpp:163-222 | for every segmentation, every type and every length, on a connection that goes on, breaks or is closed: the new state, the rest of the stream and what is sent, or the fault; an unchoke cut behind its length chokes, and of a bitfield that arrives exactly the indices are kept whose binary digits are set |
| DownloadRun.StepKeepsInv | source/multiproc/multiproc.cpp:67-82 | every round against an honest peer keeps: the downloaded bytes are a prefix of the content, the open requests are the rest of the piece in order, and pieces and blocks account for every answer |
| VectorGrowth.DoublingFitsPowersOfTwo | source/network/peer/peer.cpp:359 | a vector that doubles ends up with the room of exactly the blocks put into it if and only if their number is a power of two |
| VectorGrowth.ThreeBlocks | source/network/peer/peer.cpp:359 | three blocks in a vector that doubles end up in the room of four |
| DownloadRun.NotifiedPiecesAreRight | source/network/peer/peer.cpp:230-384 | over any run, every piece notified before the first failed selection begins with the peer's content at its index, of the piece length, and is exactly that if every allocation is as large as it has to be |
| DownloadRun.NotifiedExactlyByGrowth | source/multiproc/multiproc.cpp:86-98 | with vectors that grow by some policy, over any run, every such piece is exactly the peer's content if and only if by that policy the blocks of a piece end up in an allocation of the piece length |
| DownloadRun.NothingIsLost | source/network/peer/peer.cpp:247-384 | until a selection fails, bytes downloaded and bytes requested add up to the whole blocks of the piece, so the peer always owes a block if pieces are whole blocks |
| DownloadRun.EveryPieceCompletes | source/network/peer/peer.cpp:247-384 | until a selection fails, the pieces notified are the blocks answered divided by the blocks of a piece, and the blocks downloaded since are the remainder; a piece of partial blocks takes its whole blocks and is never notified |
| DownloadRun.PartialBlockWaits | source/network/peer/peer.cpp:370-372 | a concrete run on a piece one byte longer than a block: nothing is owed and nothing notified |
| DownloadRun.NotifiedAgainAndAgain | source/multiproc/multiproc.cpp:72-76 | after a failed selection each further round that selects nothing notifies the same bytes once more |
| DownloadRun.NotifiedAfterFailure | source/multiproc/multiproc.cpp:72-76 | a round that notifies a piece and then selects nothing, and the rounds after it that select nothing: one notification each, all the same |
| DownloadRun.LastPieceTwice | source/network/peer/peer.cpp:496-500 | a concrete run: the only piece is notified by its block and again by the next message, each time with the whole allocation |
| Completion.NotifiedOnce | source/network/peer/peer.cpp:230-245 | if every selection after a piece sees the pieces notified so far and that one, no piece is notified twice before the first failed selection, over any run against an honest peer |
| Completion.SamePieceTwice | source/multiproc/multiproc.cpp:72-76 | a concrete run in which the next selection does not see the piece marked: the same piece is notified twice with no failed selection |
| Completion.MissingPiecesOnce | source/network/peer/peer.cpp:230-265 | selection and download together: ours within theirs and notified pieces marked, every piece notified before the first failed selection was missing, is notified once and begins with the peer's content, and at a failed selection they are all the missing ones |
| Completion.MissingPiecesArrive | source/multiproc/multiproc.cpp:67-82 | and with whole blocks they do arrive: once as many blocks are answered as all missing pieces have, every missing piece was notified exactly once |
| Sending.AskedIsRequested | source/network/peer/peer.cpp:422-444 | what a peer reads in the packets sent, as 13-byte messages of type 6, are the requests of the model, in order and with their fields |
| Sending.PendingIsUnanswered | source/network/peer/peer.cpp:410-444 | over any run the requests an honest peer still has to answer are all those sent, without as many from the front as blocks have come |
| Sending.WholeExceptKeepAlive | source/network/peer/peer.cpp:396-461 | a packet is one whole message by its own length if and only if it is no keep-alive |
| Sending.KeepAliveShiftsNext | source/network/peer/peer.cpp:396-408 | behind a keep-alive the next packet begins as another keep-alive and then with a length of at least 2^24 |
| Sending.RequestedAgain | source/network/peer/peer.cpp:247-276 | choked and unchoked inside a piece, the open requests are sent again in order, and behind them as many as blocks have come, all beyond the whole blocks |
| Sending.ChokedRequestsNothing | source/network/peer/peer.cpp:247-250 | while a message leaves the connection choked, nothing is requested and no piece selected |
| Sending.AnnouncedAreNotified | source/network/peer/peer.cpp:372-381 | over any run against an honest peer in which no selection has failed, exactly the notified pieces are announced to the peer, in order |
| WorkerRun.BlockKeepsPrefix | source/network/peer/peer.cpp:356-370 | a block appends its whole payload to what was downloaded or, refused or cut off, changes nothing of it |
| WorkerRun.RoundAssembles | source/multiproc/multiproc.cpp:70-76 | a round on any bytes keeps the data equal to the payloads accepted since the selection, and notifies exactly those with what the allocation holds behind them |
| WorkerRun.DataIsWhatWasAccepted | source/network/peer/peer.cpp:230-370 | over any run, whatever the peer sends and however it is cut: while a piece is there, its count is within its data and the counted bytes are the payloads accepted since it was selected |
| WorkerRun.LoopFollowsRun | source/multiproc/multiproc.cpp:67-82 | a stream that carries the messages of a run, block payloads cut anywhere, makes the loop notify exactly the pieces of the run |
| WorkerRun.LoopSendsRun | source/multiproc/multiproc.cpp:67-82 | and sends exactly the packets of the run, in order |
| WorkerRun.PeerAnswersWhatWasSent | source/multiproc/multiproc.cpp:67-82 | from bytes to bytes: the requests that an honest peer still has to answer are those it reads in the packets the loop sent, without as many from the front as blocks have come |
| WorkerRun.StreamHoldsNotices | source/multiproc/multiproc.cpp:84-102 | over any run, whatever the peer sends: a reader of the FIFO finds what was there before, then for each notification the whole frames of other processes and this piece, each once; alone, exactly the pieces notified in order |
| WorkerRun.ClosedEndsWorker | source/multiproc/multiproc.cpp:67-82 | behind the last byte of a closed connection one keep-alive is sent, the second round in one second ends the worker, and nothing happens afterwards |
| WorkerRun.BytesToPieces | source/multiproc/multiproc.cpp:67-82 | from bytes to pieces: against an honest peer what is notified before the first failed selection begins with what the peer holds, and is exactly that if and only if vectors grow so that a piece ends up in an allocation of its length |
| MultiprocTask.MultiprocTask.NotifyDownloadedPiece | source/multiproc/multiproc.cpp:84-102 | waits for the semaphore, writes header and whole allocation as one frame, posts, and empties the piece, keeping its count and allocation |
| MultiprocTask.MultiprocTask.Round | source/multiproc/multiproc.cpp:70-79 | for every stream, segmentation and change of our bits before each selection, one round does what the model of a round says, or ends in its fault |
| MultiprocTask.MultiprocTask.Work | source/multiproc/multiproc.cpp:67-82 | for every stream and segmentation the loop leaves the connection, the requests sent, the pieces notified and the bytes in the FIFO that the model of the loop says |
| Channel.DeframeFrames | source/multiproc/multiproc.cpp:91-98 | a stream of whole frames is read back as their pieces, in order |
| Channel.StepConserves | source/multiproc/multiproc.cpp:96-99 | every step of every process conserves the semaphore's value plus its holders |
| Channel.StreamStaysFramed | source/multiproc/multiproc.cpp:84-102 | for any number of workers and any interleaving from a semaphore posted once: value plus holders is 1, the stream is whole frames and then a part of the holder's, and it reads as exactly the completed pieces in order |
| Channel.FramedExactlyIfPostedOnce | source/multiproc/multiproc.cpp:33-37 | every run of any number of workers leaves a readable stream if and only if the semaphore starts with at most one |
| Channel.CollisionBreaksFraming | source/multiproc/multiproc.cpp:33-37 | the concrete run of two workers that a second post admits |
| BoundedChannel.DataIsQueued | source/multiproc/multiproc.cpp:196-216 | while the parent has the semaphore nobody is inside a frame, so the whole data of the piece is in the FIFO and only whole frames behind it |
| BoundedChannel.FilesAreRightExactly | source/multiproc/multiproc.cpp:185-224 | over any run of any number of workers the files are the completed pieces, in order, if and only if at every handling nothing else was queued or the buffer was no larger than the piece |
| BoundedChannel.BufferIsWidest | source/multiproc/multiproc.cpp:212-216 | over any run with exact handlings the buffer is as large as the largest piece so far, and at least 65536 bytes |
| BoundedChannel.SecondFrameInFirstFile | source/multiproc/multiproc.cpp:216-220 | a concrete run: two small pieces are queued, and the first one's file gets the whole second frame |
| Delivery.CompletedPiecesFit | source/multiproc/multiproc.cpp:185-201 | over any run of any number of workers in which every handling is exact, no piece with more data than the FIFO's room is ever completed |
| Delivery.DeliversExactly | source/multiproc/multiproc.cpp:185-224 | a piece can get into a file in such a run if and only if there is a worker, it has no more data than the FIFO has room, and its size counts as positive |
| Delivery.FilesHoldContent | source/multiproc/multiproc.cpp:67-224 | from peers to files: if the workers' notifications come from honest runs and pieces end up in allocations of their length, over every run of any number of workers in which every handling is exact, every file is the peers' content at its index |
| BoundedChannel.DeadlockIsForever | source/multiproc/multiproc.cpp:185-201 | once a worker holds the semaphore inside its frame, the FIFO is full and the parent waits, nothing is ever written again |
| BoundedChannel.DeadlockExactly | source/multiproc/multiproc.cpp:185-201 | notifying some pieces can end in that if and only if there is a worker and their frames have more bytes than the FIFO's room and one header |
| BoundedChannel.DeadlockWheneverRepeated | source/multiproc/multiproc.cpp:67-102 | whatever the piece and the room, notifying it repeatedly can end in that if and only if there is a worker |
| Multiproc.Multiproc.ReadPiece | source/multiproc/multiproc.cpp:214-220 | the loop with its signed 32-bit countdown, cut at every subtraction: how far it reads for any reads, when it ends, and when it is left waiting on an empty FIFO |
| Multiproc.Multiproc.HandleDownloadedPiece | source/multiproc/multiproc.cpp:210-224 | the file is the front of the FIFO and at least the data; when reads take all they can its length is known, and the loop ends with exactly the data if and only if nothing else is queued or the buffer was no larger; then the piece's bit is added to the shared set |
| PieceFile.FileIsPieceExactly | source/multiproc/multiproc.cpp:212-220 | for every size, and with the countdown cut to 32 bits at every subtraction, greedy reads take exactly the size of the piece if and only if that condition holds |
| PieceFile.StopsExactly | source/multiproc/multiproc.cpp:219 | having read at least what was left, the loop stops if and only if it read no more than 2^31 bytes beyond, up to multiples of 2^32 |
| PieceFile.CountdownWraps | source/multiproc/multiproc.cpp:219 | with one byte left and a buffer of 2^31 + 2 bytes, a full read empties the FIFO and the parent waits for more |

## Left out

- DownloadRun.NotifiedPiecesAreRight: the peer unchokes once and stays unchoked; a second unchoke inside a piece requests its missing blocks twice (`Sending.RequestedAgain`), and the handler does not look at block offsets. `WorkerRun.DataIsWhatWasAccepted` has no such condition.
- MultiprocTask.NotifyDownloadedPiece: while this process holds the semaphore no other writes; that this is so is the subject of `Channel`, where writes reach the FIFO in pieces.
- How the vectors of a particular library grow: the policy is a parameter.
- Sockets, TLS, DNS, timeouts, process creation, sandboxing, printing and the handshake's bytes.
- Failing sends: the source ignores their results.
- Magnet links, URLs and their regular expressions.
- The UDP connect and scrape transactions, and the building of the request text.
- Short last pieces, several trackers, and respawning of workers.
- The copy of a bitset, which does not copy its bytes.
