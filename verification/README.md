# Verification of the BitTorrent core

A Dafny 4.11 model of the download core of the xfer client: what bytes mean (bencode, the peer wire
protocol, the metadata exchange, the encrypted handshake), which peer fetches what (the request
pipeline and piece selection), and when a piece counts as done (assembly, hashing, storage,
accounting, restart).

Check everything with `dafny verify dfyconfig.toml`.

How the modules fit together:

- `Bencode` defines the printer, the recursive parser with its depth limit and byte ranges, and
  proves them against each other; `Canonical` says which text the printer reproduces;
  `BencodeParser` is the in-place parser and printer; `Torrent` reads torrent files and writes the
  one saved for a magnet link; `Base32` reads magnet hashes.
- `Cipher`, `Connection` and `Sync` are the keystream, a stream that arrives in arbitrary chunks,
  and the scan for a marker; `Mse` is each end of the encrypted handshake, `MseAgreement` what the
  two ends make of each other's bytes, `MseRefusals` what each refuses and how its flights look,
  `MseRun` runs the two programs against each other, `EncStream` is the stream they hand over.
- `Wire` frames peer messages and reads them back from any chunking; `WireFormat` says which bytes
  they are.
- `Metadata` and `MetadataAccum` serve and reassemble the info dictionary, `MetadataSession` goes
  through sessions with servers that have it or not.
- `Layout`, `DoneBytes` and `Bitfield` are piece geometry, byte accounting and the piece map.
- `Swarm` is the download state machine on values: peers, queues, outstanding requests, caches, done
  pieces; `SwarmInv` and `SwarmSteps` prove what every run keeps, `SwarmEffects` says field by field
  what each event does, `SwarmProgress` that filling the pipeline never stalls, `SwarmWindow` when
  outstanding requests stay within the window, `SwarmQuiet` when ticks ask for nothing again,
  `SwarmRuns` runs that show both, `SwarmBlocks` that true blocks make true pieces; `Playhead`
  orders the candidates; `Engine` is the class whose methods update the same state in place, proved
  against the steps.
- `Store` is piece storage over files with its write-back cache and writes that may fail;
  `FileCache`, `Verify` and `VerifyRun` check existing data with several threads, one piece a step,
  and `Counters` takes their progress counters one atomic addition at a time; `Resume` is the resume
  file; `Restart` runs the state machine, the store and the piece map together: what is called done
  is found again.
- `RateLimiter` is the token bucket.

Conventions. A specification function gives the meaning of an operation on values; where the source
updates state step by step, a method with the same branches is proved equal to it. SHA-1, RC4
keystreams and Diffie-Hellman are function parameters without any assumption beyond those a lemma
states. Reads deliver arbitrary non-empty chunks, hash maps yield their entries in arbitrary order,
threads are scheduled arbitrarily, a write to a file may fail after any part of it. Machine integers
are unbounded except where a bound is written out (i64 in bencode, u8/u16/u32 fields on the wire,
the metadata size limit). One handler of the peer message loop is one atomic step.

Results where code and expectation part:

- `decode` accepts text that its own re-encoding does not reproduce: integers with a plus sign
  (`Canonical.PlusIsLost`) and dictionaries whose keys do not rise (`Canonical.OrderIsLost`).
  `Canonical.ReencodesIff` says that these are the only causes, at any depth. Re-encoding is stable
  for all input (`Bencode.DecodeEncodeStable`).
- A torrent saved for a magnet link reads back exactly when the info text nests fewer than 64
  levels, counting duplicate keys that are overwritten (`Torrent.SaveThenParse`).
- `Unknown` messages survive encoding exactly when their id is not one of the known ids
  (`Wire.ParseEncode`).
- A marker starting between offsets 513 and 639 is refused by some reads and accepted by others
  (`Sync.LateMarkRefused`, `Sync.LateMarkFound`), and never beyond (`Sync.ScanSync`). In a handshake
  between the two programs none starts there (`MseRun.Exchange`).
- Done bytes equal to the selected length do not imply that all wanted pieces are done. For a
  selection it holds in every state if and only if some piece is wanted and every wanted piece has
  bytes of a selected file (`DoneBytes.FullFinishesIff`). It fails for a selected empty file, which
  makes its piece wanted (`DoneBytes.FullNotFinished`), and for the empty selection
  (`DoneBytes.NothingSelected`). Without a selection it always holds (`DoneBytes.FullFinishesAll`).
- The rate limiter's retry loop can starve below 10 bytes a second; `RateLimiter.ServedIff` says
  exactly when, for every state in which an attempt is refused. A request larger than the bucket is
  refused for ever (`RateLimiter.TooBigNeverServed`).
- Outstanding requests may exceed the window: a stalled tick halves an adaptive window under them.
  `SwarmWindow.StepWithinIff` gives the exact condition for every event, `SwarmRuns.WindowOverrun` a
  run from nothing to 253 requests in a window of 128. No fill ever adds to them beyond the window
  (`SwarmProgress.FillRequests`), and the window itself stays within 16 to 256.
- Requests that are overdue are only asked anew if requests went out since the last block
  (`SwarmProgress.OverdueAskedAgain`). After a block whose refill sends nothing, what is outstanding
  stays so over any number of ticks (`SwarmQuiet.SilentAfterBlock`); `SwarmRuns.NeverAskedAgain` is
  such a run, of a piece of two blocks.
- A snapshot of the verification progress shows files and total of checked bytes equal exactly when
  no thread stands between the two additions (`Counters.AgreeIff`); it can show the files ahead
  exactly if there is anything to check (`Counters.FilesAheadIff`). Since it loads the checked bytes
  first, it can show more verified than checked exactly if there is anything good
  (`Counters.OvertakenIff`); loaded in the other order it cannot (`Counters.VerifiedLoadedFirst`).
- After a change of the cache limit that fails, a piece left in the cache and larger than the limit
  wins over a later write of the same piece (`Store.PieceStore.WritePiece`), and with the limit 0
  `durable_bitfield` names pieces that are not on disk (`Store.PieceStore.DurableBitfield`);
  `Store.ShrinkAndRewrite` goes through both. They can happen exactly while some entry is larger
  than the limit (`Store.OlderCopyIff`) and while the limit is 0 and the cache is not empty
  (`Store.ClaimedLeftIff`). The engine sets the limit once, on an empty cache, and then neither does
  (`Restart.Task.SaveResume`).
- `PeerReader` may take more from the stream than a message needs, although the comment on `fill`
  says at most the missing bytes (crates/xfer-bt/src/message.rs:431-445); the model follows the
  code.
- `set_bitfield` adds to the piece map and does not replace it, so restoring does too.
- A window without bytes would still overlap a piece it lies strictly inside, although the comment
  says that empty ranges never do (crates/xfer-bt/src/playhead.rs:68-71). No window that
  the tiers use is both empty and strictly inside a piece's range (`Playhead.TierIsUrgency`).
- A suggested piece that does not exist is queued; at most four such pieces sit in a queue
  (`SwarmInv`), and none of them stalls it (`SwarmProgress.NoStall`).

## Model

| member | source | states |
|---|---|---|
| Bencode.DecimalRoundTrip | crates/xfer-bencode/src/lib.rs:233-262 | every i64 printed in decimal is read back as itself |
| Bencode.FormatIs | crates/xfer-bencode/src/lib.rs:110-155 | the shapes of integers, strings, lists and dictionaries, letter by letter |
| Bencode.DecimalIs | crates/xfer-bencode/src/lib.rs:119-123 | a minus sign, then the digit of the highest power of ten first |
| Bencode.LexIs | crates/xfer-bencode/src/lib.rs:324-348 | keys are in order where the first byte that differs is smaller, or one is a proper prefix of the other |
| Bencode.InsertIsUpdate | crates/xfer-bencode/src/lib.rs:324-348 | putting a key into a sorted dictionary keeps it sorted and changes that key only, so the last of duplicate keys wins |
| Bencode.ValueAt | crates/xfer-bencode/src/lib.rs:119-196 | wherever the encoding of a value stands in a text, at any depth it fits in, the parser reads exactly that value and stops right behind it |
| Bencode.PrefixRoundTrip | crates/xfer-bencode/src/lib.rs:110-123 | decoding a prefix of encode(v) followed by anything gives v and the length of its encoding, for every value at most 64 deep |
| Bencode.DepthLimitExact | crates/xfer-bencode/src/lib.rs:101-196 | the encoding of a value is accepted if and only if the value is at most 64 deep |
| Bencode.ParsedIsWf | crates/xfer-bencode/src/lib.rs:171-348 | whatever text is accepted, the value has sorted distinct keys and i64 integers, and respects the depth limit |
| Bencode.DecodeEncodeStable | crates/xfer-bencode/src/lib.rs:101-155 | for every accepted input, decoding the re-encoding gives the same value |
| Canonical.ReencodesIff | crates/xfer-bencode/src/lib.rs:101-155 | re-encoding an accepted input reproduces it if and only if, at every depth, no integer has a plus sign and the keys of each dictionary strictly rise |
| Canonical.PlusIsLost | crates/xfer-bencode/src/lib.rs:233-262 | an accepted input with a plus sign that its own re-encoding does not reproduce |
| Canonical.OrderIsLost | crates/xfer-bencode/src/lib.rs:324-348 | any two entries whose keys are equal or out of order, within the depth limit, make a dictionary that is accepted and not reproduced |
| Bencode.ValueLocal | crates/xfer-bencode/src/lib.rs:171-196 | the bytes of a parsed value, moved elsewhere and at no greater depth, parse to the same value |
| Bencode.NestingExact | crates/xfer-bencode/src/lib.rs:171-196 | accepted text parses at another depth exactly when its nesting still fits below the limit, and then to the same value |
| Bencode.NestingOfEncoding | crates/xfer-bencode/src/lib.rs:119-155 | the nesting of canonical text is the height of the value |
| Bencode.RootIsDecode | crates/xfer-bencode/src/lib.rs:202-231 | parse_root accepts exactly the inputs that decode accepts as a dictionary, with the same entries |
| Bencode.RootRangesDecode | crates/xfer-bencode/src/lib.rs:202-231 | every key has a recorded byte range, and that range decoded alone is the key's value |
| BencodeParser.Parser.ParseValue | crates/xfer-bencode/src/lib.rs:171-196 | the recursive parser with its moving position computes the specified value, end and error |
| BencodeParser.Parser.ParseInt | crates/xfer-bencode/src/lib.rs:233-262 | the integer scanner leaves the position and result the specification gives |
| BencodeParser.Parser.ParseLength | crates/xfer-bencode/src/lib.rs:264-288 | the length scanner, with its digit and overflow checks, agrees with the specification |
| BencodeParser.Parser.ParseRawBytes | crates/xfer-bencode/src/lib.rs:295-307 | a byte string is cut out exactly behind its length prefix or refused |
| BencodeParser.Parser.ParseList | crates/xfer-bencode/src/lib.rs:309-322 | the item loop builds the specified list |
| BencodeParser.Parser.ParseDict | crates/xfer-bencode/src/lib.rs:324-348 | the entry loop builds the specified map |
| BencodeParser.Parser.ParseRoot | crates/xfer-bencode/src/lib.rs:202-231 | the root loop returns the specified entries and ranges |
| BencodeParser.DecodeAll | crates/xfer-bencode/src/lib.rs:101-108 | one value and nothing behind it |
| BencodeParser.WriteStr | crates/xfer-bencode/src/lib.rs:125-155 | appends the length-prefixed string to what the buffer held |
| BencodeParser.WriteValue | crates/xfer-bencode/src/lib.rs:125-155 | appends exactly the encoding of the value to what the buffer held |
| Torrent.InfoHashOfRawBytes | crates/xfer-bencode/src/torrent.rs:62-158 | the info hash is the hash of a slice of the file itself, and that slice alone parses to the same torrent |
| Torrent.AcceptedIff | crates/xfer-bencode/src/torrent.rs:62-158 | a file is accepted if and only if it is one dictionary with a good info dictionary, wherever that key stands |
| Torrent.TextsIff | crates/xfer-bencode/src/torrent.rs:62-158 | and each optional text is taken exactly when its key holds valid UTF-8 |
| Torrent.InfoAloneIff | crates/xfer-bencode/src/torrent.rs:62-158 | metadata is accepted if and only if it is one good dictionary with nothing behind it, and hashed as it came |
| Torrent.SaveThenParse | crates/xfer-bt/src/engine.rs:1476-1546 | the file saved for a magnet link, keys unsorted, reads back to the same raw info, hash and texts if and only if the raw info nests fewer than 64 levels |
| Base32.Decode | crates/xfer-bencode/src/magnet.rs:77-99 | the bit-buffer loop yields the twenty base-256 digits of the number the letters write in base 32, for 32 or 33 valid letters, and nothing otherwise |
| Base32.DecodeEncode | crates/xfer-bencode/src/magnet.rs:156-174 | every twenty-byte hash survives encoding and decoding |
| Base32.EncodeDecode | crates/xfer-bencode/src/magnet.rs:77-99 | every valid string of 32 letters is the encoding of what it decodes to |
| Base32.AcceptedIff | crates/xfer-bencode/src/magnet.rs:77-99 | 32 or 33 letters of the alphabet are accepted and nothing else, and a 33rd changes nothing |
| Base32.AlphabetIs | crates/xfer-bencode/src/magnet.rs:77-99 | the letters A to Z stand for 0 to 25 and the digits 2 to 7 for 26 to 31 |
| Cipher.CryptInverse | crates/xfer-crypto/src/lib.rs:81-103 | applying the keystream twice from the same position gives the data back |
| Cipher.XorBit | crates/xfer-crypto/src/lib.rs:91-95 | a bit comes out flipped exactly where the key has a one |
| Cipher.CryptZeros | crates/xfer-crypto/src/lib.rs:91-95 | zeros are encrypted to the keystream itself, from the position on |
| Cipher.CryptHides | crates/xfer-crypto/src/lib.rs:91-95 | a byte goes through unchanged only under a zero of the keystream, and two keystreams give the same byte exactly where they agree |
| Cipher.CryptConcat | crates/xfer-crypto/src/lib.rs:91-103 | encrypting two parts one after the other equals encrypting them together |
| Cipher.CryptSlice | crates/xfer-crypto/src/lib.rs:91-103 | a slice of the ciphertext is the slice encrypted at its own position |
| Cipher.Rc4.Process | crates/xfer-crypto/src/lib.rs:91-95 | each bit of the output is the bit of the input, flipped exactly where the keystream has a one from the current position on, and the position advances by the bytes processed |
| Connection.RawBuf.ReadExact | crates/xfer-bt/src/mse.rs:367-391 | reads take the buffered bytes first and fail only when the stream ends too early |
| Sync.FirstExtends | crates/xfer-bt/src/mse.rs:339-364 | bytes behind the marker never change where it is first found |
| Sync.ScanSync | crates/xfer-bt/src/mse.rs:339-364 | for every chunking the first marker is found if it starts at 512 or earlier, none beyond 639 is accepted, returned plus unread bytes are the stream behind the marker, and the result is a function of the reads |
| Sync.LateMarkRefused | crates/xfer-bt/src/mse.rs:339-364 | read byte by byte every marker beyond 512 is refused |
| Sync.LateMarkFound | crates/xfer-bt/src/mse.rs:339-364 | reads that end in one of 128 bytes accept every marker from 513 to 639 |
| Mse.Synchronise | crates/xfer-bt/src/mse.rs:125-134 | after the scan the buffer and the stream hold exactly what follows the marker |
| Mse.ReceiveSelect | crates/xfer-bt/src/mse.rs:136-174 | the initiator's decrypting reads reach the session, positions and leftovers the specification gives for any chunking |
| Mse.ReceiveOffer | crates/xfer-bt/src/mse.rs:242-277 | the responder's decrypting reads find the offered methods and the payload, and lose no byte behind them |
| Mse.ReceiveFindOffer | crates/xfer-bt/src/mse.rs:227-277 | padding, marker and torrent hash are handled for any chunking as on the whole stream |
| Mse.SendOffer | crates/xfer-bt/src/mse.rs:103-123 | the initiator's second flight, with the keystream position it leaves |
| Mse.SendReply | crates/xfer-bt/src/mse.rs:279-316 | the responder's second flight and its handshake, with the keystream position they leave |
| Mse.PeInitiator | crates/xfer-bt/src/mse.rs:71-175 | for every incoming stream and chunking: the outcome and all bytes sent, unless a marker falls in the late zone |
| Mse.PeResponder | crates/xfer-bt/src/mse.rs:181-316 | for every incoming stream and chunking: a stream that starts as an ordinary handshake is answered with nothing and refused if encryption is forced, otherwise handed on whole; for any other stream the outcome and all bytes sent, unless a marker falls in the late zone |
| MseRefusals.Chosen | crates/xfer-bt/src/mse.rs:279-290 | RC4 is chosen exactly when offered, plaintext exactly when RC4 is not, plaintext is, and encryption is not forced, nothing otherwise |
| MseRefusals.DegenerateIff | crates/xfer-crypto/src/lib.rs:195-200 | the keys refused are exactly those that write 0 or 1 |
| MseRefusals.InitiatorAccepts | crates/xfer-bt/src/mse.rs:71-175 | an initiator that comes through saw real keys and the encrypted constant where it first occurs, and goes on in the clear only if it had offered that |
| MseRefusals.ResponderAccepts | crates/xfer-bt/src/mse.rs:181-316 | a responder that comes through other than by an ordinary handshake saw real keys, its marker, the hash of its torrent and eight zeros under the keystream, and goes on in the clear only if encryption is not forced |
| MseRefusals.OfferFlight | crates/xfer-bt/src/mse.rs:103-123 | the initiator's second flight: two hashes in the clear, then one text under key A from position 0: constant, methods, padding and payload with their lengths |
| MseRefusals.ReplyFlight | crates/xfer-bt/src/mse.rs:292-316 | the responder's: constant, method and padding under key B, then the handshake, under RC4 in the same keystream, otherwise as it is |
| MseRefusals.Limits | crates/xfer-bt/src/mse.rs:136-174 | paddings up to 512 bytes and payloads up to 636 are let through, longer ones end the handshake |
| MseRefusals.InitiatorAnswers | crates/xfer-bt/src/mse.rs:71-101 | the initiator opens with its public key, and answers if and only if key and secret are real |
| MseRefusals.ResponderAnswers | crates/xfer-bt/src/mse.rs:181-316 | the responder is silent until a real key came, and sends its reply if and only if it comes through |
| MseAgreement.ResponderFinds | crates/xfer-bt/src/mse.rs:181-277 | whatever follows, the initiator's output makes the responder read the initiator's offer and payload |
| MseAgreement.InitiatorFinds | crates/xfer-bt/src/mse.rs:125-175 | whatever follows, the responder's output makes the initiator read the responder's choice and handshake |
| MseAgreement.HandshakeAgrees | crates/xfer-bt/src/mse.rs:71-316 | what the ends make of each other's bytes: with equal keys and no accidental marker in the padding, both agree on encrypted or plain, hold each other's handshake, have equal keystream positions, and keep all later bytes; without a common method both fail |
| MseRun.Exchange | crates/xfer-bt/src/mse.rs:71-316 | the two programs run on two connections, for any chunking: the stream of each is what the other wrote and then its later bytes, each wrote its flights and came out as its reading of that stream says, and so both are encrypted with crossed positions, or both plain, with each other's handshake and the later bytes unread, or both failed |
| MseRun.LaterBytesArrive | crates/xfer-bt/src/mse.rs:402-540 | with equal positions, what is pending and unread at one end decrypts to what the other end encrypted |
| MseRun.InitiatorNotLate | crates/xfer-bt/src/mse.rs:125-134 | the initiator's marker never starts where the reads decide |
| MseRun.ResponderNotLate | crates/xfer-bt/src/mse.rs:227-241 | nor does the responder's |
| MseAgreement.HandshakeProgress | crates/xfer-bt/src/mse.rs:71-316 | exchanging flights from nothing, each end's next flight follows from the other's, and neither waits for ever |
| MseAgreement.DeliveredToResponder | crates/xfer-bt/src/mse.rs:402-540 | bytes the initiator encrypts after the handshake are what the responder decrypts |
| MseAgreement.DeliveredToInitiator | crates/xfer-bt/src/mse.rs:402-540 | and the other way round |
| EncStream.EncryptedStream.ReadDecrypted | crates/xfer-bt/src/mse.rs:442-455 | decrypts pending and then incoming bytes in order, losing and repeating none |
| EncStream.EncryptedStream.ReadExactDecrypted | crates/xfer-bt/src/mse.rs:458-472 | exactly n bytes in order, failing only when the stream ends too early |
| EncStream.EncryptedStream.PollWrite | crates/xfer-bt/src/mse.rs:522-540 | partial and pending writes: what is on the wire plus the leftover is the encryption of a prefix of the plaintext |
| EncStream.EncryptedStream.WriteEncrypted | crates/xfer-bt/src/mse.rs:435-439 | a whole write puts its encryption at the current position on the wire; without leftovers the stream stays in step |
| EncStream.WritesKeepStep | crates/xfer-bt/src/mse.rs:522-540 | over any run of polls in which the caller re-presents what was not accepted, wire and accepted plaintext stay in step |
| EncStream.WireIsAcceptedPrefix | crates/xfer-bt/src/mse.rs:522-540 | the wire then carries the encryption of exactly the accepted prefix |
| Wire.EncodeMessage | crates/xfer-bt/src/message.rs:176-239 | the encoder with its back-filled length writes the specified frame |
| Wire.ParseEncode | crates/xfer-bt/src/message.rs:447-518 | parsing inverts encoding if and only if the message is not an unknown one with a known id |
| WireFormat.BigEndian | crates/xfer-bt/src/message.rs:176-239 | numbers go out with the highest byte first |
| WireFormat.EmptyFrames | crates/xfer-bt/src/message.rs:176-239 | the messages without a body, byte by byte |
| WireFormat.ShortFrames | crates/xfer-bt/src/message.rs:176-239 | the messages about one piece, and the port, byte by byte |
| WireFormat.BlockFrames | crates/xfer-bt/src/message.rs:176-239 | the messages about one block: piece, offset, length |
| WireFormat.PieceFrame | crates/xfer-bt/src/message.rs:176-239 | a block of any length, with its piece and offset in front |
| WireFormat.LongFrames | crates/xfer-bt/src/message.rs:176-239 | bitfields, extended and unknown messages of any length |
| WireFormat.ShortBodies | crates/xfer-bt/src/message.rs:447-518 | which bodies are too short for their id, and that no other message is an error |
| Wire.HandshakeRoundTrip | crates/xfer-bt/src/message.rs:243-285 | our own 68-byte handshake reads back, whatever follows it |
| WireFormat.HandshakeReads | crates/xfer-bt/src/message.rs:255-285 | a peer's handshake with any eight reserved bytes: they and both hashes are read as sent |
| WireFormat.HandshakeRefusedIff | crates/xfer-bt/src/message.rs:255-285 | a handshake is refused if and only if it is short or its protocol string is another |
| WireFormat.OurHandshake | crates/xfer-bt/src/message.rs:243-253 | what we send, with the bits of the extension protocol, the DHT and the fast extension |
| Wire.NextIsFirst | crates/xfer-bt/src/message.rs:378-424 | behind the frame of a message nothing of the next one is consumed |
| WireFormat.CutFrame | crates/xfer-bt/src/message.rs:378-424 | of a frame cut anywhere nothing is made, and the reader says where it was cut |
| WireFormat.TooLongIff | crates/xfer-bt/src/message.rs:378-424 | a length is refused, whatever follows, if and only if it exceeds 2 MiB |
| WireFormat.Consumed | crates/xfer-bt/src/message.rs:378-424 | only a message that was read is taken from the stream, and exactly its frame; an error leaves everything there |
| Wire.PeerReader.Preload | crates/xfer-bt/src/message.rs:310-316 | bytes handed back stand in front of what was buffered |
| Wire.PeerReader.Fill | crates/xfer-bt/src/message.rs:431-445 | a read moves bytes from the stream to the buffer and changes nothing else |
| Wire.PeerReader.ReadHandshake | crates/xfer-bt/src/message.rs:320-372 | exactly the first 68 bytes are taken as the handshake, for any chunking, and none if they are no handshake |
| Wire.PeerReader.ReadMessage | crates/xfer-bt/src/message.rs:378-424 | the next message of buffer plus stream, its errors and its end, for any chunking, and what is left, everything after an error |
| Wire.PeerReader.ReadAll | crates/xfer-bt/src/message.rs:378-424 | the messages read are those of the whole stream, independent of how it arrives |
| Wire.StreamRoundTrip | crates/xfer-bt/src/message.rs:176-239 | reading the concatenated frames of any messages up to 2 MiB yields exactly those messages and then the end |
| Wire.RequestWireIsEncoding | crates/xfer-bt/src/engine.rs:6074-6080 | the hand-built request bytes are the encoding of the request |
| Wire.RequestBlocks | crates/xfer-bt/src/message.rs:521-530 | the blocks tile the piece at multiples of the block size, the last one shorter |
| Metadata.HandleKeepsInv | crates/xfer-bt/src/engine.rs:5025-5112 | for any payload: stored pieces keep a valid index and exact length, only a dictionary with the wanted hash is installed, and an assembly that is not genuine leaves the accumulator empty |
| Metadata.RunKeepsInv | crates/xfer-bt/src/engine.rs:5025-5112 | the same over any run of payloads |
| Metadata.ReleaseUnblocks | crates/xfer-bt/src/engine.rs:5220-5253 | after a release nothing is left to ask for if and only if every piece arrived |
| Metadata.RequestIsServed | crates/xfer-bt/src/engine.rs:5120-5217 | our own request is answered with the piece it asks for, or a reject when there is none |
| Metadata.ReplyIsUnderstood | crates/xfer-bt/src/engine.rs:5025-5112 | a server's reply is read as exactly the slice it carries, or as a reject of that piece |
| Metadata.AssembledIs | crates/xfer-bt/src/engine.rs:385-410 | with true slices, assembly succeeds if and only if the last distinct slice is there, and gives the dictionary |
| Metadata.ExchangeCompletes | crates/xfer-bt/src/engine.rs:372-410 | served slices in any order with repeats install exactly the dictionary once all have arrived, for 1 byte to 4 MiB |
| Metadata.ExchangeFromAnywhere | crates/xfer-bt/src/engine.rs:5025-5112 | also from an accumulator that held another size |
| Metadata.RecoversFromPoison | crates/xfer-bt/src/engine.rs:5025-5112 | whatever slices the accumulator holds, feeding all true slices twice, in any order and with repeats, installs the dictionary |
| Metadata.DictsAreInserted | crates/xfer-bt/src/engine.rs:422-436 | the message dictionaries are what inserting their fields one by one into a BTreeMap gives |
| MetadataSession.PassedOver | crates/xfer-bt/src/engine.rs:5025-5050 | a message without a dictionary in front is invalid, and one that is neither data nor a reject is passed over |
| MetadataSession.RejectNames | crates/xfer-bt/src/engine.rs:5036-5045 | which piece a reject names |
| MetadataSession.DataRead | crates/xfer-bt/src/engine.rs:5050-5080 | data is accepted if and only if both numbers are there, the size is 1 byte to 4 MiB, the piece lies in it, and the bytes behind the dictionary are as many as that piece has |
| MetadataSession.RejectFrees | crates/xfer-bt/src/engine.rs:5025-5112 | a reject takes its piece off those asked for, changes nothing else, and if that piece is missing the next one asked for is that or an earlier one |
| MetadataSession.ServerRejects | crates/xfer-bt/src/engine.rs:5120-5217 | a server without the metadata answers any request with such a reject |
| MetadataSession.OtherSizeResets | crates/xfer-bt/src/engine.rs:5025-5112 | data of another size starts anew with that piece alone and nothing asked for |
| MetadataSession.DataEffect | crates/xfer-bt/src/engine.rs:5025-5112 | data joins what was collected for its size; a dictionary it completes is installed if genuine and the storage opens, and nothing of it is kept if not genuine |
| MetadataSession.FineIff | crates/xfer-bt/src/engine.rs:5025-5112 | after which messages the session goes on |
| MetadataSession.ServedIff | crates/xfer-bt/src/engine.rs:5120-5217 | a message is answered if and only if it is a dictionary that asks for a piece |
| MetadataSession.RepliesUnanswered | crates/xfer-bt/src/engine.rs:5120-5217 | no reply is taken for a request, so two clients never answer each other for ever |
| MetadataSession.ReleaseUnknown | crates/xfer-bt/src/engine.rs:5238-5253 | before a size is known a release forgets the request for piece 0 only |
| MetadataSession.ReleaseKnown | crates/xfer-bt/src/engine.rs:5238-5253 | after that it forgets exactly the requests for pieces that did not arrive |
| MetadataSession.HonestSession | crates/xfer-bt/src/engine.rs:4805-4897 | from any resting accumulator a session with a server that has the metadata installs it, with one request for each missing piece |
| MetadataSession.RejectsThenHonest | crates/xfer-bt/src/engine.rs:4805-4897 | also after sessions with any number of servers without it, whose rejects leave nothing behind |
| MetadataAccum.Accumulator.Assemble | crates/xfer-bt/src/engine.rs:399-410 | the concatenation loop is the specified assembly |
| MetadataAccum.Accumulator.NextPiece | crates/xfer-bt/src/engine.rs:5220-5230 | the least piece neither received nor asked for, then marked as asked for |
| MetadataAccum.Accumulator.ReleaseUnreceived | crates/xfer-bt/src/engine.rs:5238-5253 | requests for pieces that did not arrive are forgotten, others kept |
| MetadataAccum.Accumulator.HandlePayload | crates/xfer-bt/src/engine.rs:5025-5112 | the handler that updates the accumulator in place is the specified step; a reject takes that piece, and nothing else, off those asked for, and data of another size starts anew with nothing asked for |
| Layout.PieceSegments | crates/xfer-bencode/src/torrent.rs:344-361 | one pass with a running offset finds the segments of a piece |
| Layout.SegmentsChain | crates/xfer-bencode/src/torrent.rs:344-361 | the segments run from the start of the piece to its end without gap or overlap, inside their files |
| Layout.SegmentLengths | crates/xfer-bencode/src/torrent.rs:322-361 | segment lengths sum to the piece length; pieces past the end have none |
| Layout.PiecesTileFiles | crates/xfer-bencode/src/torrent.rs:322-361 | the segments of all pieces run in order over all files from the first byte to the last |
| Layout.ByteInOnePiece | crates/xfer-bencode/src/torrent.rs:344-361 | every byte of every file lies in exactly one segment of exactly one piece, the one its offset divided by the piece length names |
| Layout.Locate | crates/xfer-bencode/src/torrent.rs:364-373 | the file and offset whose global position is the one asked for; past the end the start of the last file |
| Layout.FileOffsets | crates/xfer-bencode/src/torrent.rs:376-384 | the global offset of every file |
| DoneBytes.FilesDoneBytes | crates/xfer-storage/src/piece.rs:344-379 | the two-cursor sweep gives each file the bytes of done pieces that lie in it |
| DoneBytes.FileCompleteIff | crates/xfer-storage/src/piece.rs:344-379 | a file's done bytes never exceed its length and reach it if and only if every piece with bytes in it is done |
| DoneBytes.FastPathAgrees | crates/xfer-bt/src/engine.rs:6154-6206 | counting whole pieces equals summing all files' shares |
| DoneBytes.WantedIff | crates/xfer-storage/src/piece.rs:298-320 | a piece is wanted if and only if it has a byte of a selected file, or such a file is empty and stands strictly inside the piece |
| DoneBytes.ComputeDoneBytes | crates/xfer-bt/src/engine.rs:6154-6206 | both paths compute the sum over the selected files |
| DoneBytes.OnlyWantedCount | crates/xfer-bt/src/engine.rs:6154-6206 | done pieces that are not wanted count for nothing |
| DoneBytes.ProgressExact | crates/xfer-bt/src/engine.rs:6154-6206 | done bytes never exceed the selected length and equal it if and only if every piece with bytes of a selected file is done |
| DoneBytes.FinishedIsFull | crates/xfer-bt/src/engine.rs:1595-1608 | once all wanted pieces are done, done bytes equal the selected length |
| DoneBytes.FullFinishesIff | crates/xfer-bt/src/engine.rs:1595-1608 | for a selection, full progress means finished in every state if and only if some piece is wanted and every wanted piece has bytes of a selected file |
| DoneBytes.FullFinishesAll | crates/xfer-bt/src/engine.rs:1595-1608 | without a selection full progress means finished |
| DoneBytes.FullIff | crates/xfer-bt/src/engine.rs:6154-6206 | progress is full if and only if every piece with bytes of a selected file is done |
| DoneBytes.NothingSelected | crates/xfer-bt/src/engine.rs:1595-1608 | with the empty selection progress is full and never finished, whatever the layout |
| DoneBytes.FullNotFinished | crates/xfer-bt/src/engine.rs:1595-1608 | a layout with a selected empty file inside a missing piece: full and not finished |
| Bitfield.OneMember | crates/xfer-storage/src/piece.rs:96-116 | setting or clearing a bit adds or removes exactly that piece |
| Bitfield.HighestFirst | crates/xfer-storage/src/piece.rs:96-116 | piece 0 is the highest bit of the first byte |
| Bitfield.BytesInOrder | crates/xfer-storage/src/piece.rs:96-116 | eight pieces a byte, bytes in order |
| Bitfield.PieceMap.IsSet | crates/xfer-storage/src/piece.rs:103-108 | the bit test is membership, false past the end |
| Bitfield.PieceMap.Set | crates/xfer-storage/src/piece.rs:96-101 | adds the piece if it exists; no bit past the last piece is ever set |
| Bitfield.PieceMap.Unset | crates/xfer-storage/src/piece.rs:111-116 | removes exactly that piece |
| Bitfield.PieceMap.SetAll | crates/xfer-storage/src/piece.rs:131-142 | all pieces and no bit past the last one |
| Bitfield.PieceMap.DoneCount | crates/xfer-storage/src/piece.rs:118-124 | counting ones counts the pieces |
| Bitfield.PieceMap.AllDone | crates/xfer-storage/src/piece.rs:126-128 | true if and only if every piece is set |
| Bitfield.PieceMap.Missing | crates/xfer-storage/src/piece.rs:152-154 | exactly the pieces not set, ascending |
| Bitfield.PieceMap.SetFromBitfield | crates/xfer-storage/src/piece.rs:162-177 | merges the bitfield's pieces, tolerating short bitfields and stray bits |
| Playhead.WindowIsRun | crates/xfer-bt/src/playhead.rs:69-71 | the pieces overlapping a window are one contiguous run of piece numbers |
| Playhead.StreamTierIsRun | crates/xfer-bt/src/playhead.rs:50-66 | the Stream tier is exactly the run of pieces covering 32 MiB from the playhead, saturating at the largest offset |
| Playhead.BeforeIsTotal | crates/xfer-bt/src/playhead.rs:81-98 | a total order without ties between different pieces |
| Playhead.TierIsUrgency | crates/xfer-bt/src/playhead.rs:50-66 | the tier says whether the piece holds a byte of the 32 MiB from the playhead, of those up to 128 MiB, of the 8 MiB before it, or of none of these |
| Playhead.BeforeIsPrecedes | crates/xfer-bt/src/playhead.rs:81-98 | without a playhead rarer pieces come first, then lower ones; with one, more urgent windows first, inside a window lower pieces, outside all windows rarer ones |
| Playhead.OrderedMeans | crates/xfer-bt/src/playhead.rs:81-98 | any two pieces of the order stand in that relation |
| Playhead.OrderedIsSorted | crates/xfer-bt/src/playhead.rs:81-98 | the order is a sorted rearrangement of the candidates |
| Playhead.Order | crates/xfer-bt/src/playhead.rs:81-98 | the slice is sorted in place: without a playhead rarity never falls, and equal rarity goes by index; with one no piece of a more urgent window comes after a less urgent one, inside a window indices rise, and outside all windows rarity never falls |
| Playhead.PickIsLeast | crates/xfer-bt/src/engine.rs:6141-6150 | the first free candidate is the least one, and there is none if and only if all are taken |
| Playhead.PicksAreSorted | crates/xfer-bt/src/engine.rs:6141-6150 | any number of successive picks from a list of candidates are exactly the first free ones in the order |
| SwarmSteps.PickIsBest | crates/xfer-bt/src/engine.rs:6100-6151 | nothing is assigned if and only if no piece is held by the peer, missing, wanted and free; otherwise the least such piece |
| SwarmEffects.PickMeans | crates/xfer-bt/src/engine.rs:6100-6151 | the piece assigned, as above, with rarity the number of connected sessions that hold a piece |
| SwarmEffects.RarityIs | crates/xfer-bt/src/engine.rs:6120-6127 | rarity is nought among nobody and one more for each connected session that holds the piece |
| SwarmSteps.TakenInOrder | crates/xfer-bt/src/engine.rs:6100-6151 | any number of assignments in a row, each piece taken on before the next is picked, go through the eligible free pieces in playhead order |
| SwarmSteps.TurnKeepsInv | crates/xfer-bt/src/engine.rs:6029-6082 | asking for a block or taking on a piece keeps the invariant |
| SwarmSteps.FillKeepsInv | crates/xfer-bt/src/engine.rs:5987-6092 | filling the pipeline keeps the invariant and touches one session's queue, window and registrations only |
| SwarmSteps.PieceKeepsInv | crates/xfer-bt/src/engine.rs:4501-4587 | a received block, whether or not it completes a piece, keeps the invariant and unmarks nothing |
| SwarmSteps.ChokeKeepsInv | crates/xfer-bt/src/engine.rs:4443-4459 | a choke frees exactly the session's pieces, drops its queue, requests and cache, leaves the others alone, and keeps the invariant |
| SwarmSteps.LeaveKeepsInv | crates/xfer-bt/src/engine.rs:2771-2785 | a session that leaves frees exactly its pieces, leaves the others alone, and keeps the invariant |
| SwarmSteps.SuggestKeepsInv | crates/xfer-bt/src/engine.rs:4386-4418 | a suggestion, even of a piece that does not exist, keeps the invariant |
| SwarmSteps.ShrinkKeepsWindow | crates/xfer-bt/src/engine.rs:5610-5626 | shrinking at most halves the window, only after more than three stalled ticks, and keeps it within 16 to 256 |
| SwarmSteps.GrowsWhenBusy | crates/xfer-bt/src/engine.rs:5592-5603 | the window grows exactly while it is adaptive, three quarters full and below 256, then by a quarter, but not beyond 256 |
| SwarmSteps.TickKeepsInv | crates/xfer-bt/src/engine.rs:4255-4276 | the tick, which shrinks a stalled window, drops overdue requests if requests went out since the last block, and refills, keeps the invariant |
| SwarmSteps.StepKeepsInv | crates/xfer-bt/src/engine.rs:4302-4587 | every event keeps the invariant and the done set only grows |
| SwarmEffects.UnchokeEffect | crates/xfer-bt/src/engine.rs:4460-4473 | after an unchoke the session is not choked, is interested if anything useful is there, and has requests out if some eligible piece is free |
| SwarmEffects.HaveEffect | crates/xfer-bt/src/engine.rs:4302-4354 | new pieces that exist are added, and interest and requests follow as after an unchoke |
| SwarmEffects.LeaveEffect | crates/xfer-bt/src/engine.rs:2771-2785 | after an eviction or a departure exactly the pieces of the session are free, its queue is empty, it no longer counts as connected or is gone, and the others are as they were |
| SwarmEffects.ChokeEffect | crates/xfer-bt/src/engine.rs:4443-4459 | after a choke the session is choked, its pieces are free, and no queue, request, block or counter of it is left |
| SwarmEffects.SuggestEffect | crates/xfer-bt/src/engine.rs:4386-4418 | a suggested piece is queued and taken if and only if it is missing and in no queue, fewer than 4 are queued, and not everything wanted is there; otherwise nothing changes |
| SwarmEffects.JoinEffect | crates/xfer-bt/src/engine.rs:2755-2769 | a new session holds the existing pieces its peer named, has a window of 256 or the configured size between 16 and 256, and starts asking if it may |
| SwarmEffects.RejectEffect | crates/xfer-bt/src/engine.rs:4365-4375 | a reject gives up that request and no other, and counts as a stalled tick |
| SwarmEffects.TickEffect | crates/xfer-bt/src/engine.rs:4255-4276 | a tick gives up requests exactly when they are overdue and some went out since the last block, then remembers only those it sends, and leaves a session that may not ask otherwise as it was |
| SwarmEffects.ReceivedEffect | crates/xfer-bt/src/engine.rs:4501-4587 | a block of a queued piece joins the cache; the last one takes the piece out of it, and the piece is done exactly if its blocks hash right and the write succeeds, and no other |
| SwarmEffects.UnqueuedEffect | crates/xfer-bt/src/engine.rs:4501-4527 | a block of a piece that is not queued changes nothing |
| SwarmEffects.NoneEffect | crates/xfer-bt/src/engine.rs:4355-4364 | the peer holds nothing any more, everything else is as it was |
| SwarmEffects.SettingsEffect | crates/xfer-bt/src/engine.rs:1574-1582 | selection, playhead and the check of existing data touch no session |
| SwarmSteps.RunKeepsInv | crates/xfer-bt/src/engine.rs:4443-4587 | in every reachable state: queues are disjoint and their union is the assigned set, nothing queued is done, counters equal cached blocks, outstanding requests are not cached, windows stay in bounds, every done piece hashes to its expected value |
| SwarmSteps.EveryRun | crates/xfer-bt/src/engine.rs:4302-4587 | the same from any start whose pieces on disk hash right, an empty disk included |
| SwarmInv.ReceiveCounts | crates/xfer-bt/src/engine.rs:4528-4532 | only the first copy of a block counts, so the counter equals the cached blocks |
| SwarmInv.OwnershipTake | crates/xfer-bt/src/engine.rs:6141-6150 | taking a free piece keeps the queues disjoint and their union the assigned set |
| SwarmInv.OwnershipDrop | crates/xfer-bt/src/engine.rs:5772-5787 | releasing pieces frees them and no others |
| Swarm.SlackFalls | crates/xfer-bt/src/engine.rs:6029-6082 | each turn of the fill loop uses up a slot, so the loop ends |
| SwarmProgress.StopMeansNoPiece | crates/xfer-bt/src/engine.rs:6029-6082 | with nothing outstanding the loop stops only when nothing can be assigned |
| SwarmProgress.NoStall | crates/xfer-bt/src/engine.rs:5987-6092 | when an unchoked, interested session ends a fill with nothing outstanding, every missing wanted piece its peer holds is owned by another session, and it owns no incomplete piece that exists |
| SwarmProgress.QueueFillsWindow | crates/xfer-bt/src/engine.rs:6047-6056 | the queue may hold 4 to 64 pieces, and between these no more than it takes to fill the window |
| SwarmProgress.RequestIsReal | crates/xfer-bt/src/engine.rs:6063-6080 | every request names an existing block: its piece, its offset and its exact length |
| SwarmProgress.NextIsFirst | crates/xfer-bt/src/engine.rs:6033-6043 | the block asked for next is the first one, in queue order and then in the piece, neither cached nor outstanding |
| SwarmProgress.FillRequests | crates/xfer-bt/src/engine.rs:5987-6092 | one fill asks only for blocks of queued pieces that are neither cached nor outstanding, each once, never beyond the window |
| SwarmProgress.FillAsks | crates/xfer-bt/src/engine.rs:6083-6089 | the same of a whole fill, which remembers that requests went out if and only if some did |
| SwarmProgress.OverdueAskedAgain | crates/xfer-bt/src/engine.rs:4255-4276 | at a tick overdue requests are dropped and the window is asked for anew exactly when requests went out since the last block; otherwise all stay outstanding and none is sent again |
| SwarmQuiet.BlockSettles | crates/xfer-bt/src/engine.rs:4501-4587 | after a received block requests count as sent if and only if the refill sent some, and what is outstanding is what was, without the block or the completed piece, and those; a refill that sent none leaves the session idle |
| SwarmQuiet.TicksSendNothing | crates/xfer-bt/src/engine.rs:4255-4276 | an idle session that sent nothing since the last block sends nothing over any number of ticks and keeps what is outstanding |
| SwarmQuiet.SilentAfterBlock | crates/xfer-bt/src/engine.rs:4255-4276 | so after a block whose refill sends nothing no tick ever asks again for what is outstanding |
| SwarmRuns.NeverAskedAgain | crates/xfer-bt/src/engine.rs:4255-4276 | such a run from nothing: a piece of two blocks, both asked for, the first received |
| SwarmWindow.OthersKeepWithin | crates/xfer-bt/src/engine.rs:4302-4587 | every event other than a tick keeps every session within its window that is there |
| SwarmWindow.TickWithinIff | crates/xfer-bt/src/engine.rs:5592-5627 | a tick takes a session out of its window if and only if the window is adaptive, has stalled three times, is not emptied by a timeout, and its half, at least 16, is less than what is outstanding; other sessions stay as they are |
| SwarmWindow.FourthHalves | crates/xfer-bt/src/engine.rs:5610-5627 | of four stalled ticks in a row the first three count and the fourth halves the window, not below 16 |
| SwarmWindow.StepWithinIff | crates/xfer-bt/src/engine.rs:5592-5627 | from within all windows an event leaves them if and only if it is such a tick |
| SwarmWindow.RunKeepsWithin | crates/xfer-bt/src/engine.rs:5987-6092 | over any run without such a tick all sessions stay within their windows |
| SwarmRuns.WindowOverrun | crates/xfer-bt/src/engine.rs:5610-5627 | a run from nothing, a full window, three rejects and one stalled tick, to 253 requests in a window of 128 |
| SwarmProgress.VerifyingTakesNone | crates/xfer-bt/src/engine.rs:1574-1582 | while existing data is checked no fill takes on a piece and no session declares interest |
| SwarmBlocks.AssembleFills | crates/xfer-bt/src/engine.rs:4556-4566 | copying true blocks in any order fills the buffer with the piece's bytes |
| SwarmBlocks.FullMeansAll | crates/xfer-bt/src/engine.rs:5729-5734 | a full counter of true blocks means every block is there |
| SwarmBlocks.CompleteMeansWhole | crates/xfer-bt/src/engine.rs:4552-4566 | when a piece counts as complete, its true blocks assemble to the original piece in whatever order the cache yields them |
| SwarmBlocks.HonestPieceAccepted | crates/xfer-bt/src/engine.rs:4501-4587 | the last true block of a piece gets it accepted and written as published |
| SwarmBlocks.HonestStep | crates/xfer-bt/src/engine.rs:4302-4587 | every step keeps caches and disk true for the pieces whose blocks are true, whatever is delivered for others |
| SwarmBlocks.HonestRun | crates/xfer-bt/src/engine.rs:4302-4587 | over any run in which the blocks of some pieces are true, with anything delivered for other pieces, duplicates, timeouts and re-requests, those pieces are on disk as published |
| SwarmBlocks.DownloadIsTrue | crates/xfer-bt/src/engine.rs:4302-4587 | after any run from nothing, every done piece whose blocks were all true is on disk as published |
| Engine.TorrentEngine.CollectCandidates | crates/xfer-bt/src/engine.rs:6120-6127 | the loop over all pieces collects the specified candidates |
| Engine.TorrentEngine.AssignPiece | crates/xfer-bt/src/engine.rs:6100-6151 | collecting, ranking and taking in loops picks and registers exactly the specified piece |
| Engine.TorrentEngine.FindNext | crates/xfer-bt/src/engine.rs:6033-6043 | the scan of queue and blocks finds the first one neither cached nor outstanding |
| Engine.TorrentEngine.RequestBytes | crates/xfer-bt/src/engine.rs:6074-6079 | the bytes put together by hand are the encoding of the request for that block |
| Engine.TorrentEngine.FillPipeline | crates/xfer-bt/src/engine.rs:5987-6092 | the loop ends in the specified state, keeps the invariant, and writes exactly the encodings of the specified requests |
| Engine.TorrentEngine.AdjustPipeline | crates/xfer-bt/src/engine.rs:5592-5603 | a window three quarters full grows by a quarter up to 256 unless its size is configured |
| Engine.TorrentEngine.AcceptPiece | crates/xfer-bt/src/engine.rs:5796-5841 | a piece is marked if and only if it was missing, hashes right and was written |
| Engine.TorrentEngine.ReleaseAllPieces | crates/xfer-bt/src/engine.rs:5772-5781 | freeing the queue one by one frees exactly the queue |
| Engine.TorrentEngine.Gather | crates/xfer-bt/src/engine.rs:4553-4566 | copying from the cache in arbitrary order, stopping at a block that does not fit, is the specified assembly for some enumeration |
| Engine.TorrentEngine.PieceReceived | crates/xfer-bt/src/engine.rs:4501-4587 | the whole arm of the message loop is the specified step, keeps the invariant, and writes the requests of the refill |
| Engine.TorrentEngine.Choked | crates/xfer-bt/src/engine.rs:4443-4459 | the arm is the specified step: choked, nothing queued, outstanding or cached, exactly its pieces free |
| Engine.TorrentEngine.EnsureInterested | crates/xfer-bt/src/engine.rs:5737-5769 | interest is declared once, exactly when something wanted is still missing and the peer holds some of it |
| Engine.TorrentEngine.Unchoked | crates/xfer-bt/src/engine.rs:4460-4473 | the session comes out unchoked, and requests go out if nothing was outstanding and some eligible piece is free; the arm is the specified step, and the bytes written are the encodings of the specified requests |
| Engine.TorrentEngine.Suggested | crates/xfer-bt/src/engine.rs:4386-4418 | the arm is the specified step |
| Engine.TorrentEngine.ShrinkStalled | crates/xfer-bt/src/engine.rs:5610-5627 | a window stalled for more than three ticks is halved, not below 16 |
| Engine.TorrentEngine.Ticked | crates/xfer-bt/src/engine.rs:4255-4276 | the tick is the specified step, and the bytes written are the encodings of the specified requests |
| Engine.TorrentEngine.Rejected | crates/xfer-bt/src/engine.rs:4365-4375 | the arm is the specified step |
| Engine.TorrentEngine.HavesReceived | crates/xfer-bt/src/engine.rs:4302-4354 | new pieces are added one by one, those past the last ignored, then interest and the pipeline follow as specified, with the encodings of the specified requests |
| Engine.TorrentEngine.NoneReceived | crates/xfer-bt/src/engine.rs:4355-4364 | the arm is the specified step |
| Engine.TorrentEngine.RegisterPeer | crates/xfer-bt/src/engine.rs:2755-2769 | a new session starts with an empty queue and a window within 16 to 256, and if it may it fills, with the encodings of the specified requests |
| Engine.TorrentEngine.UnregisterPeer | crates/xfer-bt/src/engine.rs:2771-2785 | exactly the session's pieces are freed, its queue is empty, and it no longer counts for rarity |
| Store.WriteStores | crates/xfer-storage/src/piece.rs:745-757 | after a write every byte of the piece is in its place in its file |
| Store.WriteKeepsOthers | crates/xfer-storage/src/piece.rs:745-757 | writing one piece leaves every other stored piece stored |
| Store.PieceStore.WriteDirect | crates/xfer-storage/src/piece.rs:745-757 | the segment loop writes the specified files; a write that fails anywhere has touched no byte outside the piece |
| Store.PieceStore.WritePiece | crates/xfer-storage/src/piece.rs:726-742 | cached, replaced, evicted or written through, the store stands for exactly one piece more, in the cache even if an eviction fails, with the oldest entries evicted first and no more than needed; a failed write past the cache spoils that piece only; what happens to an older cached copy |
| Store.PieceStore.Enqueue | crates/xfer-storage/src/piece.rs:730-740 | the piece joins the cache behind all others, in place of an older copy |
| Store.PieceStore.EvictOldest | crates/xfer-storage/src/piece.rs:627-640 | the oldest entry goes to the files, or back to the front if its write fails; nothing the store stands for is lost |
| Store.PieceStore.EvictToLimit | crates/xfer-storage/src/piece.rs:627-640 | the oldest entries go to the files until the limit is met, no more than needed, up to a write that fails; contents unchanged |
| Store.PieceStore.SetCacheLimit | crates/xfer-storage/src/piece.rs:577-580 | a lower limit flushes the overflow, zero empties the cache, up to a write that fails; contents unchanged |
| Store.PieceStore.Flush | crates/xfer-storage/src/piece.rs:609-620 | everything reaches the files, oldest first, up to a write that fails; contents unchanged |
| Store.PieceStore.Preallocate | crates/xfer-storage/src/piece.rs:555-567 | files reach their length and stored pieces stay stored |
| Store.PieceStore.ReadPiece | crates/xfer-storage/src/piece.rs:764-792 | a stored piece reads the same from the cache and from the files: its bytes in the selected files |
| Store.PieceStore.DurableBitfield | crates/xfer-storage/src/piece.rs:865-874 | exactly the marked pieces that are not waiting in the cache, except that with the limit 0 the cache is not looked at |
| Store.ClaimedLeftIff | crates/xfer-storage/src/piece.rs:865-874 | it names only pieces that left the cache, whatever is marked, if and only if the limit is not 0 or the cache is empty |
| Store.OlderCopyIff | crates/xfer-storage/src/piece.rs:726-742 | a write past the cache can meet an older copy there if and only if some entry is larger than the limit |
| Store.ShrinkAndRewrite | crates/xfer-storage/src/piece.rs:577-640 | a piece cached, the limit set to 0, the piece written anew: if the change of the limit failed, the piece is named as durable while it waits in the cache, and the newer write is lost |
| FileCache.VerifyFileCache.File | crates/xfer-bt/src/engine.rs:6609-6648 | answers as an uncached open on a fixed disk would, keeps within its limit, and drops the oldest handle first |
| FileCache.ReadPiece | crates/xfer-bt/src/engine.rs:6582-6602 | the piece read through the cache is the piece on disk, or nothing |
| FileCache.ReadableIff | crates/xfer-bt/src/engine.rs:6582-6602 | a piece can be read if and only if each of its segments, even an empty one, is covered |
| FileCache.PieceIsContent | crates/xfer-bt/src/engine.rs:6582-6602 | each byte of a piece read is the byte of the file that the layout puts there |
| Verify.VerifyProgress.Record | crates/xfer-bt/src/engine.rs:6252-6263 | recording a piece to the end adds exactly its bytes, overall and in each file |
| Verify.ProgressAddsUp | crates/xfer-bt/src/engine.rs:6299-6321 | between pieces the per-file counters sum to the totals, verified stays within checked and checked within the announced total |
| Counters.SnapshotsInOrder | crates/xfer-bt/src/engine.rs:6533-6548 | for any number of threads and any schedule of single additions: the files never fall behind the total of checked bytes, verified never runs ahead of checked, nothing exceeds what was announced, and when all threads are through everything is equal to it |
| Counters.AgreeIff | crates/xfer-bt/src/engine.rs:6252-6263 | in any snapshot files and total agree if and only if no thread stands between a non-empty addition to a file and the addition to the total, for checked and for verified bytes |
| Counters.FilesAheadIff | crates/xfer-bt/src/engine.rs:6533-6548 | some schedule shows the files ahead of the total if and only if there is anything to check |
| Counters.VerifiedLoadedFirst | crates/xfer-bt/src/engine.rs:6324-6336 | verified bytes are at most the checked bytes loaded at the same moment or later, and at most the announced total |
| Counters.OvertakenIff | crates/xfer-bt/src/engine.rs:6324-6336 | loading the checked bytes first, some schedule shows more verified than checked if and only if there is anything good |
| Counters.LoadedInTurn | crates/xfer-bt/src/engine.rs:6324-6336 | a snapshot that loads the total first and then each file at a moment of its own never shows the files behind the total nor beyond what was announced |
| Counters.ProgramPrefix | crates/xfer-bt/src/engine.rs:6252-6263 | at every point of one thread's additions its files are not behind its totals and its successes not ahead of its checks |
| Counters.RunInStep | crates/xfer-bt/src/engine.rs:6299-6321 | under any schedule each shared counter is the sum of what the threads added so far |
| Counters.AllRanges | crates/xfer-bt/src/engine.rs:6517-6529 | what all threads add together is what the whole job asks for |
| VerifyRun.RangesCover | crates/xfer-bt/src/engine.rs:6517-6529 | the threads' ranges cover every piece, for any number of threads |
| VerifyRun.AdvanceKeeps | crates/xfer-bt/src/engine.rs:6533-6548 | one piece of any thread is a new one, whatever the others have done |
| VerifyRun.JoinKeeps | crates/xfer-bt/src/engine.rs:6549-6549 | merging a thread's results adds exactly the good pieces of its range, none twice |
| VerifyRun.CheckPiece | crates/xfer-bt/src/engine.rs:6537-6547 | a piece passes if and only if it is entirely on disk and hashes right |
| VerifyRun.VerifyExisting | crates/xfer-bt/src/engine.rs:6478-6566 | for every number of threads and every interleaving: bit i is set if and only if piece i is wanted, on disk and hash-correct, the byte and piece counts match, and checked equals total |
| VerifyRun.TodoIs | crates/xfer-bt/src/engine.rs:6478-6566 | every piece is checked without a selection, the selected ones otherwise |
| VerifyRun.GoodIs | crates/xfer-bt/src/engine.rs:6537-6547 | and good are those of them that can be read in full and hash right |
| VerifyRun.AllFilesChecked | crates/xfer-bt/src/engine.rs:6478-6566 | with nothing deselected each file ends up checked in full |
| Resume.HexRoundTrip | crates/xfer-bt/src/resume.rs:33-63 | bytes written in hexadecimal read back as themselves |
| Resume.HexIs | crates/xfer-bt/src/resume.rs:33-63 | each byte is written as two digits, the high half first |
| Resume.LoadsIff | crates/xfer-bt/src/resume.rs:33-63 | a document is believed if and only if version, kind, hash and count fit and it holds just enough bytes for the pieces |
| Resume.LoadAfterSave | crates/xfer-bt/src/resume.rs:33-63 | a saved bitmap of the right length loads for the same hash and piece count, and for no other |
| Resume.MaskUncovered | crates/xfer-bt/src/engine.rs:6761-6778 | exactly the saved pieces beyond the files are cleared, the others counted |
| Resume.RestoreResume | crates/xfer-bt/src/engine.rs:6692-6785 | success if and only if the file loads, the disk usage is plausible and something is left; then exactly the believed pieces are added, otherwise the store is unchanged |
| Resume.PlausibleIff | crates/xfer-bt/src/engine.rs:6692-6760 | plausible means that the files occupy at least 85 of 100 bytes the saved pieces stand for |
| Resume.WithinIffBytes | crates/xfer-bt/src/engine.rs:6769-6772 | a saved piece is believed if and only if each of its bytes lies within the current file lengths |
| Resume.WholeFilesKeepAll | crates/xfer-bt/src/engine.rs:6761-6778 | with whole files every saved piece is believed |
| Restart.StoredIsOnDisk | crates/xfer-storage/src/piece.rs:745-757 | a stored piece is found by the check of existing data as it was written, unless it reaches into an unselected file |
| Restart.LengthIsReadable | crates/xfer-bt/src/engine.rs:6761-6778 | the length found of a file is that of what can be read of it, nought if there is none |
| Restart.DoneSurvivesRestart | crates/xfer-storage/src/piece.rs:865-874 | in every reachable state whose done pieces the store stands for, each done piece that left the cache and lies in selected files passes the check of existing data and is believed when read from the resume file |
| Restart.StepWrites | crates/xfer-bt/src/engine.rs:5796-5841 | an event changes the disk only if it is a block that completes a missing piece and the write succeeds, and then by that piece |
| Restart.Task.constructor | crates/xfer-bt/src/engine.rs:1395-1450 | a new task: nothing done, nothing stored, the cache limit set on an empty cache |
| Restart.Task.Handle | crates/xfer-bt/src/engine.rs:5796-5841 | over any event the state machine, the store and the piece map stay linked: the store stands for every done piece and the map names exactly those, and a piece is marked only if no write failed |
| Restart.Task.FlushCache | crates/xfer-storage/src/piece.rs:609-620 | a flush, complete or failed, keeps the link |
| Restart.Task.SaveResume | crates/xfer-bt/src/engine.rs:5944-5985 | the resume file names exactly the done pieces that are not waiting in the cache |
| Restart.SavedIsFound | crates/xfer-storage/src/piece.rs:865-874 | whatever the task has handled, every saved piece within the selected files is believed and passes the check of existing data |
| RateLimiter.Limiter.TryConsume | crates/xfer-bt/src/engine.rs:934-948 | one attempt: refill, grant or refuse with the wait |
| RateLimiter.Limiter.Refill | crates/xfer-bt/src/engine.rs:951-963 | tokens for whole milliseconds, rounded down, capped, clock reset |
| RateLimiter.Limiter.SetRate | crates/xfer-bt/src/engine.rs:966-970 | afterwards the rate is the one asked for, and the tokens it finds are capped by it |
| RateLimiter.ReratedIs | crates/xfer-bt/src/engine.rs:966-970 | a change of rate earns at the old rate, sets the new one and keeps the tokens up to its capacity |
| RateLimiter.AttemptMeans | crates/xfer-bt/src/engine.rs:934-948 | a request is granted and deducted exactly when the tokens cover it or the rate is 0; otherwise the wait is what the deficit takes, at least a millisecond |
| RateLimiter.EarnedExactly | crates/xfer-bt/src/engine.rs:951-963 | earnings are rate times whole milliseconds over a thousand, rounded down |
| RateLimiter.FirstBurst | crates/xfer-bt/src/engine.rs:919-932 | a new limiter with a limit grants one second at once and no more |
| RateLimiter.FullWhenIdle | crates/xfer-bt/src/engine.rs:951-963 | a limiter left alone for long enough is full |
| RateLimiter.Limiter.Acquire | crates/xfer-bt/src/engine.rs:4508-4525 | from 10 bytes a second on the retry loop ends with the request granted, however long the sleeps turn out |
| RateLimiter.NeverOverfull | crates/xfer-bt/src/engine.rs:929-970 | over any calls and changes of rate the tokens never exceed the capacity |
| RateLimiter.RateIsRespected | crates/xfer-bt/src/engine.rs:934-963 | over any run from creation at rate r for a time T, bytes granted are at most r seconds' worth of burst plus r times T |
| RateLimiter.RatesAreRespected | crates/xfer-bt/src/engine.rs:929-970 | over any run with changes of rate, as long as none is 0 or above some rate, bytes granted are at most the first burst plus that rate times the time |
| RateLimiter.HighestRateIsRespected | crates/xfer-bt/src/engine.rs:929-970 | the same from creation |
| RateLimiter.FastEnough | crates/xfer-bt/src/engine.rs:4508-4525 | from 10 bytes a second on a lone consumer of any request that fits the bucket is served within a hundred tries for each missing byte |
| RateLimiter.TooBigNeverServed | crates/xfer-bt/src/engine.rs:929-948 | a request larger than the capacity, the rate or 64 KiB whichever is more, is refused for ever |
| RateLimiter.ServedIff | crates/xfer-bt/src/engine.rs:934-948 | with exact sleeps a consumer refused in any state is ever served if and only if its request fits the bucket and the rate is at least 10, or what the time since the last refill and the first sleep earn covers the deficit or leaves a servable one |
| RateLimiter.ServedIffFresh | crates/xfer-bt/src/engine.rs:934-948 | just after a refill: the rate is at least 10, or 2, 4, 5 or 8, or it is 6 and a multiple of 3 is missing |

## Left out

- Interleavings finer than one handler: sessions run their handlers concurrently and a piece may be downloaded twice between two lock regions (the comment at crates/xfer-bt/src/engine.rs:5815); the model makes no claim about exclusive ownership between them.
- ValidConfig: pieces of 4 GiB and more, whose length the source truncates to u32, and a hash list shorter than the piece count, on which the source panics, are excluded.
- Layout: offsets are unbounded, so the u64 overflow of a piece start near 2^64 and the u32 cast of the piece count are not modelled.
- Engine.TorrentEngine.PieceReceived: the wait for the download limit is modelled separately in RateLimiter; broadcasting `have` and saving the resume file are not modelled.
- Swarm: `HaveAll` between two seeders disconnects in the source; here it only extends what the peer holds.
- Swarm: time enters as two booleans of the tick (no block for five seconds, last requests older than thirty); whether requests went out since the last block is state.
- Swarm: the flag of a running check of existing data is an event; merging its result into the map while sessions run is not modelled, a check ends before the start state.
- Verify.VerifyProgress.Record: one step for a piece; the separate additions are in Counters.
- VerifyRun.VerifyExisting: one piece of one thread is one step; the separate additions to its counters are in Counters.
- Torrent.SaveThenParse: the field checks of `parse_info`, text decoding and path sanitising are parameters; the theorem holds for any of them.
- Metadata.HandleKeepsInv: opening the storage after a successful assembly is a flag; the handler is one atomic step.
- MetadataSession.HonestSession: a session asks for one piece at a time and waits for the reply; several requests in flight are covered by Metadata.ExchangeCompletes, which takes replies in any order.
- Playhead.TierIsUrgency: piece ends and playhead are offsets below 2^64, as the types of the source have it.
- Mse.PeInitiator: a scan that hit its limit and one whose stream ended are both reported as a failed synchronisation.
- EncStream.EncryptedStream.WriteEncrypted: over leftovers of polled writes the bytes on the wire are stated, but the stream is then out of step and no lemma goes on from there; the source does not mix the two.
- EncStream.EncryptedStream.PollWrite: a caller that does not re-present the unaccepted suffix keeps the stream well-formed, but the lemma about the accepted prefix does not apply to it.
- Resume.LoadAfterSave: the JSON text, the temporary file and its renaming are not modelled; a missing or corrupt file is no document.
- Resume.RestoreResume: the disk-usage comparison is exact where the source rounds to f64.
- RateLimiter.ServedIff: time spent outside the sleeps is taken to be zero.
- RateLimiter: the u64 cast of the earned tokens is not modelled.
- VerifyRun.RangesCover: the choice of the number of threads is a parameter; any positive number is covered.
- FileCache.ReadPiece: read errors on a file that is long enough are not modelled.
- Counters: additions and loads take effect in one order for all threads, where the source asks for relaxed atomics only; the per-file loads are stated for checked bytes only.
- Restart.Task.constructor: a task starts with nothing done; what a resume file or a check of existing data brings is in Resume and VerifyRun.
- Store.PieceStore.Flush: flushing and syncing the file handles afterwards is not modelled.
- Serving blocks to peers, choking decisions, allowed-fast sets, peer exchange, hole punching: little beyond table lookups and plumbing.
- Trackers, DHT, local discovery, uTP, port mapping, timers, the scheduler and the user interface: I/O and process wiring.
- SHA-1, RC4 key scheduling and Diffie-Hellman: parameters.
- Client names, character sets, percent decoding and the rest of magnet links: library calls and tables.
