# SSP21 in Dafny

A model of SSP21, a two-party secure transport for industrial links, with proofs of what it promises.
`dafny verify dfyconfig.toml` checks everything.

| file | part of the system |
|---|---|
| `Bytes.dfy`, `Crc32.dfy` | octets, big-endian integers, the table-driven CRC |
| `LinkFrames.dfy`, `LinkParser.dfy`, `LinkWriter.dfy` | link frames as a pure scan, the resynchronising parser over one buffer, the frame writer |
| `Codec.dfy`, `Messages.dfy` | variable lengths, fields and nested structs, the messages |
| `Chain.dfy` | certificate chain verification |
| `QixFrames.dfy`, `QixKeyStore.dfy` | the key feed: frame parser and single-use key store |
| `Session.dfy`, `Channel.dfy`, `Timing.dfy` | one session; whole conversations over an arbitrary channel; time and space limits |
| `Handshake.dfy`, `EndToEnd.dfy` | the three handshake families and key agreement; handshake followed by conversation |
| `LayerTrace.dfy`, `CryptoLayer.dfy` | the crypto layer as initiator or responder, event by event, and what holds over every run |

Objects of the program are classes whose methods are proved against functions of their old state; the
theorems are about those functions and about whole runs.

How the outside world enters:

- Hash, HMAC, key agreement, AEAD and signatures are function parameters. The laws used are stated
  where they are used: the agreement commutes; opening undoes sealing; what opens under a key was
  sealed by the peer (`Channel.Unforged`); and no two of the values actually hashed or authenticated
  in a pair of handshakes collide (`Handshakes.CollisionFree`), since injectivity on all inputs is
  impossible for a digest of fixed size.
- The clock, random numbers, the result of a handshake step and the size of a handshake request or
  reply are arbitrary in `CryptoLayer`: its results hold whatever they are. The lower layer stops being ready
  when a frame is lent to it and becomes ready with its tx-ready event. Calls of the upper layer are
  events of their own.
- Times are ticks of a steady clock with any number of ticks per millisecond.
- The slice and timer libraries are not part of this model; their behaviour is taken from their use.

Where the program does less than one might expect, the exact condition is proved:

- A run of 0x07 octets right before a link frame loses the frame when its length is odd
  (`LinkFrames.FramesSurviveJunk`, with `LinkFrames.JunkBothWays` at inputs on both sides).
- Authentic but empty session data is refused and still uses up its nonce. The user of strict mode sees
  a gap-free prefix exactly when no accepted empty text has a non-empty one behind it
  (`Channel.StrictModeDeliversPrefix`); `Channel.EmptyDataLeavesGap` is a run where one has.
- A format error closes the upper layer but keeps the unsent data, exactly when the session cannot
  format it (`CryptoLayers.CryptoLayer.CheckTransmit`). The data goes out with a later session, and
  `LayerTraces.Settled` says what then still holds. Data that is empty gets no notification.
- A responder that accepted a peer but cannot format its own authentication has an active session and
  does not open its upper layer (`CryptoLayers.CryptoLayer.OnAuthRequest`).
- A layer with unread data reads nothing and completes no handshake until the lower layer closes or the
  upper layer asks twice; an upper layer that was closed by a format error does not have to ask
  (`CryptoLayers.CryptoLayer.Handle`, `CryptoLayers.CryptoLayer.TryReadFromLower`).

## Model

| member | source | states |
|---|---|---|
| Crc32.Calc | cpp/libs/ssp21/src/link/CastagnoliCRC32.cpp:5-15 | the table-driven loop computes the CRC that is defined octet by octet with eight polynomial steps each |
| Crc32.TableIsDivision | cpp/libs/ssp21/src/link/CastagnoliCRC32.cpp:17-50 | each of the 256 table entries is its index, moved to the top octet, after eight division steps by 0xF4ACFB13 |
| Crc32.CrcIsLongDivision | cpp/libs/ssp21/src/link/CastagnoliCRC32.cpp:5-15 | for every input the CRC is the remainder of bit-by-bit long division of the message followed by 32 zero bits |
| Crc32.CrcLinear | cpp/libs/ssp21/src/link/CastagnoliCRC32.cpp:5-15 | the CRC of the xor of two inputs of equal length is the xor of their CRCs |
| Crc32.CrcResidue | cpp/libs/ssp21/src/link/CastagnoliCRC32.cpp:5-15 | data followed by its own CRC, most significant octet first, has CRC zero |
| Crc32.BurstDetected | cpp/libs/ssp21/src/link/CastagnoliCRC32.cpp:5-15 | two messages that differ, and only within four consecutive octets, have different CRCs |
| Crc32.CrcFieldRoundTrip | cpp/libs/ssp21/src/link/LinkFrameWriter.cpp:53-68 | a CRC field of four octets reads back as the value written |
| Crc32.CrcFieldCanonical | cpp/libs/ssp21/src/link/LinkParser.cpp:137-160 | every four octets are the field of exactly the value they read as |
| Bytes.BigEndianRoundTrip | cpp/libs/ssp21/src/link/LinkFrameWriter.cpp:17-51 | a value that fits its width is read back from its big-endian octets |
| Bytes.BigEndianCanonical | cpp/libs/ssp21/src/link/LinkParser.cpp:95-135 | every octet string is the big-endian form of the value it reads as |
| LinkFrames.ScanExtends | cpp/libs/ssp21/src/link/LinkParser.cpp:40-65 | scanning a stream that goes on gives the same first frame, or continues from exactly the octets that were still undecided |
| LinkFrames.EncodeScans | cpp/libs/ssp21/src/link/LinkFrameWriter.cpp:17-68 | an encoded frame at the front of a stream is the first one found, and is consumed to its last octet |
| LinkFrames.WrittenFramesAreRead | cpp/libs/ssp21/src/link/LinkFrameWriter.cpp:17-68 | any list of encoded frames, concatenated, reads back as exactly that list |
| LinkFrames.JunkThenFrames | cpp/libs/ssp21/src/link/LinkParser.cpp:67-81 | the same after any prefix with no 0x07 octet |
| LinkFrames.SyncOctetLosesFrame | cpp/libs/ssp21/src/link/LinkParser.cpp:83-93 | a single 0x07 in front of a frame loses that frame |
| LinkFrames.FramesSurviveJunk | cpp/libs/ssp21/src/link/LinkParser.cpp:67-93 | after junk in which no 0xAA directly follows a 0x07, the frames survive if and only if the run of 0x07 octets that ends the junk has even length |
| LinkFrames.JunkBothWays | cpp/libs/ssp21/src/link/LinkParser.cpp:83-93 | the junk AA 07 loses the frame behind it and the junk 07 55 AA does not |
| LinkFrames.FrameIsEncoding | cpp/libs/ssp21/src/link/LinkParser.cpp:95-160 | a frame whose two CRCs hold is the encoding of its addresses and payload |
| LinkFrames.GotWasSent | cpp/libs/ssp21/src/link/LinkParser.cpp:95-160 | a delivered frame lies in the stream as the encoding of its contents, within the payload limit |
| LinkFrames.FramesWereSent | cpp/libs/ssp21/src/link/LinkParser.cpp:40-160 | the whole stream is the delivered frames, encoded, in order, with gaps between them: no frame is made up, repeated or reordered |
| LinkParsing.LinkParser.constructor | cpp/libs/ssp21/src/link/LinkParser.cpp:13-21 | the payload limit is capped and the buffer holds the largest frame |
| LinkParsing.LinkParser.Reset | cpp/libs/ssp21/src/link/LinkParser.cpp:28-31 | nothing is pending after a reset |
| LinkParsing.LinkParser.Parse | cpp/libs/ssp21/src/link/LinkParser.cpp:33-38 | feeding a slice yields the first frame of everything pending plus the slice, leaving the rest unread, or keeps exactly the undecided octets |
| LinkParsing.LinkParser.ParseMany | cpp/libs/ssp21/src/link/LinkParser.cpp:40-49 | consumes input, also from a slice of the buffer it writes into, without changing what the stream means and without touching unread octets |
| LinkParsing.LinkParser.ParseOne | cpp/libs/ssp21/src/link/LinkParser.cpp:51-65 | one state-dependent step makes progress and preserves the meaning of pending plus unread octets |
| LinkParsing.LinkParser.SkipToSync | cpp/libs/ssp21/src/link/LinkParser.cpp:67-81 | skips to the next 0x07; what is skipped cannot start a frame |
| LinkParsing.LinkParser.ParseSync1 | cpp/libs/ssp21/src/link/LinkParser.cpp:67-81 | preserves the meaning of the stream while looking for the first synchronisation octet |
| LinkParsing.LinkParser.ParseSync2 | cpp/libs/ssp21/src/link/LinkParser.cpp:83-93 | preserves the meaning of the stream; a wrong second octet is dropped with the first |
| LinkParsing.LinkParser.TransferData | cpp/libs/ssp21/src/link/LinkParser.cpp:162-172 | moves octets of a possibly overlapping slice to the end of the pending octets, in bounds, leaving unread octets as they were |
| LinkParsing.LinkParser.ParseHeader | cpp/libs/ssp21/src/link/LinkParser.cpp:95-135 | preserves the meaning of the stream while completing a header |
| LinkParsing.LinkParser.CheckHeader | cpp/libs/ssp21/src/link/LinkParser.cpp:95-135 | on a bad header CRC, re-parsing the ten octets inside the live buffer gives what pushing them back in front of the input gives, with nesting at most one deep |
| LinkParsing.LinkParser.ParseBody | cpp/libs/ssp21/src/link/LinkParser.cpp:137-160 | preserves the meaning of the stream while completing a body |
| LinkParsing.LinkParser.CheckBody | cpp/libs/ssp21/src/link/LinkParser.cpp:137-160 | a whole frame is kept for reading exactly when its body CRC holds, and else dropped |
| LinkParsing.LinkParser.Read | cpp/libs/ssp21/src/link/LinkParser.h:34-42 | hands out the addresses and payload of the pending frame, if there is one |
| LinkParsing.ParseChunks | cpp/libs/ssp21/src/link/LinkParser.cpp:33-172 | however a stream is cut into chunks, reading and resetting after each frame delivers the frames of a pure parser over the whole stream |
| LinkWriting.LinkFrameWriter.Write | cpp/libs/ssp21/src/link/LinkFrameWriter.cpp:17-68 | succeeds exactly for payloads of at most the configured size, and leaves the encoding of that payload in the buffer |
| Codec.DecodeVLength | cpp/libs/ssp21/src/crypto/VLength.cpp:44-79 | the shifting loop reads exactly the lengths the reference reader accepts, with its errors |
| Codec.VLengthRoundTrip | cpp/libs/ssp21/src/crypto/VLength.cpp:13-79 | every 32-bit length reads back, leaving what follows it |
| Codec.VLengthCanonical | cpp/libs/ssp21/src/crypto/VLength.cpp:44-94 | whatever is accepted is the shortest encoding of the value read |
| Codec.Write | cpp/libs/ssp21/include/ssp21/crypto/SeqByteField.h:54-66 | writing a field succeeds exactly when its octets fit, and then they are in place |
| Codec.WriteItems | cpp/libs/ssp21/include/ssp21/crypto/SeqStructField.h:60-73 | the same for the loop over a sequence of structs |
| Codec.WriteFields | cpp/libs/ssp21/src/crypto/MessageFormatter.h:34-41 | the same for a list of fields |
| Codec.WriteMessage | cpp/libs/ssp21/src/crypto/MessageFormatter.h:16-32 | a message is written exactly when one octet more than the sum of its field sizes is available |
| Codec.CalcSizeOfItems | cpp/libs/ssp21/include/ssp21/crypto/SeqStructField.h:23-32 | the size loop gives the length of what writing produces |
| Codec.SizeIsLength | cpp/libs/ssp21/include/ssp21/crypto/SeqByteField.h:20-23 | the declared size of any field is the length of its encoding |
| Codec.DecodeItems | cpp/libs/ssp21/include/ssp21/crypto/SeqStructField.h:34-58 | the counting loop reads what the reference reader reads, with its errors, including the capacity limit |
| Codec.RoundTrip | cpp/libs/ssp21/include/ssp21/crypto/SeqByteField.h:38-66 | reading undoes writing for every field type, nested to any depth |
| Codec.Canonical | cpp/libs/ssp21/include/ssp21/crypto/EnumField.h:36-56 | whatever a field reader accepts is the encoding of the well-typed value it read |
| Codec.ToBuffer | cpp/libs/ssp21/include/ssp21/util/SerializationUtils.h:13-27 | a buffer of the declared size is filled exactly: neither error is reached |
| Codec.MessageBijection | cpp/libs/ssp21/src/crypto/MessageParser.h:17-52 | octets parse to given fields if and only if the fields are well typed and the octets are their encoding |
| Codec.StructBijection | cpp/libs/ssp21/src/crypto/gen/CertificateBody.cpp:41-86 | the same for a struct that must fill its input |
| Messages.EncodeRequestInjective | cpp/libs/ssp21/src/crypto/gen/RequestHandshakeBegin.cpp:43-91 | two requests with the same octets are the same request |
| Messages.RequestReadsBack | cpp/libs/ssp21/src/crypto/gen/RequestHandshakeBegin.cpp:43-91 | a request is parsed back from its octets, field by field |
| Messages.ReplyReadsBack | cpp/libs/ssp21/src/crypto/gen/ReplyHandshakeBegin.cpp:48-78 | a reply is parsed back from its octets, field by field |
| Messages.RequestLayout | cpp/libs/ssp21/src/crypto/gen/RequestHandshakeBegin.cpp:43-91 | which requests can be encoded, and to which octets, field by field, down to each algorithm code |
| Messages.ReplyLayout | cpp/libs/ssp21/src/crypto/gen/ReplyHandshakeBegin.cpp:48-78 | which replies can be encoded, and to which octets, field by field |
| Messages.ErrorLayout | cpp/libs/ssp21/src/crypto/gen/ReplyHandshakeError.cpp:35-71 | the octets of an error message, which are six |
| Messages.CertificateLayout | cpp/libs/ssp21/src/crypto/gen/CertificateBody.cpp:41-86 | which certificate bodies can be encoded, and to which octets, field by field |
| Messages.SessionDataSize | cpp/libs/ssp21/src/crypto/gen/SessionData.cpp:37-76 | when a session message can be encoded, and its exact length |
| Messages.SessionDataLayout | cpp/libs/ssp21/src/crypto/gen/SessionData.cpp:37-76 | the octets of a session message, part by part |
| Messages.SessionDataBijection | cpp/libs/ssp21/src/crypto/gen/SessionData.cpp:37-76 | octets parse to a session message if and only if they are the encoding of it |
| Messages.MetadataOctetsInjective | cpp/libs/ssp21/src/crypto/SessionMode.cpp:26-31 | the authenticated octets determine nonce and expiry |
| Messages.CertificateBijection | cpp/libs/ssp21/src/crypto/gen/CertificateBody.cpp:41-86 | a certificate body is accepted if and only if its octets encode it |
| Chain.Verify | cpp/libs/ssp21/src/crypto/Chain.cpp:10-42 | the loop over certificates returns what the recursive definition returns, error or final body |
| Chain.VerifyComposes | cpp/libs/ssp21/src/crypto/Chain.cpp:10-42 | verifying c1 followed by a non-empty c2 is verifying c2 from the body reached through c1 |
| Chain.AcceptedExactly | cpp/libs/ssp21/src/crypto/Chain.cpp:10-76 | a chain is accepted if and only if every certificate parses, is signed by its Ed25519 predecessor, has a lower signing level and lies in the validity windows of all before it |
| Chain.ChainLengthBounded | cpp/libs/ssp21/src/crypto/Chain.cpp:44-76 | an accepted chain is no longer than the signing level of the anchor |
| QixFrames.WriteFrame | cpp/libs/qix/src/QIXFrameWriter.cpp:33-56 | writes the frame of a key with the status octet for a good key, exactly for 32 octets of key data |
| QixFrames.EncodeReadsBack | cpp/libs/qix/src/QIXFrameParser.cpp:52-73 | the CRC of a written frame holds and the fields parsed from it are those written, for every status octet; 0x01 alone is good and 0xFF alone compromised |
| QixFrames.QixFrameParser.Parse | cpp/libs/qix/src/QIXFrameParser.cpp:19-50 | a full buffer is shifted to the next possible start, dropped, or delivered |
| QixFrames.QixFrameParser.ScanForSync | cpp/libs/qix/src/QIXFrameParser.cpp:88-109 | finds the first place where a frame can start |
| QixFrames.ReadStream | cpp/libs/qix/src/AsyncQIXFrameReader.cpp:33-70 | any number of fill, shift and parse rounds delivers what the stream defines, each frame with the octets still unread at that moment |
| QixFrames.GapSkipped | cpp/libs/qix/src/QIXFrameParser.cpp:88-109 | a gap with no adjacent 5A A5 pair hides nothing that follows |
| QixFrames.AllDelivered | cpp/libs/qix/src/QIXFrameParser.cpp:12-109 | frames with any status, separated by such gaps, are all delivered, in order, each exactly when its last octet arrives |
| QixFrames.FramesWereSent | cpp/libs/qix/src/QIXFrameParser.cpp:12-109 | every stream is its delivered frames, each a whole encoding with a valid CRC, in order, with gaps between them: none is made up, repeated or reordered |
| QixFrames.DamageDetected | cpp/libs/qix/src/QIXFrameParser.cpp:19-86 | a frame changed within any four consecutive octets of those its CRC covers is not delivered, and what follows it is not affected |
| QixKeyStoring.QixKeyStore.AddKey | cpp/libs/qix/src/QIXKeyStore.cpp:11-27 | the ordered map acts as a bounded deque: a smaller id clears it, an equal id replaces, one too many pushes out the oldest |
| QixKeyStoring.PushedExactly | cpp/libs/qix/src/QIXKeyStore.cpp:11-27 | what can be found after adding a record, id by id: an id below the newest empties the store first, the record itself is found, a full store gives up its oldest, all else is as before |
| QixKeyStoring.QixKeyStore.ConsumeKey | cpp/libs/qix/src/QIXKeyStore.cpp:29-39 | hands out and removes the newest record |
| QixKeyStoring.QixKeyStore.FindAndConsumeKey | cpp/libs/qix/src/QIXKeyStore.cpp:41-52 | hands out and removes the key of a given id |
| QixKeyStoring.SizeBounded | cpp/libs/qix/src/QIXKeyStore.cpp:11-27 | over any calls the store stays within its limit and in order of id |
| QixKeyStoring.HandedOutAtMostOnce | cpp/libs/qix/src/QIXKeyStore.cpp:11-52 | over any calls, records handed out and records still held are at most those added, counted with multiplicity |
| QixKeyStoring.AddedIsFound | cpp/libs/qix/src/QIXKeyStore.cpp:41-52 | with increasing ids a record is found as long as fewer than the limit were added after it |
| QixKeyStoring.StoresAgree | cpp/libs/qix/src/QIXKeyStore.cpp:11-52 | of two stores fed the same frames, the second finds under its id the very record the first handed out |
| QixKeyStoring.Drive | cpp/libs/qix/src/QIXKeyStore.cpp:11-52 | any sequence of calls on a store object holds and hands out what the run of the deque says |
| Sessions.MacAeadCorrect | cpp/libs/ssp21/src/crypto/MacAdapters.h:15-84 | the MAC adapters open what they sealed, and open nothing they would not seal |
| Sessions.AuthenticatedInjective | cpp/libs/ssp21/src/crypto/MacAdapters.h:36-40 | the octets under the MAC determine associated data and text |
| Sessions.Session.Initialize | cpp/libs/ssp21/src/crypto/Session.cpp:26-42 | succeeds exactly with two keys of 32 octets, and then both counters are zero |
| Sessions.Session.Reset | cpp/libs/ssp21/src/crypto/Session.cpp:44-48 | the session is invalid and its keys are gone; counters and parameters stay |
| Sessions.Session.ValidateWithNonceCheck | cpp/libs/ssp21/src/crypto/Session.cpp:91-144 | the verdict and the receive counter, check by check; only acceptance changes the session |
| Sessions.Session.ValidateSessionAuth | cpp/libs/ssp21/src/crypto/Session.cpp:50-53 | accepts nonce 0 only while nothing was received |
| Sessions.Session.ValidateSessionData | cpp/libs/ssp21/src/crypto/Session.cpp:55-69 | authentic empty data is refused but uses up its nonce |
| Sessions.Session.FormatNoNonceCheck | cpp/libs/ssp21/src/crypto/Session.cpp:146-195 | the message, the text left over and the 16-bit counter, error by error; only success counts |
| Sessions.Session.FormatSessionAuth | cpp/libs/ssp21/src/crypto/Session.cpp:71-79 | formats only as the first message |
| Sessions.Session.FormatSessionData | cpp/libs/ssp21/src/crypto/Session.cpp:81-89 | formats only below the nonce limit |
| Channel.NoncesCountUp | cpp/libs/ssp21/src/crypto/Session.cpp:71-195 | over any mix of calls the emitted messages carry consecutive nonces, are sealed under the one transmit key, and the counter never wraps |
| Channel.NoNonceTwice | cpp/libs/ssp21/src/crypto/Session.cpp:71-195 | from a fresh session the nonces are 0, 1, 2, ... and no key and nonce pair is used twice |
| Channel.AcceptedWasSent | cpp/libs/ssp21/src/crypto/Session.cpp:91-144 | what a session accepts is, octet for octet, the message its peer numbered so |
| Channel.AcceptsExactly | cpp/libs/ssp21/src/crypto/NonceFunctions.h:19-37 | a message is accepted if and only if it is the one sent under its nonce, in time, within the limit, and next in order: one more than the last in strict mode, greater than it otherwise |
| Channel.ReceiptsInOrder | cpp/libs/ssp21/src/crypto/Session.cpp:91-144 | receipts are the sent messages of their nonces, with nonces rising, by exactly one in strict mode |
| Channel.ChannelInOrder | cpp/libs/ssp21/src/crypto/Session.cpp:50-195 | with mirrored keys, over a channel that drops, repeats, reorders and injects, accepted data is an in-order subsequence of what was sent without repetition, never the auth message, and gap-free in strict mode |
| Channel.ChannelExactly | cpp/libs/ssp21/src/crypto/Session.cpp:91-144 | with mirrored keys, over a channel that drops, repeats, reorders and injects, what is received is exactly the genuine messages that come in time and in order, in either nonce mode; a lost one does not block the rest in greater-than-last mode |
| Channel.StrictModeDeliversPrefix | cpp/libs/ssp21/src/crypto/Session.cpp:50-195 | in strict mode the user sees exactly the non-empty texts among those accepted after the auth message, and this is a gap-free prefix of what was sent if and only if no empty one has a non-empty one behind it |
| Channel.NoEmptyDataNoGap | cpp/libs/ssp21/src/crypto/Session.cpp:55-69 | so a gap-free prefix is delivered whenever the sender formats no non-empty data after empty data |
| Channel.EmptyDataLeavesGap | cpp/libs/ssp21/src/crypto/Session.cpp:63-66 | a run between connected sessions in which an empty text is formatted before a non-empty one and the prefix fails |
| Channel.PrefixExactly | cpp/libs/ssp21/src/crypto/Session.cpp:63-66 | leaving out the empty texts leaves a prefix if and only if they are all at the end |
| Channel.Handover | cpp/libs/ssp21/src/crypto/Session.cpp:91-195 | what one session formats its peer accepts and turns back into the text, if it is next in the order the peer asks for and in time |
| Channel.MacUnforged | cpp/libs/ssp21/src/crypto/MacAdapters.h:48-84 | in a MAC mode, that what opens was sent follows from the MAC alone: only inputs the sender authenticated have tags that open |
| Channel.Drive | cpp/libs/ssp21/src/crypto/Session.cpp:26-195 | any sequence of calls on a session object emits, receives and ends up as the run of its state says |
| Timing.ExpiryIsExact | cpp/libs/ssp21/src/crypto/Session.cpp:161-174 | the expiry of every formatted message is exact in milliseconds, fits 32 bits and lies within the session |
| Timing.LifetimeBounds | cpp/libs/ssp21/src/crypto/Session.cpp:106-126 | a message passes all time checks within the pad less the skew less a millisecond, and fails them after the pad plus the skew |
| Timing.HandshakeSkew | cpp/libs/ssp21/src/crypto/PublicKeyInitiatorHandshake.cpp:65-76 | the two session starts differ by at most half a round trip, rounded up, and the estimate is not later than the reply |
| Timing.FragmentFits | cpp/libs/ssp21/src/crypto/SessionMode.cpp:13-24 | a full fragment takes 1051 octets; with that capacity every fragment fits, with less no long text does |
| Timing.FormsExactly | cpp/libs/ssp21/src/crypto/SessionMode.cpp:59-92 | formatting succeeds if and only if the session is valid, has a nonce left, is within its time less the pad, and the fragment fits; 1051 octets always suffice and, for a text of a full fragment, are needed; it takes 1 to 1024 octets off the front |
| Handshakes.HkdfIsRfc5869 | cpp/libs/sodium/src/HKDF.h:15-36 | the two keys are the first two blocks of HKDF, sections 2.2 and 2.3 of RFC 5869, with empty info |
| Handshakes.ComputeTranscript | cpp/libs/ssp21/src/crypto/HandshakeHasher.cpp:6-15 | overwriting one buffer twice gives the hash of the hash of the request followed by the reply |
| Handshakes.ComputeTripleDh | cpp/libs/ssp21/src/crypto/TripleDH.cpp:6-27 | three agreements or none |
| Handshakes.ExchangePublicKeys | cpp/libs/ssp21/src/crypto/PublicKeyInitiatorHandshake.cpp:11-78 | a whole handshake between an initiator object and a responder over two session objects, octets in between: the sessions mirror each other exactly when the responder answers, and otherwise neither changes |
| Handshakes.PublicKeyInitiator.InitializeSession | cpp/libs/ssp21/src/crypto/PublicKeyInitiatorHandshake.cpp:26-89 | the session, or failure, that the secrets, the request hash and the reply determine |
| Handshakes.ExchangeSharedSecret | cpp/libs/ssp21/src/crypto/SharedSecretInitiatorHandshake.cpp:18-71 | the same for a shared secret |
| Handshakes.SharedSecretInitiator.InitializeSession | cpp/libs/ssp21/src/crypto/SharedSecretInitiatorHandshake.cpp:31-82 | the session, or failure, for a shared secret |
| Handshakes.ExchangeQuantum | cpp/libs/ssp21/src/crypto/QKDInitiatorHandshake.cpp:18-89 | the same over two key stores: the newest key of the one is used up on both sides |
| Handshakes.QuantumInitiator.InitializeSession | cpp/libs/ssp21/src/crypto/QKDInitiatorHandshake.cpp:44-100 | the session, or failure, for a distributed key |
| Handshakes.ProcessPublicKeys | cpp/libs/ssp21/src/crypto/PublicKeyResponderHandshake.cpp:22-109 | the reply and session, or the error in order of the checks, leaving the session alone on error |
| Handshakes.ProcessSharedSecret | cpp/libs/ssp21/src/crypto/SharedSecretResponderHandshake.cpp:22-81 | the same for a shared secret |
| Handshakes.ProcessQuantum | cpp/libs/ssp21/src/crypto/QKDResponderHandshake.cpp:22-92 | the reply and session, or the error in order of the checks, for a key found in the store; a request sound enough to be looked up uses the key up, whatever becomes of the reply |
| Handshakes.ServeAll | cpp/libs/ssp21/src/crypto/QKDResponderHandshake.cpp:47-52 | over any mix of added keys and requests, an id is answered at most as often as a key was added under it |
| Handshakes.SameMaterial | cpp/libs/ssp21/src/crypto/TripleDH.cpp:6-27 | with matching secrets both sides feed the same key material, by commutativity of the agreement in the public key family |
| Handshakes.HandshakeMirrors | cpp/libs/ssp21/src/crypto/PublicKeyResponderHandshake.cpp:75-108 | in every family, once a responder answers a matching peer, that peer accepts the answer and both hold sessions with mirrored keys and the rules the request asked for |
| Handshakes.KeysPinTranscript | cpp/libs/ssp21/src/crypto/PublicKeyInitiatorHandshake.cpp:36-61 | mirrored keys, without collisions among the values hashed, mean identical request, reply and key material |
| Handshakes.MirroredKeysMirrorSessions | cpp/libs/ssp21/src/crypto/PublicKeyInitiatorHandshake.cpp:26-89 | so, in every family, mirrored keys mean the same request and reply, equal nonce mode, crypto mode, nonce limit and session duration, and equal key material |
| Handshakes.MirroredKeysAuthenticate | cpp/libs/ssp21/src/crypto/TripleDH.cpp:6-27 | and authenticate the peers: with public keys, what each side made with its own static key is what the other made with the static key it trusts; with a shared secret or a distributed key, both hold the same one |
| Handshakes.PublicKeyMaterial | cpp/libs/ssp21/src/crypto/TripleDH.cpp:6-27 | the material of the initiator is the agreement of both ephemeral keys, of its static key with the ephemeral one of the peer, and of its ephemeral key with the trusted static one, and exists exactly when all three do |
| Handshakes.PublicKeyMaterialR | cpp/libs/ssp21/src/crypto/PublicKeyResponderHandshake.cpp:76-90 | the same for the responder, whose reply offers its own ephemeral key and certificate |
| Handshakes.DerivedKeys | cpp/libs/ssp21/src/crypto/PublicKeyResponderHandshake.cpp:92-98 | the initiator sends with the first and the responder with the second block derived from the hash over request and reply and the key material |
| Handshakes.ConfigureExactly | cpp/libs/ssp21/src/crypto/Algorithms.cpp:8-69 | which algorithm codes are supported on which platform, and what they select |
| Handshakes.QuantumStoresMatch | cpp/libs/ssp21/src/crypto/QKDResponderHandshake.cpp:38-52 | two key stores fed the same frames give two peers matching secrets |
| EndToEnd.HandshakeEstablishes | cpp/libs/ssp21/src/crypto/SharedSecretInitiatorHandshake.cpp:31-71 | a handshake of any family establishes two fresh mirrored sessions at most half a round trip apart |
| EndToEnd.EstablishedConversation | cpp/libs/ssp21/src/crypto/Session.cpp:50-195 | over established sessions, in either direction, both the ordering and the lifetime bounds hold |
| CryptoLayers.TxState.OnTxComplete | cpp/libs/ssp21/src/crypto/TxState.h:35-45 | reports completion exactly when a transmission ends with nothing left |
| CryptoLayers.TxState.BeginTransmit | cpp/libs/ssp21/src/crypto/TxState.h:47-56 | starts only when data is waiting |
| CryptoLayers.CryptoLayer.ActivatePending | cpp/libs/ssp21/src/crypto/Sessions.cpp:21-25 | the pending session, which just accepted a message with nonce 0, becomes active unchanged and the old one is reset |
| CryptoLayers.CryptoLayer.TransmitSessionAuth | cpp/libs/ssp21/src/crypto/CryptoLayer.cpp:214-234 | one frame goes out exactly when the session formats it, with the front of the waiting data in it and the rest kept waiting; otherwise no data moves |
| CryptoLayers.CryptoLayer.OnHandshakeRequired | cpp/libs/ssp21/src/crypto/InitiatorHandshakeStates.cpp:14-61 | from idle with a ready lower layer leaves idle; otherwise only remembers the handshake, which then waits for a busy lower layer |
| CryptoLayers.CryptoLayer.OnSessionNonceChange | cpp/libs/ssp21/src/crypto/Initiator.cpp:127-133 | renegotiation by nonce leaves an initiator with something to wake it |
| CryptoLayers.CryptoLayer.CheckTransmit | cpp/libs/ssp21/src/crypto/CryptoLayer.cpp:186-212 | if data can go out and the session formats it, a fragment is lent and a proper rest is left; if formatting fails, all data is kept, the session is reset, the upper layer closed and the lower layer still free; otherwise nothing changes |
| CryptoLayers.CryptoLayer.StartTxFromUpper | cpp/libs/ssp21/src/crypto/CryptoLayer.cpp:31-40 | takes over exactly the given data, and exactly when open, with an open upper layer and nothing in transmission |
| CryptoLayers.CryptoLayer.OnReplyMessage | cpp/libs/ssp21/src/crypto/InitiatorHandshakeStates.cpp:65-82 | a reply counts only while waited for, leads to authentication over a valid pending session or to a retry, and leaves the active session alone |
| CryptoLayers.CryptoLayer.OnErrorMessage | cpp/libs/ssp21/src/crypto/InitiatorHandshakeStates.cpp:84-90 | an error reply leads to a retry exactly in the waiting states |
| CryptoLayers.CryptoLayer.OnAuthMessage | cpp/libs/ssp21/src/crypto/InitiatorHandshakeStates.cpp:101-133 | activates exactly when waiting for a message that the pending session accepts, with nonce 0, and passes its text on; otherwise the active session is unchanged |
| CryptoLayers.CryptoLayer.OnRequestMessage | cpp/libs/ssp21/src/crypto/Responder.cpp:64-81 | keeps all loans, leaves even the pending session alone for a foreign version and answers it with an error, and cannot touch the active session |
| CryptoLayers.CryptoLayer.OnAuthRequest | cpp/libs/ssp21/src/crypto/Responder.cpp:83-111 | activates exactly when the pending session accepts the message; opens the upper layer and passes the text on exactly when the responder can format its own message; without a pending session it answers with an error |
| CryptoLayers.CryptoLayer.ReplyWithHandshakeError | cpp/libs/ssp21/src/crypto/Responder.cpp:26-35 | exactly one frame is lent if its six octets fit, else none |
| CryptoLayers.CryptoLayer.OnSessionData | cpp/libs/ssp21/src/crypto/CryptoLayer.cpp:246-261 | the active session, the data held for the upper layer and the record of accepted texts are what validation makes of them: keys and validity never change, and nothing unread is overwritten |
| CryptoLayers.CryptoLayer.OnSessionMessage | cpp/libs/ssp21/src/crypto/CryptoLayer.cpp:236-244 | data has the effect that the verdict of the active session says, on session, text and record; a message with nonce 0 activates exactly when the pending session accepts it, and on the initiator only while waited for |
| CryptoLayers.CryptoLayer.OnHandshakeMessage | cpp/libs/ssp21/src/crypto/Responder.cpp:53-81 | a readable reply or error has its effect in the states that wait for it and nothing else changes the state; a request that cannot be read or has a foreign version is answered with an error |
| CryptoLayers.CryptoLayer.Process | cpp/libs/ssp21/src/crypto/CryptoLayer.cpp:151-184 | each message has exactly its effect: the text accepted, if any, is that of the verdict of the session that has to judge it, the active session becomes what validation makes of it or is replaced by the pending one exactly on acceptance of nonce 0, and a handshake message moves the state or draws an error |
| CryptoLayers.CryptoLayer.TryReadFromLower | cpp/libs/ssp21/src/crypto/CryptoLayer.cpp:124-149 | reads in order, losing and inventing no message, at least one if it can and nothing changes if it cannot; stops only when it cannot; everything the sessions accept is passed on; the active session stays the same object with the same keys unless one is activated |
| CryptoLayers.CryptoLayer.OnLowerTxReady | cpp/libs/ssp21/src/crypto/CryptoLayer.cpp:103-122 | completion, deferred handshake, notification, reading and transmitting, in that order, keep all invariants, leave nothing that could be read or sent, and change the active session only by activation or with a close of the upper layer |
| CryptoLayers.CryptoLayer.OnLowerClose | cpp/libs/ssp21/src/crypto/CryptoLayer.cpp:86-96 | closing an open layer resets everything: no session, no timer, no waiting or unread data, upper layer closed |
| CryptoLayers.CryptoLayer.OnLowerOpen | cpp/libs/ssp21/src/crypto/Initiator.cpp:102-105 | an opened initiator starts or defers a handshake |
| CryptoLayers.CryptoLayer.StartRxFromUpper | cpp/libs/ssp21/src/crypto/CryptoLayer.cpp:42-50 | hands out unread data and records it; asked again, it drops that data and reads on |
| CryptoLayers.CryptoLayer.OnResponseTimeout | cpp/libs/ssp21/src/crypto/InitiatorHandshakeStates.cpp:92-97 | a response timeout always finds a waiting state: the default handler is unreachable |
| CryptoLayers.CryptoLayer.OnRetryTimeout | cpp/libs/ssp21/src/crypto/Initiator.cpp:78-86 | a retry timeout always finds the retry state, and leaves it for a handshake |
| CryptoLayers.CryptoLayer.OnSessionTimeout | cpp/libs/ssp21/src/crypto/Initiator.cpp:88-95 | a session timeout leads to a handshake, at once or when the lower layer is free |
| CryptoLayers.CryptoLayer.Handle | cpp/libs/ssp21/src/crypto/Initiator.cpp:69-140 | every event keeps all invariants and has its effect at once: what arrives is read or waits, in order, nothing that could be read or sent is left over, a timeout moves the handshake on, data is taken over exactly when it can be; without an activation the active session keeps object and keys, and loses validity only with a close of the upper layer; a bad configuration lasts until close; with unread data nothing is read and no handshake completes until a close or a second read by the upper layer |
| CryptoLayers.Continue | cpp/libs/ssp21/src/crypto/CryptoLayer.cpp:86-261 | from any valid state, over any events: the messages that arrived are those read, in order, and those that wait; what was accepted from them is what the judging sessions say; what the upper layer read and what it handed over is what the trace says; without an activation the active session is the same object with the same keys, and invalid only with a closed upper layer |
| CryptoLayers.Run | cpp/libs/ssp21/src/crypto/CryptoLayer.cpp:103-234 | in every run: loans kept, each transfer is of the data handed over, accounted for and reported only after its last fragment, every message read once and in order and accepted as its judge says, received text accounted for, no session number and nonce sent twice, activations sound, an open upper layer has a valid session, timers match the state, and an open idle initiator has something to wake it |
| CryptoLayers.NoncesFollow | cpp/libs/ssp21/src/crypto/Session.cpp:188-194 | in every run each message carries as nonce the number of messages of its session before it |
| CryptoLayers.TextsFollow | cpp/libs/ssp21/src/crypto/CryptoLayer.cpp:246-261 | in every run the texts handed to the upper layer are the accepted non-empty texts in order, each once, but for those given up by a close or an unformattable answer and at most one still waiting |
| LayerTraces.LoanMeans | cpp/libs/ssp21/src/crypto/CryptoLayer.cpp:186-234 | between lending a frame and writing the buffer or lending again, the lower layer gave the frame back |
| LayerTraces.ActivationMeans | cpp/libs/ssp21/src/crypto/Responder.cpp:83-111 | an activated session was initialised, then authenticated a message with nonce 0, and is activated only once |
| LayerTraces.FragmentStep | cpp/libs/ssp21/src/crypto/TxState.h:47-56 | handing down a fragment keeps what was sent and what is left equal to the data given |
| LayerTraces.TransfersAreWrites | cpp/libs/ssp21/src/crypto/CryptoLayer.cpp:31-40 | the transfers of a trace are those of the data that was handed over, in order |
| LayerTraces.ReadyStep | cpp/libs/ssp21/src/crypto/TxState.h:35-45 | the upper layer hears of completion once, if it is still open |
| LayerTraces.ReportMeans | cpp/libs/ssp21/src/crypto/CryptoLayer.cpp:107-117 | when the upper layer is told to go on, all its data went down and the last frame came back, and no more user data goes down until it hands some over |
| LayerTraces.NonceMeans | cpp/libs/ssp21/src/crypto/Session.cpp:71-89 | of two messages of one session the later has the larger nonce, and the first has nonce 0 |
| LayerTraces.IntakeMeans | cpp/libs/ssp21/src/crypto/CryptoLayer.cpp:26-50 | accepted and handed out texts are those of the arrivals and of the arrivals that were read |
| LayerTraces.AllRead | cpp/libs/ssp21/src/crypto/CryptoLayer.cpp:42-50 | where nothing was given up every accepted text was read, in order, but for at most the last |
| CryptoLayers.TransfersFollow | cpp/libs/ssp21/src/crypto/CryptoLayer.cpp:103-122 | every transfer went down whole, in pieces of 1 to 1024 octets, with one notification after the last, unless the layer was closed or formatting failed |

## Left out

- The link layer object between parser and crypto layer, the stack factories, the proxy and the command line tools: wiring and I/O.
- Cryptographic primitives themselves: only the laws above are used.
- Key pair files, container files and the certificate handlers around chain verification: a handler is a function from mode data to a public key.
- Statistics, logging, message printing and error texts.
- Memory zeroing and constant-time comparison: not expressible as functional properties; a reset session has empty keys.
- Threads and callbacks of the QIX readers: fill then parse is one step. Key metrics are floating point and only logged.
- CryptoLayers.CryptoLayer.HandshakeInitialize: any outcome of the handshake object is allowed instead of one family's; what a family does is in `Handshakes`.
- CryptoLayers.CryptoLayer.WriteFrame: a handshake message is only its size, written exactly when it fits; its octets are in `Messages` and the frame around it in `LinkWriting`.
- Liveness of the crypto layer: it is shown that something is pending that wakes it, not that the peer ever answers.
- The synchronous re-read that an upper layer may do inside the auth callback of the initiator: upper layer calls are separate events.
- QixFrames.QixFrameParser.Parse: the shift within the buffer copies as if all octets were read before any is written.
