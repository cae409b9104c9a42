# Verified model of the relay, the group session and the session codecs

This project models, in Dafny, the parts of an end-to-end encrypted messenger whose correctness rests on state,
interleaving or byte-level formats, and proves what the code and its documentation promise about them.

| file | what it models |
|---|---|
| `Base64.dfy`, `Hex.dfy` | the relay's hand-written base64 codec (section 4 of RFC 4648); hexadecimal names |
| `ProofOfWork.dfy` | challenge wire format, difficulty test, server verifier, and the two Rust and one TypeScript solvers |
| `RateLimiter.dfy` | per-identity fixed-window buckets |
| `Mailbox.dfy` | the one-slot-per-recipient store with expiry |
| `RelayEngine.dfy` | the WebSocket request engine as a step system: every request in flight has a program counter, every step holds at most one lock, and any request may move next |
| `RelayWrites.dfy`, `RelayMail.dfy`, `RelayTimes.dfy` | what holds in every run of that system: challenges and writes, deliveries and limits, expiry and clocks |
| `RelayHandler.dfy` | the proof-of-work gate and `handle_request` as a method on the shared tables |
| `GroupSession.dfy` | Sender Keys group sessions at the level of bytes |
| `GroupKeys.dfy` | the key schedule of the same runs with symbolic HKDF outputs, tied to the bytes by `Denotes` |
| `PreKeyPool.dfy` | the replenishable one-time prekey pool against two counters |
| `Framing.dfy`, `SessionBundle.dfy`, `Backup.dfy` | the length-prefixed formats and the backup blob |
| `RatchetSession.dfy` | the 1:1 session facade: envelope prefix and address-name check |
| `Fanout.dfy` | per-device fan-out with its three parallel tables |
| `Bytes.dfy`, `Bits.dfy`, `Order.dfy` | integers as bytes, the source's shifts and masks, least elements, ascending listings |

The methods take the form of the source (classes with fields, loops, cursors) and are proved against functions; the
theorems are about those functions. SHA-256 is any function, with 32-byte output where lengths matter. AEAD, seal, HKDF,
Argon2, the ratchet and the random draws are parameters with the correctness laws they are known for, never with
collision-freedom over all byte strings, which no fixed-length function has: where a collision matters, the theorem
names it (`GroupKeys.ReuseIsACollision`, `RatchetSession.NameHasOneHash`). `SomeSuiteIsCorrect`, `ChecksumIsExact` and
`SomeRatchetPairs` show that the laws assumed can be met. Clocks are parameters in whole seconds.

## Where the code and its documentation differ

The model follows the code.

- `b64_decode` says that `=` is only allowed at the end (relay/src/ws.rs:219) but bounds only where the first `=` stands:
  `AB=C` and its like are accepted (`Base64.PaddingMayBeFollowedByData`; `Base64.AcceptsIff` for all texts). `Base64.CanonicalIff` says exactly which accepted texts are
  canonical.
- The group module promises that a passive observer of the ciphertext, who holds no private key, cannot decrypt
  (core/protocol/src/group.rs:12-19). `new` derives the first chain key from the sender's public key alone
  (core/protocol/src/group.rs:154-163), so anyone who knows that key reads every message sent before the first rotation
  or removal (`GroupKeys.OutsiderReads`, on the bytes). `GroupKeys.CapturedKeyReach` says exactly which messages an
  observer with the public key and any captured chain keys can read.
- The backup documentation says that any damaged header byte is reported as `Tampered` (core/storage/src/backup.rs:30-33).
  A damaged byte of salt, nonce or body is reported as `DecryptionFailed`, if and only if nothing seals to the damaged
  blob (`Backup.DamageReport`), and `Backup.DecryptionFailedOccurs` shows it for every such header byte.
- The limiter asks its callers for times that do not go back (relay/src/ratelimit/mod.rs:109-111). The engine stamps a
  request before it queues for the lock, so a stamp may be checked after a later one has opened a new window, and the
  bound then fails: it holds in all runs of the relay if and only if the capacity is one
  (`RelayMail.EveryRunKeepsLimitIff`, and `RateLimiter.AnyTimesBoundIff` for every window). For other capacities it
  holds while no call stamped before the start of its bucket finds a token there (`RateLimiter.SlidingBound`), which
  ordered times ensure. Independence of identities needs no condition.
- `lookup_prekey` is called a read but removes the bundle it returns (relay/src/ws.rs:383-403).
- `Challenge::to_wire` casts the context length to 16 bits: the wire round trip holds if and only if the context is
  shorter than 2^16 bytes (`ProofOfWork.WireRoundTrip`). The backup counts and lengths are cast to 32 bits in the same
  way (`Backup.ImportOfExport`), and so is the payload length of a group message (`GroupSession.ReadableIffOnRoster`).
- A sender files its peer under the device id of the bundle, but looks up replies under device id 1
  (core/crypto/src/ratchet_session.rs:322-325, 404): `RatchetSession.RepliesNeedTheSharedDevice`.

Shifts, masks and ors stand in `Bits.dfy` as the source writes them, each with the quotients and remainders it amounts
to; the codec loops and the difficulty test use them.

## Model

| member | source | states |
|---|---|---|
| `RelayEngine.StepEvents` | relay/src/ws.rs:304-497 | a step of a request either changes no table and logs nothing, or logs one event that agrees with the tables it met and accounts for the whole change |
| `RelayEngine.RunFollowsLog` | relay/src/ws.rs:304-497 | in every interleaving the four shared tables are exactly what the log of events replays to, and every event agrees with the tables of its moment |
| `RelayWrites.LiveChallenge` | relay/src/ws.rs:330-337 | a challenge id is live exactly when the last thing that happened to it was its issue, and it then holds the challenge of that issue |
| `RelayWrites.TakenWasIssued` | relay/src/ws.rs:484-489 | every take uses up the latest earlier issue of that id, untouched in between |
| `RelayWrites.TakenOnce` | relay/src/ws.rs:484-489 | no issue is taken twice, even if two issues drew the same nonce |
| `RelayWrites.StepKeepsShape` | relay/src/ws.rs:304-466 | where a request stands fixes exactly which events it has left: rate check, then take, then store, in this order and never more |
| `RelayWrites.RunTracked` | relay/src/ws.rs:304-466 | this shape holds of every request in every reachable state |
| `RelayWrites.WriteShape` | relay/src/ws.rs:341-381 | every store in the log is the last of its request's three events, after an admitted check and an accepted take, holds the decoded payload, and its request was answered with success |
| `RelayWrites.AcceptedWriteHasTicket` | relay/src/ws.rs:341-497 | under every interleaving an accepted publish or send was paid for with an earlier issued challenge of full difficulty, which its solution meets |
| `RelayWrites.TicketsAreDistinct` | relay/src/ws.rs:477-497 | accepted writes map injectively to issued challenges |
| `RelayWrites.WriteReplyTellsTheTruth` | relay/src/ws.rs:341-444 | a write answered with an error put nothing in either mailbox; one answered with success stored exactly once |
| `RelayWrites.WriteReplyExact` | relay/src/ws.rs:341-497 | in every run the answer to a write is fixed by the limiter's verdict, its solution, the challenge it found and its payload; an admitted write with a readable solution takes its challenge if the last thing that happened to that id was an issue, and misses it otherwise |
| `RelayWrites.RequestsFinish` | relay/src/ws.rs:304-466 | whatever others do, a request is answered after at most four steps of its own |
| `RelayMail.SlotFollowsLog` | relay/src/store.rs:34-69 | in every log a slot holds the last store about it, unless it was picked up since |
| `RelayMail.PickupYieldsLatestWrite` | relay/src/ws.rs:383-464 | in every run every pickup answers with the latest accepted write to its slot, byte for byte; `Expired` if that has expired and `NotFound` if the last event about the slot was no write |
| `RelayMail.ReadReplyTellsTheTruth` | relay/src/ws.rs:383-464 | a finished lookup or pickup was refused by the limiter or got the answer its slot's history demands |
| `RelayMail.SlotsAreApart` | relay/src/ws.rs:372-376 | two requests meet in one slot if and only if they agree on the kind of mail and on the recipient |
| `RelayMail.MailReachesItsRecipient` | relay/src/ws.rs:383-464 | in every run a `pickup_envelope` for r answered with data got the payload of a successful `send_envelope` to r, and a `lookup_prekey` for r that of a successful `publish_prekey` for r |
| `RelayTimes.MomentOf` | relay/src/ws.rs:304-466 | every event was logged by one step of its request; an issued challenge holds the nonce drawn in that step, and a pickup is judged by the clock of that step |
| `RelayTimes.StampIsArrival` | relay/src/ws.rs:307-312 | a request is stamped with the wall clock of its arrival |
| `RelayTimes.WriteExpires` | relay/src/ws.rs:63-65 | in every run a bundle expires 86400 seconds, and an envelope 604800 seconds, after the step in which its request passed verification |
| `RelayTimes.MailKeeps` | relay/src/store.rs:34-62 | in every run mail nobody touched since is handed to the next pickup of its slot if and only if that comes within this time, and is reported as `Expired` otherwise |
| `RelayMail.WriteDeliveredOnce` | relay/src/store.rs:47-62 | two deliveries never come from one write |
| `RelayMail.BoxFollowsLog` | relay/src/ws.rs:71-80 | each mailbox is the replay of its own events alone; prekey traffic does not touch envelopes nor the reverse |
| `RelayMail.RunConservesMail` | relay/src/ws.rs:304-466 | in every run, per mailbox and recipient, stores equal delivered plus overwritten plus expired plus purged plus held |
| `RelayMail.LimiterFollowsLog` | relay/src/ws.rs:316-327 | the decisions of a run are those of the limiter on the run's calls in lock order |
| `RelayMail.OwnCallsDecide` | relay/src/ws.rs:304-327 | in every run an identity's decisions replay its own calls alone |
| `RelayMail.RunRespectsLimit` | relay/src/ws.rs:304-327 | in every run the sharp bound holds for an identity as long as no stamp from before the start of its bucket finds a token; ordered stamps and a capacity of one ensure that |
| `RelayMail.EveryRunKeepsLimitIff` | relay/src/ws.rs:307-320 | the bound holds in all runs of the engine if and only if the capacity is one; for any other capacity a run is given that exceeds it |
| `RelayHandler.IssuedChallengesAreValid` | relay/src/ws.rs:330-337 | every live challenge has the context `ws-relay-v1`, difficulty 20 and a 16-byte nonce, and is filed under the hex of it |
| `RelayHandler.HonestClientPasses` | relay/src/ws.rs:477-497 | in every run, whatever the client computes from a live challenge's text is accepted by the gate |
| `RelayHandler.HonestWriteIsServed` | relay/src/ws.rs:405-444 | a write with such a solution that finds its challenge live goes on to store, whatever others do between its steps, unless its payload is not base64 |
| `RelayHandler.WsState.HandleRequest` | relay/src/ws.rs:304-466 | run without interruption, the handler does exactly four steps of the step system: same tables, same reply |
| `RelayHandler.WsState.Fetch` | relay/src/ws.rs:397-402 | lookup and pickup empty the slot and reply with its live content in base64, `Expired` or `NotFound` |
| `RelayHandler.WsState.Deposit` | relay/src/ws.rs:359-381 | the gate, the payload check and the store are the remaining three steps |
| `RateLimiter.Limiter.CheckCall` | relay/src/ratelimit/mod.rs:112-152 | touches the caller's bucket only and returns the decision of that bucket |
| `RateLimiter.Independence` | relay/src/ratelimit/mod.rs:112-152 | what an identity is told equals a replay of its own calls, whoever else calls and in whatever order |
| `RateLimiter.DecisionByOpener` | relay/src/ratelimit/mod.rs:112-152 | for any times, a call is admitted if and only if it is among the first `capacity` calls from the one that opened its window, and is told otherwise how much of that window is left |
| `RateLimiter.WindowStartsApart` | relay/src/ratelimit/mod.rs:125-133 | a bucket's window starts are at least a window apart, for any times |
| `RateLimiter.FromBucket` | relay/src/ratelimit/mod.rs:112-152 | from any bucket on, admissions before a time are at most its tokens plus one budget per later window that fits |
| `RateLimiter.SlidingBound` | relay/src/ratelimit/mod.rs:112-152 | for any times, as long as no call stamped before the start of its bucket finds a token there, every interval of L seconds admits at most capacity·(1 + floor((L−1)/W)) plus capacity−1 when W does not divide L−1, hence at most capacity·(ceil(L/W)+1) |
| `RateLimiter.OrderedIsTimely` | relay/src/ratelimit/mod.rs:109-111 | times that do not go back meet that condition |
| `RateLimiter.SingleIsTimely` | relay/src/ratelimit/mod.rs:130-150 | with a capacity of one any times meet it |
| `RateLimiter.BoundAttained` | relay/src/ratelimit/mod.rs:112-152 | for every capacity, window and length some ordered trace reaches the sharp bound |
| `RateLimiter.LateReturnExceeds` | relay/src/ratelimit/mod.rs:130-150 | for every capacity from two up and every window, a full budget at 0, a call at W and one more stamped 0 exceed the bound |
| `RateLimiter.AnyTimesBoundIff` | relay/src/ratelimit/mod.rs:112-152 | the bound holds for all times whatever their order if and only if the capacity is one |
| `RateLimiter.RetryAfterExact` | relay/src/ratelimit/mod.rs:135-148 | after a refusal every call before now plus `retry_after` is refused with the time still to wait, and the first call from then on is admitted |
| `Mailbox.RelayStore.Store` | relay/src/store.rs:34-44 | overwrites the recipient's slot and no other |
| `Mailbox.RelayStore.Pickup` | relay/src/store.rs:47-62 | empties the slot in every case; delivers up to and including the expiry instant |
| `Mailbox.RelayStore.Count` | relay/src/store.rs:72-75 | after any history, the number of recipients whose latest event is a store, expired ones included |
| `Mailbox.SlotIsLatestStore` | relay/src/store.rs:34-69 | after any history a slot holds the latest store to its recipient, unless that was removed since |
| `Mailbox.PickupYieldsLatest` | relay/src/store.rs:47-62 | every pickup yields the latest store to that recipient if unexpired, `Expired` if not, and `NotFound` if the last event about the recipient was no store |
| `Mailbox.DeliveredOnce` | relay/src/store.rs:47-62 | no store is delivered twice |
| `Mailbox.OthersDoNotMatter` | relay/src/store.rs:34-69 | dropping every event about other recipients changes nothing |
| `Mailbox.Conservation` | relay/src/store.rs:34-69 | over any history stores equal delivered plus overwritten plus expired plus purged plus held |
| `Bits.MaskIsBound` | relay/src/pow/mod.rs:157-164 | the 8-bit mask of the Rust code and the 32-bit mask of the TypeScript code both test whether the byte is below the remaining power of two |
| `ProofOfWork.MetIffBelowTarget` | relay/src/pow/mod.rs:145-164 | the byte-and-mask test holds exactly when the digest, read big-endian, is below 2 to the power of its bits less the difficulty |
| `ProofOfWork.AcceptedIffBelowTarget` | relay/src/pow/mod.rs:178-193 | a solution is accepted exactly when the difficulty is in 1..=256 and the digest of context, nonce and solution, as a 256-bit number, is below 2^(256−difficulty); any other difficulty is reported as malformed |
| `ProofOfWork.SearchInNumbers` | relay/src/pow/mod.rs:204-229 | what the solvers return is the first counter up to 2^32 whose digest is below the target, and they fail only when there is none |
| `ProofOfWork.WireRoundTrip` | relay/src/pow/mod.rs:122-130 | the client reads back the challenge the server printed if and only if the context is shorter than 2^16 bytes |
| `ProofOfWork.Solve` | relay/src/pow/mod.rs:204-229 | returns the least counter up to 2^32 that solves the challenge, and fails on a legal difficulty only when there is none |
| `ProofOfWork.SolveChallenge` | relay/src/ws.rs:751-807 | from the challenge text: the least solution in base64, or failure when there is none or the text is no challenge |
| `ProofOfWork.MeetsDifficultyScript` | clients/web/src/relay_transport.ts:114-129 | the TypeScript loop with its wider mask decides the same test, for every difficulty; past the end of the digest, where Rust fails, it says yes |
| `ProofOfWork.U64ToLeBytes` | clients/web/src/relay_transport.ts:169-178 | repeated division writes the little-endian bytes that Rust writes |
| `ProofOfWork.SolvePowScript` | clients/web/src/relay_transport.ts:135-167 | for difficulties up to 32, the same least solution |
| `ProofOfWork.ClientSolutionAccepted` | relay/src/ws.rs:751-807 | for every challenge with a context under 2^16 bytes and every 32-byte hash, a solution computed from its base64 wire text is accepted by the server, and the client fails only when there is none |
| `Base64.EncodeOneGroup` | relay/src/ws.rs:268-285 | the shifts and masks of one loop turn give the four letters of the arithmetic encoding |
| `Base64.DecodeOneQuad` | relay/src/ws.rs:245-255 | the shifts of one quad give the bytes of the arithmetic decoding |
| `Base64.EncodeBytes` | relay/src/ws.rs:264-288 | the loop with an index produces the recursive encoding |
| `Base64.DecodeText` | relay/src/ws.rs:194-261 | stripping, the three checks and the quad loop decode as specified; neither early exit skips a quad |
| `Base64.DecodeGroups` | relay/src/ws.rs:232-259 | the quad loop decodes every quad of a well-formed text |
| `Base64.EncodeLength` | relay/src/ws.rs:264-288 | n bytes encode to 4·ceil(n/3) characters |
| `Base64.EncodeWellFormed` | relay/src/ws.rs:264-288 | every encoding passes the decoder's checks and decodes to its bytes |
| `Base64.RoundTrip` | relay/src/ws.rs:194-288 | an encoding with spaces, carriage returns and line feeds inserted anywhere decodes to its bytes |
| `Base64.AlphabetTable` | relay/src/ws.rs:195-204 | the letters are the 64 of RFC 4648 in its order, and no other character has a value |
| `Base64.GroupValue` | relay/src/ws.rs:268-285 | a group's bytes and its letters spell the same number, most significant part first, and `=` stands for exactly the missing bytes |
| `Base64.AcceptsIff` | relay/src/ws.rs:205-231 | a text is accepted if and only if it consists of letters, `=` and blanks, has whole quads, and at most two characters stand from its first `=` on |
| `Base64.DecodedLength` | relay/src/ws.rs:194-261 | an accepted text of q quads decodes to 3q bytes less one per `=` |
| `Base64.CanonicalIff` | relay/src/ws.rs:194-288 | an accepted text re-encodes to itself exactly when its last quad has `=` only at the end and zero spare bits |
| `Base64.PaddingMayBeFollowedByData` | relay/src/ws.rs:219-224 | any two letters, `=` and a further letter are accepted, as two bytes that encode to another text |
| `Hex.EncodeBytes` | relay/src/ws.rs:936-940 | the loop writes two lower-case digits per byte |
| `Hex.EncodeAt` | relay/src/ws.rs:936-940 | every byte is spelled by its two lower-case digits, the high one first |
| `Hex.Injective` | core/crypto/src/ratchet_session.rs:205-212 | distinct byte strings have distinct names |
| `GroupSession.ScanOfPrint` | core/protocol/src/group.rs:395-420 | the lookup loop reads back the printed wrappers and finds the first one for a key, duplicates included, whatever follows |
| `GroupSession.ScanInverse` | core/protocol/src/group.rs:395-420 | whatever the loop accepts starts with printed wrappers, of which it found the first for the key |
| `GroupSession.DecryptReadsParts` | core/protocol/src/group.rs:368-434 | `decrypt_as` of a printed message with anything after it opens the caller's first wrapper and then the payload, or reports that there is none |
| `GroupSession.OpenedWasPrinted` | core/protocol/src/group.rs:368-434 | whatever `decrypt_as` opens is a printed message whose first wrapper for the caller holds a 32-byte key under which the payload is authentic |
| `GroupSession.PartsOfMessage` | core/protocol/src/group.rs:347-359 | every part of a printed message is found where the reader looks for it, and the length field tells the payload's length if and only if that is below 2^32 |
| `GroupSession.WrapperOpens` | core/protocol/src/group.rs:333-341 | a key is found among the wrappers exactly if it is on the roster, and its holder opens the message key |
| `GroupSession.ReadableIffOnRoster` | core/protocol/src/group.rs:291-434 | `decrypt_as` opens a message to its plaintext if and only if the caller holds a key on the roster and the payload fits the 32-bit length field; if it fits, everyone else gets the named error |
| `GroupSession.SendingKeyOpens` | core/protocol/src/group.rs:239-280 | the chain key a message was sent under opens it if and only if the payload fits the length field |
| `GroupSession.EncryptYieldsIff` | core/protocol/src/group.rs:291-360 | `encrypt_as` yields a message if and only if the roster has at most 255 entries and the key can be sealed to each; the ratchet moves on even if a seal fails, and stays if the roster is too long |
| `GroupSession.GenuineSendYields` | core/protocol/src/group.rs:291-360 | in every run each send to at most 255 genuine keys yields a message |
| `GroupSession.ChainKeyOpensIff` | core/protocol/src/group.rs:239-280 | a chain key opens what is authentic under its message key and the nonce on the wire, and nothing else |
| `GroupSession.SentIsEncrypted` | core/protocol/src/group.rs:291-360 | every message of a run is the encryption under the session of its moment |
| `GroupSession.SentStays` | core/protocol/src/group.rs:166-205 | continuing a run changes no message sent before |
| `GroupSession.MessageReadableForItsRoster` | core/protocol/src/group.rs:166-434 | in every run and every continuation, `decrypt_as` opens message i to its plaintext if and only if the caller holds a key that was on the roster when it was sent and the payload fits the length field |
| `GroupSession.RosterIsEnrolled` | core/protocol/src/group.rs:166-186 | a key is on the roster exactly if it was added and not removed since, however often it was added |
| `GroupSession.RosterStands` | core/protocol/src/group.rs:166-186 | in every run the roster lists, in their order, the additions that no removal followed |
| `GroupSession.Group.constructor` | core/protocol/src/group.rs:154-163 | an empty roster and the chain key derived from the sender key |
| `GroupSession.Group.RemoveMember` | core/protocol/src/group.rs:183-186 | removes every occurrence and always rotates |
| `GroupSession.Group.Encrypt` | core/protocol/src/group.rs:291-360 | the ratchet moves and the message is printed as specified; over the roster limit nothing changes |
| `GroupSession.Group.Decrypt` | core/protocol/src/group.rs:368-434 | the cursor loop decrypts as specified, on every byte string |
| `GroupSession.Group.FindSealed` | core/protocol/src/group.rs:395-420 | the cursor never leaves the buffer and the first matching wrapper wins |
| `GroupKeys.RunDenotes` | core/protocol/src/group.rs:154-205 | the byte-level run and the symbolic run go together: every chain key in use is what its term denotes |
| `GroupKeys.KeysMoveOn` | core/protocol/src/group.rs:306-324 | the used chain keys of a run are strictly ordered and all before the current one |
| `GroupKeys.NoKeyReuse` | core/protocol/src/group.rs:306-324 | no two messages of a run share a message key or a nonce |
| `GroupKeys.MessageOnTheWire` | core/protocol/src/group.rs:314-351 | the i-th message of a byte-level run starts with the nonce of its own chain key and carries the plaintext encrypted under the key and nonce of that chain key |
| `GroupKeys.ReuseIsACollision` | core/protocol/src/group.rs:306-324 | two messages of a byte-level run under one AES key yield an explicit collision within the values computed for these two messages: two HKDF inputs with one output, two equal draws, or a draw equal to an output |
| `GroupKeys.ForwardChain` | core/protocol/src/group.rs:239-280 | without a rotation in between, a later chain key follows from an earlier one |
| `GroupKeys.PublicKeyReach` | core/protocol/src/group.rs:154-163 | the sender's public key alone gives a message's key if and only if no rotation or removal came before it |
| `GroupKeys.CapturedKeyReach` | core/protocol/src/group.rs:183-205 | the public key and chain keys captured at any set of moments give a message's key if and only if some capture came at or before the message with no rotation or removal in between, or none came before the message at all |
| `GroupKeys.OutsiderReads` | core/protocol/src/group.rs:154-163 | on the bytes: every message before the first rotation or removal is decrypted with a key computed from the sender's public key |
| `GroupKeys.NotBackwards` | core/protocol/src/group.rs:306-324 | chain keys captured after a message add nothing to what the public key gives of it |
| `GroupKeys.RotationCutsOff` | core/protocol/src/group.rs:183-205 | everything known before a rotation or removal, pooled, gives no message key sent after it |
| `PreKeyPool.OneTimePreKeyPool.constructor` | core/crypto/src/prekey.rs:110-120 | files each record under its id, the last of equals winning |
| `PreKeyPool.OneTimePreKeyPool.Take` | core/crypto/src/prekey.rs:129-139 | takes one record out of stock as specified |
| `PreKeyPool.EachTakenOnce` | core/crypto/src/prekey.rs:129-139 | in every sequence of takes a record is handed out at its first take; a repeated take is reported as consumed, and an id never there as not found |
| `PreKeyPool.FirstSorted` | core/crypto/src/prekey.rs:215-227 | the id taken is the least one available |
| `PreKeyPool.ReplenishablePool.WithLowWatermark` | core/crypto/src/prekey.rs:181-194 | starts with ids 1 to the watermark, at least one |
| `PreKeyPool.ReplenishablePool.TakeOneTime` | core/crypto/src/prekey.rs:215-227 | removes and returns the record with the least id, or nothing when empty |
| `PreKeyPool.ReplenishablePool.ReplenishToTarget` | core/crypto/src/prekey.rs:246-266 | mints what is missing under the next ids; every other record stays; the consumed set starts empty again |
| `PreKeyPool.PoolIsTwoCounters` | core/crypto/src/prekey.rs:181-266 | over every run of takes and refills the maps, sets and sort amount to two counters, outputs included: available ids are the range between them, and the issued ids are those taken and those minted after the start |
| `PreKeyPool.TakesAreSequential` | core/crypto/src/prekey.rs:215-227 | in every run of the pool the k-th record handed out is the one minted as id k, the available ids are the rest of the range up to the next id, and handed out plus remaining is minted |
| `PreKeyPool.RefillTopsUp` | core/crypto/src/prekey.rs:246-266 | refilling to t leaves the larger of t and what was there, with untaken records intact |
| `Framing.ReadLenPrefixed` | core/crypto/src/prekey.rs:293-317 | the offset never passes the end, and the segment is the field at the offset |
| `Framing.FromBytes` | core/crypto/src/prekey.rs:373-417 | the offset parser accepts and yields what the format says |
| `Framing.DecodeBundle` | core/transport/src/dht.rs:113-143 | the cursor parser accepts the same strings with the same segments |
| `Framing.ToBytes` | core/crypto/src/prekey.rs:338-365 | prints the format |
| `Framing.EncodeBundle` | core/transport/src/dht.rs:71-92 | prints the same bytes |
| `Framing.TakeFieldCursor` | core/transport/src/dht.rs:150-162 | takes one field and moves the cursor just past it |
| `Framing.AcceptsExactlyPrints` | core/crypto/src/prekey.rs:338-417 | a string decodes to a bundle if and only if it is the printed form of that bundle |
| `Framing.PrefixFree` | core/transport/src/dht.rs:113-143 | no accepted string is a proper prefix of another |
| `SessionBundle.ReadU32` | core/crypto/src/session.rs:350-365 | stays within the buffer and reads the big-endian word at the offset |
| `SessionBundle.ReadPrefixed` | core/crypto/src/session.rs:367-385 | stays within the buffer and reads the field at the offset |
| `SessionBundle.FromBytes` | core/crypto/src/session.rs:262-342 | on every byte string no subtraction underflows, no read leaves the buffer, and the result is the format's |
| `SessionBundle.ToBytes` | core/crypto/src/session.rs:204-254 | prints the format |
| `SessionBundle.AcceptsExactlyPrints` | core/crypto/src/session.rs:204-342 | accepts a string if and only if it is the printed form of a field tuple, which it yields and which prints to the same bytes |
| `Backup.SerializeRecords` | core/storage/src/backup.rs:275-285 | prints count and length-prefixed records |
| `Backup.DeserializeRecords` | core/storage/src/backup.rs:287-320 | the cursor loop parses the format on every buffer, trailing bytes refused |
| `Backup.RecordsMatchBuffers` | core/storage/src/backup.rs:275-320 | a buffer deserializes to a record list if and only if it is its serialization and the list is non-empty with count and lengths under 2^32 |
| `Backup.ExportBlob` | core/storage/src/backup.rs:86-145 | assembles header and sealed records; refuses an empty list |
| `Backup.ImportBlob` | core/storage/src/backup.rs:155-228 | the checks in order, then decryption, then parsing |
| `Backup.ImportOfExport` | core/storage/src/backup.rs:86-228 | an export imports back to the same records in the same order if and only if their count and lengths fit 32 bits |
| `Backup.ImportedWasExported` | core/storage/src/backup.rs:147-228 | a blob that imports is an export of what it yields, so no other blob is accepted |
| `Backup.ImportAnswersIff` | core/storage/src/backup.rs:155-228 | on any bytes: imported if and only if the blob is an export of those records, `DecryptionFailed` if and only if magic and version are intact and no message seals to it, `Tampered` in all other cases |
| `Backup.DamageReport` | core/storage/src/backup.rs:30-33 | one damaged byte of an export is reported as `Tampered` in magic or version; anywhere else as `DecryptionFailed`, if and only if no message seals to the damaged body under the damaged header |
| `Backup.WrongPassphrase` | core/storage/src/backup.rs:155-228 | with another passphrase an intact export is reported as `DecryptionFailed` if and only if its body does not seal under that one too |
| `Backup.DecryptionFailedOccurs` | core/storage/src/backup.rs:198-228 | with an exact suite whose tag depends on the header, every damaged byte of salt or nonce is reported as `DecryptionFailed` |
| `RatchetSession.ParsesExactlyPrints` | core/crypto/src/ratchet_session.rs:374-402 | the envelope parser accepts exactly the printed envelopes and inverts printing |
| `RatchetSession.KeyInUseIsDeclared` | core/crypto/src/ratchet_session.rs:404-440 | an envelope that passes the check is handled under a key that hashes to the declared sender |
| `RatchetSession.RunKeepsSound` | core/crypto/src/ratchet_session.rs:311-455 | after construction and any calls each address name is the hex of the hash of the key held under it, in both stores, whatever libsignal decides to write |
| `RatchetSession.NameHasOneHash` | core/crypto/src/ratchet_session.rs:393-455 | keys held under one name at any two moments of a run have the same hash |
| `RatchetSession.BindingsAreForever` | core/crypto/src/ratchet_session.rs:393-455 | a bound key is never dropped, nor replaced by another without a hash collision |
| `RatchetSession.OnlyTheOwnerIsBound` | core/crypto/src/ratchet_session.rs:381-392 | the address of a key only ever holds that key, or a collision with it |
| `RatchetSession.ForgedFirstContact` | core/crypto/src/ratchet_session.rs:410-421 | a first message is refused with every binding left as it was, if and only if its key does not hash to the declared sender |
| `RatchetSession.EstablishedCheckIsPresence` | core/crypto/src/ratchet_session.rs:422-440 | after any run the check refuses an established-session message if and only if its sender has no binding |
| `RatchetSession.DecryptAnswersIff` | core/crypto/src/ratchet_session.rs:393-455 | after any run, every answer of `decrypt` with its exact condition: a plaintext is libsignal's own, and is returned if and only if the envelope parses, the carried key hashes to the declared sender or the sender is bound and has a session record |
| `RatchetSession.DecryptWritesAtSender` | core/crypto/src/ratchet_session.rs:393-455 | both stores change at the sender's address only, to the carried key or that of the session record, and not at all if the check fails |
| `RatchetSession.EncryptAnswersIff` | core/crypto/src/ratchet_session.rs:355-382 | after any run a sender's `encrypt` returns libsignal's message behind its own hash and type tag and touches its peer's address only; a receiver's is refused |
| `RatchetSession.PlaintextHasDeclaredSender` | core/crypto/src/ratchet_session.rs:393-455 | every plaintext comes from a message handled under a key that hashes to the declared sender |
| `RatchetSession.RepliesNeedTheSharedDevice` | core/crypto/src/ratchet_session.rs:322-325 | a new sender's check lets its peer's replies through if and only if the bundle's device id was 1 |
| `RatchetSession.OwnEnvelopesPassTheCheck` | core/crypto/src/ratchet_session.rs:355-382 | what a session sends as a first message passes the name check of any receiver |
| `RatchetSession.DoubleRatchetSession.NewBob` | core/crypto/src/ratchet_session.rs:237-282 | a receiver starts with nothing bound |
| `RatchetSession.DoubleRatchetSession.NewAlice` | core/crypto/src/ratchet_session.rs:311-351 | a sender starts with the bundle's key under the name of its hash |
| `RatchetSession.DoubleRatchetSession.EncryptFor` | core/crypto/src/ratchet_session.rs:355-382 | needs a remote address; prefixes the local hash and the type tag |
| `RatchetSession.DoubleRatchetSession.DecryptFrom` | core/crypto/src/ratchet_session.rs:393-455 | the checks in order; nothing is written unless they pass |
| `Fanout.CleanIff` | core/protocol/src/fanout.rs:210-263 | nothing is wrong with a list exactly when its sessions establish, its device ids are pairwise distinct and its identities are |
| `Fanout.TablesConsistent` | core/protocol/src/fanout.rs:222-263 | the three tables of a clean list cover the same devices, and identities match devices one to one |
| `Fanout.TablesHold` | core/protocol/src/fanout.rs:222-263 | each entry's own sessions stand under its device and its identity leads there |
| `Fanout.FanoutSession.Establish` | core/protocol/src/fanout.rs:210-268 | succeeds if and only if the list is non-empty and clean; otherwise the error is that of the first entry at fault, with the checks in the source's order |
| `Fanout.EncryptToAllExact` | core/protocol/src/fanout.rs:282-302 | without failure one envelope per linked device in ascending order; fails if and only if some device fails, at the least such one, leaving the devices above untouched |
| `Fanout.FanoutSession.EncryptAll` | core/protocol/src/fanout.rs:282-302 | the loop over the sorted ids does so, no lookup misses, and a failed send reports the device and hands out nothing |
| `Fanout.ReadAnswersIff` | core/protocol/src/fanout.rs:318-340 | every answer of `decrypt_as` with its exact condition: a plaintext if and only if the identity is linked, its device is the one the envelope names and the ratchet yields it; an unknown identity or a mismatched device changes no table |
| `Fanout.FanoutSession.ReadAsDevice` | core/protocol/src/fanout.rs:318-340 | unknown identity, mismatched device, then the device's own session; the lookup never misses |
| `Fanout.FanoutSession.RemoveDevice` | core/protocol/src/fanout.rs:353-371 | drops the device from all three tables and keeps them consistent |
| `Fanout.RemoveKeepsConsistent` | core/protocol/src/fanout.rs:353-371 | removal keeps the tables in step and unlinks exactly that device |
| `Fanout.Run` | core/protocol/src/fanout.rs:282-371 | every run ends with consistent tables, linked to the devices it began with less those dropped |
| `Fanout.RoundReachesAll` | core/protocol/src/fanout.rs:282-340 | a message reaches every linked device in full and no other, and the session pairs stay in step |
| `Fanout.LinkedDevicesReadEverything` | core/protocol/src/fanout.rs:282-371 | over any run of sends and removals a linked device reads exactly the messages sent before its removal, in order |
| `Fanout.EstablishedDevicesRead` | core/protocol/src/fanout.rs:210-371 | the same, from establishment on, for every device of the list |

## Left out

- RelayEngine.StepEvents: requests carry decoded fields; JSON, WebSocket framing, connection handling, logging and error texts are not modelled, and an error reply keeps its kind only.
- GroupSession.ReadableIffOnRoster: roster keys are 33 bytes, the length of a serialized identity key; the sender identity passed to `encrypt_as` is not used by the wire format and is left out.
- GroupKeys.NoKeyReuse: speaks of one session used linearly; `GroupSession` can be cloned and `new` derives its first chain key from the sender key, so nothing is claimed across clones or re-creations.
- PreKeyPool.ReplenishablePool.ReplenishToTarget: requires ids to fit 32 bits; beyond that the source's unchecked `start_id + offset` and `id + 1` panic or wrap with the build profile, which is not modelled.
- PreKeyPool.ReplenishablePool.WithLowWatermark: the same, for a first filling of 2^32 - 1 ids or more.
- RatchetSession.DoubleRatchetSession.NewAlice: models establishment that succeeds; a bundle that libsignal rejects yields no session. Ratchet internals are a per-call choice of which records libsignal writes.
- Fanout.LinkedDevicesReadEverything: each round's envelopes are read before the next round; late and reordered delivery is libsignal's and is not modelled.
- Framing.FromBytes and SessionBundle.FromBytes: stop at raw segments; what libsignal makes of keys, signatures and device ids is not modelled, nor is `decode_and_verify_bundle`'s signature check.
- Sealed sender, identity sealing, padding, device linking, safety numbers, metadata and online status: fixed framing or single branches, without state of their own.
- libp2p swarms, Tor transport, SQLCipher storage, bindings, the web and desktop user interfaces and the QR renderer: input and output or foreign libraries.
- Zeroization, quality of randomness and side channels: not functional behaviour.
