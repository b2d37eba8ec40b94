# blvm-datum: the DATUM session engine and the coinbaser pool

`blvm-datum` talks to a DATUM mining pool over one TCP connection. This project models the two parts
of it that carry the behaviour, and proves what they promise:

* the **session engine** (`src/datum_protocol.rs`, `src/messages.rs`): a packed 22/2/3/5 header, a header
  mask whose key is fed back from every header sent or received, one nonce counter per direction, a framed
  byte stream of header, optional signature and body, and the handshake that sets all of this up;
* the **pool object** (`src/pool.rs`): the nested length-prefixed coinbaser response, its parser, and the
  state machine around it (connect, reconnect, set template, fetch, submit), with the receive loop of
  `src/server.rs` that shares its client.

The two compose: `EndToEnd.ConnectThenFetch` goes from a new pool object through the handshake and the
encrypted frames to the payouts a pool printed, with the pool's side of the octets worked out as well.

## How the model is built

* `Bytes`, `HeaderCodec`: bytes, little-endian codecs, XOR, the packed header and the command table. A
  `u32` that is only masked, compared and sent (the header key and the packed header) is held as its four
  little-endian bytes; `Bytes.XorIsNumberXor` shows that masking byte by byte is the 32-bit XOR. The packed header
  is specified as one number of bit fields 22/2/3/5; the source's byte-by-byte assembly and reading, in which
  or-ing disjoint bits is written as addition, are proved to compute it.
* `Crypto`: symbolic cryptography. An octet is a clear byte or a byte made by a named operation, so opening
  succeeds exactly on the matching key and nonce and a signature verifies exactly for its signer and message;
  a ciphertext is 16 octets longer than its plaintext (section 2.8 of RFC 8439). SHA-256, X25519, the
  validity of an Ed25519 key and the visible value of a made octet are fields of a `Suite`, left open.
* `Session`: the state of a client and the effect of each critical section on it, as functions. Every
  operation holds the stream lock for its whole length, so one function is one atomic step. `Client` is the
  object itself: a class with the source's fields whose methods are proved to carry out those functions,
  every error path included. A call takes the number of further `write_all` calls the connection accepts.
* `Framing`, `Lockstep`, `HeaderKey`, `Nonces`, `Handshake`, `Server`: the theorems about sessions. The pool's
  end is a mirror of the client: it adopts the plaintext header when it receives and the wire word when it
  sends, because `apply_header_xor` feeds back its output and so leaves the *input* word as the new key.
* `Coinbaser`, `Pool`, `EndToEnd`: the parser and its printer, the pool object, and the composition.

Three frame grammars appear, because the source uses three: outbound session frames put the plaintext length
in `cmd_len`, inbound session frames the ciphertext length, and the hello is flagged as signed but carries no
separate signature block.

## What turned out false or surprising of the code

* The comment at `src/datum_protocol.rs:691` gives the feedback as old key XOR header bytes; the code uses the
  masked bytes, so the key becomes the unmasked input. Two ends that both run this rule stay in step only under
  the exact condition of `HeaderKey.SameRuleDecodesIff`, and never for three session frames in a row.
* One header key serves both directions, so frames that cross break it; `HeaderKey.CrossingFrames` and
  `HeaderKey.CrossedSignedFrame` give the exact conditions. The header is outside the AEAD, so an *unsigned* frame
  that crosses a send can be delivered under a wrong command: `HeaderKey.CrossedUnsignedFrame` says exactly when,
  and `HeaderKey.VerdictBecomesCoinbaser` is such an input.
* The receive nonce moves only for frames that pass the signature gate, so one rejected frame leaves the client
  behind the pool for good: exactly, until a multiple of 2^64 frames have been rejected
  (`Nonces.RejectionIsPermanent`).
* `parse_coinbase_response` checks `offset + len > data.len()` and then reads `data[offset + len]`. The model keeps
  this: `OutOfRange` is that panic, `Coinbaser.OutOfRangeIff` says for exactly which buffers it happens, and
  `Coinbaser.OutOfRangeExample` names one.
* `set_template` on a connected pool indexes the first output of the first transaction; a block without one is stored
  and then panics (`Pool.TemplateDecides`).
* The enum's commands with codes above 31 cannot be carried by the five-bit field, so the four parser arms of the
  dispatcher are never reached (`HeaderCodec.ReachableCommands`, `Session.DispatchIsIdle`).
* A client object that is connected a second time judges the response by the first session
  (`Handshake.SecondConnectFails`). `Handshake.ConnectSucceedsIff` is the exact condition: against a pool that answers
  as documented an object connects if and only if it is not connected, failed attempts and anything else before it
  notwithstanding. `DatumPool` makes a new client for every attempt.
* With the receive loop running, an answer may go to the loop instead of the caller that asked
  (`Server.LoopTakesTheAnswer`, and in general `Server.AnswersFollowReceives`).

## Model

| member | source | states |
|---|---|---|
| Bytes.XorIsNumberXor | src/datum_protocol.rs:683-694 | the byte-by-byte mask is the bitwise XOR of the little-endian values |
| Bytes.XorInjective | src/datum_protocol.rs:683-694 | two keys mask a word alike only if they are equal |
| HeaderCodec.SerializeHeader | src/datum_protocol.rs:610-627 | the bytes assembled in place are the little-endian number with fields of 22, 2, 3 and 5 bits |
| HeaderCodec.DeserializeHeader | src/datum_protocol.rs:635-659 | fails exactly on fewer than four bytes, and otherwise reads byte by byte the fields of that number |
| HeaderCodec.PackUnpack | src/datum_protocol.rs:610-659 | serialising after deserialising is the identity on every word |
| HeaderCodec.UnpackPack | src/datum_protocol.rs:610-659 | deserialising after serialising keeps exactly the low 22, 2 and 5 bits and the three flags |
| HeaderCodec.SurvivesIffInRange | src/datum_protocol.rs:610-659 | a header survives the wire if and only if every field is in range |
| HeaderCodec.CommandTable | src/messages.rs:26-59 | decoding a byte gives a command if and only if the byte is that command's discriminant, and the discriminants are 0, 0x11, 2, 3, 0x99, 0x50, 0x8F and 0xF9 |
| HeaderCodec.ReachableCommands | src/messages.rs:26-59 | a header word names a command if and only if its code is 0, 2, 3 or 0x11, and then one of handshake, fetch, submit and job update |
| HeaderCodec.CommandSurvives | src/messages.rs:26-59 | a command survives encode and decode if and only if its code is below 32, and is unknown otherwise |
| Crypto.CreateNonceInjective | src/datum_protocol.rs:662-668 | a nonce is the counter and four zero bytes, and two counters give one nonce only if they are equal |
| Crypto.HashInputsDiffer | src/datum_protocol.rs:706-731 | different header keys, and the two directions of one secret, never feed the hash one input |
| Crypto.HashInputsSpelled | src/datum_protocol.rs:706-731 | the hashed inputs byte for byte, and the nonce is the first eight digest bytes read little-endian |
| Client.DatumProtocolClient.constructor | src/datum_protocol.rs:99-134 | a new client has no stream, keys or ciphers, zero counters and key, and is not connected |
| Client.DatumProtocolClient.SetPoolPublicKey | src/datum_protocol.rs:137-139 | replaces the pool's public key and nothing else |
| Client.DatumProtocolClient.ApplyHeaderXor | src/datum_protocol.rs:672-697 | masks the first four bytes in place of a copy, keeps the rest, and leaves the input word as the new key |
| Client.DatumProtocolClient.SendMessage | src/datum_protocol.rs:393-471 | carries out one send: key and nonce advance even when encryption or a write fails, and what is written is the completed part of header, signature, ciphertext |
| Client.DatumProtocolClient.ReceiveMessageInternal | src/datum_protocol.rs:474-559 | carries out one receive: the key advances with the header, the nonce only past the signature gate and before decryption |
| Client.DatumProtocolClient.ReceiveMessage | src/datum_protocol.rs:562-602 | receive followed by dispatch, with the dispatcher's error paths |
| Client.DatumProtocolClient.FetchCoinbaser | src/datum_protocol.rs:734-753 | sends the value as eight bytes and returns the data of a fetch answer, or an error |
| Client.DatumProtocolClient.SubmitPow | src/datum_protocol.rs:756-789 | sends the proof of work and reads the verdict byte of a submit answer |
| Client.DatumProtocolClient.BuildHello | src/datum_protocol.rs:186-219 | appends the hello field by field and signs it with the local key |
| Client.DatumProtocolClient.PerformHandshake | src/datum_protocol.rs:175-384 | hello, response, echo checks, key derivation and nonces, with every early error and the state it leaves |
| Client.DatumProtocolClient.Connect | src/datum_protocol.rs:147-172 | sets the connected flag only after a completed handshake, and never clears it |
| Session.DispatchIsIdle | src/datum_protocol.rs:554-602 | for every state and handler, dispatch changes nothing: no received command has a dispatcher arm |
| Session.DispatchDecides | src/datum_protocol.rs:571-602 | the dispatcher command by command: four are passed over, four need 13, 1, 9 and 72 bytes and the handler's consent |
| Session.AnswerDecides | src/datum_protocol.rs:734-789 | a request ends with its send if that fails; otherwise it returns data if and only if the next frame received is one of its own command, and any other command is an error after that frame is taken |
| Framing.DownFrameIsDelivered | src/datum_protocol.rs:474-559 | a pool frame within the limits is delivered, consumed exactly, and moves key and nonce by one step |
| Framing.DownDeliveredIffFits | src/datum_protocol.rs:474-559 | a pool frame is delivered if and only if its ciphertext length is below 2^22 and its command code below 32 |
| Framing.CodeDecides | src/datum_protocol.rs:535-559 | a genuine frame under any fitting header is delivered as the command that has its five-bit code, and is an unknown command, which stops the receive loop, if and only if none has |
| Framing.SendWritesUpFrame | src/datum_protocol.rs:393-471 | a send on an established session writes exactly one outbound frame |
| Framing.SendSucceedsIff | src/datum_protocol.rs:393-471 | however many writes complete, key and counter move and what is written is 0, 4, 68 or all octets of the frame; the send is `Ok` if and only if the whole frame was written |
| Framing.UpDeliveredIffFits | src/datum_protocol.rs:405-417 | a client frame is delivered by the mirror if and only if its plaintext length is below 2^22 and its command code below 32 |
| Framing.OutboundFrameIsNotInbound | src/datum_protocol.rs:406-559 | a client handed its own outbound frame always rejects its signature: the two length conventions differ |
| Framing.CutStreamIsDelivered | src/datum_protocol.rs:474-559 | wherever a stream of frames is cut, receiving yields the whole frames' messages in order and then the end of the stream |
| Framing.WholeStreamIsDelivered | src/datum_protocol.rs:474-559 | a whole stream is delivered message for message, consumes every octet, and moves key and nonce as the pool's moved |
| Framing.DeliveredWasSealed | src/datum_protocol.rs:487-559 | whatever is in the stream, delivered data was sealed under the pool's key and the current nonce, and that ciphertext is part of the stream |
| Lockstep.StepInStep | src/datum_protocol.rs:393-559 | every ordered step of either end keeps keys, nonces and octets in flight in step, and is one step of the two queues |
| Lockstep.SessionRefinesQueues | src/datum_protocol.rs:393-559 | every ordered run of the two ends is a run of a pair of FIFO queues |
| Lockstep.OrderedIffQueueOrdered | src/datum_protocol.rs:672-697 | a run respects the half-duplex order if and only if its events do, judged by the queues alone |
| Lockstep.OrderedRunDelivers | src/datum_protocol.rs:393-559 | from matched ends, deliveries are prefixes of what was sent, complete with equal keys and nonces whenever nothing is in flight |
| HeaderKey.KeyIsLastRecorded | src/datum_protocol.rs:683-694 | after any run, failed operations included, the key is the last plaintext header sent or wire word received |
| HeaderKey.WireWordsTelescope | src/datum_protocol.rs:418-420 | the XOR of the wire words of consecutive sends is the first key XOR the last header |
| HeaderKey.CrossingFrames | src/datum_protocol.rs:418-489 | when both ends send under one key: exact conditions for each to decode the other's header and for the keys to agree again |
| HeaderKey.CrossedSignedFrame | src/datum_protocol.rs:487-533 | a signed frame is delivered if and only if both ends hold one key, and is an error otherwise |
| HeaderKey.CrossedUnsignedFrame | src/datum_protocol.rs:487-559 | an unsigned frame is delivered, whatever the two keys and whatever follows it, if and only if the header seen is unsigned, has the ciphertext's length and names some command; and then as that command |
| HeaderKey.VerdictBecomesCoinbaser | src/datum_protocol.rs:487-559 | the failing input, reached from any matched session: a submission is taken by the pool, its unsigned verdict crosses a second task's fetch, and the verdict is delivered as the answer to the fetch |
| HeaderKey.SameRuleDecodesIff | src/datum_protocol.rs:672-697 | if both ends run the client's rule, n headers all decode if and only if the key before each of the first n-1 is zero |
| HeaderKey.TwoClientsLoseStep | src/datum_protocol.rs:406-420 | three or more session headers never all decode under the client's own rule |
| Nonces.CountersCount | src/datum_protocol.rs:422-426 | over any run the counters advance by exactly the sends that started and the frames that passed the signature gate |
| Nonces.NoncesAreFresh | src/datum_protocol.rs:535-545 | over any run the nonces used in a direction are distinct if and only if there are at most 2^64 of them |
| Nonces.NoNonceSealsTwice | src/datum_protocol.rs:422-444 | read off the octets a run writes: every sealed octet is under the sending key and a counter value the run took, and octets with one nonce are pieces of one ciphertext, written once |
| Nonces.EveryDeliveryWasSealed | src/datum_protocol.rs:535-559 | over any run and any inbound stream, a delivered message was sealed under the pool's key and the one nonce due at that point, and the ciphertext is in the stream |
| Nonces.NothingIsReplayed | src/datum_protocol.rs:535-559 | over any run and any inbound stream, two deliveries never come from one ciphertext |
| Nonces.DirectionsShareNoncesIffKeysEqual | src/datum_protocol.rs:350-381 | after a successful connect the two directions share a (key, nonce) pair if and only if the hash maps the two different derivation inputs to one key |
| Nonces.LagDecides | src/datum_protocol.rs:487-552 | against a pool that advances per frame, signed or not, the lag left by rejected frames decides every later verdict |
| Nonces.RejectionIsPermanent | src/datum_protocol.rs:512-552 | a frame, signed or not, is delivered if and only if it is genuine and the number of frames rejected before it is a multiple of 2^64: after one rejection nothing is delivered until the counter has come round |
| Handshake.HelloIsRecovered | src/datum_protocol.rs:186-219 | a pool-side parser recovers keys, NUL-free version, header key, padding and a verifying signature from any hello |
| Handshake.ResponseAcceptedIff | src/datum_protocol.rs:282-348 | a response is accepted if and only if it echoes the four keys and names a valid key, and then yields the pool keys and the message of the day |
| Handshake.ResponseDecides | src/datum_protocol.rs:282-348 | a payload of any length is accepted if and only if it has at least 192 bytes, starts with the four keys in order and goes on with a valid verifying key; the message of the day is what precedes the first NUL |
| Handshake.EveryRunEstablished | src/datum_protocol.rs:147-172 | over all runs, connected implies stream, keys, ciphers and verification key, and holds if and only if a connect succeeded |
| Handshake.SendsAreProtected | src/datum_protocol.rs:393-469 | until a connect succeeds a send changes nothing; afterwards only signed and encrypted frames are written |
| Handshake.SecondConnectFails | src/datum_protocol.rs:273-280 | connecting a connected object again rejects every clear response, of whatever shape, and leaves the flag set |
| Handshake.ConnectSucceedsIff | src/datum_protocol.rs:147-384 | after any run of one object, connecting it to a pool that answers as documented succeeds if and only if the object is not connected, that is, if and only if no connect of the run succeeded |
| Handshake.ConnectDecides | src/datum_protocol.rs:147-384 | against any whole frame in answer to its hello, an unconnected object connects if and only if the pool was reached, all writes completed, the frame is a handshake, and its payload echoes the four keys and names a valid one; every other course has its error |
| Handshake.HelloHeaderFields | src/datum_protocol.rs:246-254 | the hello's header carries the payload length, is flagged as signed, and as key-encrypted exactly when a pool key is set |
| Handshake.HelloFrame | src/datum_protocol.rs:237-270 | the hello is written as header and payload with no signature block, masked with the key it announces, and its header becomes the key |
| Handshake.HelloIsSealed | src/datum_protocol.rs:186-267 | octet by octet: with a pool key set everything behind the header is a sealed box for that key holding the hello of the four keys, without one it is the hello itself, and the header gives its length and says which |
| Handshake.HandshakeMatchesEnds | src/datum_protocol.rs:175-384 | a documented answer makes the connect of an unconnected object succeed with equal header keys, matching nonces and agreed ciphers, having written its hello and read nothing past the answer |
| Server.RunReceiveLoop | src/server.rs:100-112 | the loop returns the messages received up to the first error, and that error |
| Server.WireIsConserved | src/server.rs:95-114 | under every interleaving the pieces taken, in receive order, are the wire up to what is left, each taken by the one task whose turn it was |
| Server.AnswersFollowReceives | src/datum_protocol.rs:561-569 | in every ordered run the j-th pool message goes to the task of the j-th receive |
| Server.LoopTakesTheAnswer | src/server.rs:95-114 | there is an ordered run in which the receive loop is handed the answer to a caller's request |
| Server.PoolServes | src/datum_protocol.rs:393-471 | a mirror pool that takes a request and then answers it, time after time, reads from the client's octets exactly the requests and writes exactly the answer stream |
| Server.SerialRequestsAreAnswered | src/datum_protocol.rs:734-789 | serialised requests: the octets written are served by the mirror pool with exactly the octets read, the k-th request gets the k-th answer, and the ends are matched again |
| Coinbaser.ParseCoinbaseResponse | src/pool.rs:162-315 | the offset-driven parser computes the recursive specification on every buffer, error by error |
| Coinbaser.ParseOutputs | src/pool.rs:268-308 | the counted loop over the outputs computes its recursive specification |
| Coinbaser.RoundTrip | src/pool.rs:158-315 | a printed payout is parsed back whatever the leading value, the slack and the trailing bytes |
| Coinbaser.AcceptedIffPrinted | src/pool.rs:158-315 | a buffer is accepted with a payout if and only if it is a printed response for that payout |
| Coinbaser.RejectedIffTruncated | src/pool.rs:218-308 | a body is rejected if and only if it is a truncated payout, and the error names the field that the cut falls into |
| Coinbaser.TerminatorDecides | src/pool.rs:203-215 | an accepted buffer has 0xFE behind its declared body, and exactly any other byte there is a missing terminator |
| Coinbaser.DecompositionIsUnique | src/pool.rs:158-315 | value, payout, slack and trailing bytes of a response are determined by the buffer |
| Coinbaser.PayoutFitsDeclaredLength | src/pool.rs:218-308 | three length bytes, tag, identifier and nine bytes and a script per output never exceed the declared length |
| Coinbaser.OutcomeDependsOnBody | src/pool.rs:163-215 | the outcome depends on the length field, the body and the terminator alone |
| Coinbaser.SlackIsIgnored | src/pool.rs:268-314 | of an accepted body only the printed payout matters, whatever follows it and whatever the declared length |
| Coinbaser.OutOfRangeIff | src/pool.rs:203-215 | the parser indexes out of range exactly on buffers that end where the terminator should stand |
| Coinbaser.OutOfRangeExample | src/pool.rs:203-215 | a 13-byte buffer that does so |
| Pool.DatumPool.Connect | src/pool.rs:109-130 | credentials are stored before the attempt, and only a success replaces the client |
| Pool.DatumPool.Reconnect | src/pool.rs:91-106 | fails without credentials, and otherwise drops the client before the attempt |
| Pool.DatumPool.FetchCoinbasePayout | src/pool.rs:133-156 | stores and returns the parsed payout, and stores nothing on any error |
| Pool.FetchDecides | src/pool.rs:133-156 | a fetch returns and stores a payout if and only if its request went out whole and the next frame is a coinbaser answer that is a printed response for it, and panics exactly on answers that end before their terminator |
| Pool.DatumPool.SetTemplate | src/pool.rs:323-335 | stores the template whatever becomes of the fetch it triggers, or of the index panic on a block without a first output |
| Pool.TemplateDecides | src/pool.rs:323-335 | with a client, a template fetches for the one u64 congruent to its first output and succeeds as that fetch does; without one it succeeds at once; a block without a first output panics |
| Pool.DatumPool.SubmitPow | src/pool.rs:366-374 | forwards to the client, and fails without one |
| Pool.SubmitDecides | src/datum_protocol.rs:756-789 | a submission's verdict told by its send and receive: true on 0x50 and 0x55, false on 0x66, and its own error on every other course |
| Pool.DatumPool.GetPoolInfo | src/pool.rs:348-363 | reports the stored url or its placeholder, and what is present |
| Pool.EveryPoolRun | src/pool.rs:72-363 | over all runs, turns of the receive loop on the shared client included: a client implies credentials and an established session, the credentials are those of the last attempted connect, "not configured" means there was none, no jobs, key, template and payout are the last set and the last accepted, and the reported information is, field by field, what these and the attempts' outcomes say |
| Pool.FailedAttempts | src/pool.rs:91-130 | connect and reconnect end as the connect of a new client under the key in force; a failed connect keeps the old client under the new credentials, a failed reconnect keeps the credentials and leaves no client |
| EndToEnd.OneFetch | src/pool.rs:133-156 | from the octets written the pool reads the value asked for, and the payout it prints is returned, stored, and consumed exactly |
| EndToEnd.OneTemplate | src/pool.rs:323-335 | from the octets written the pool reads the value of the template's first output, a negative one wrapped around 2^64, and the payout it prints is stored next to the template |
| EndToEnd.OtherCommandIsRefused | src/datum_protocol.rs:744-769 | a request answered by a frame of another command takes that frame and fails |
| EndToEnd.FetchRefusesOthers | src/pool.rs:143-150 | no fetch makes a payout of a job update, a verdict or a handshake frame, whatever its data |
| EndToEnd.OneSubmission | src/datum_protocol.rs:756-789 | the pool reads the proof of work from the octets written, and the submission is accepted exactly on 0x50 or 0x55 and refused exactly on 0x66 |
| EndToEnd.ConnectThenFetch | src/pool.rs:109-156 | a connect and any number of fetches return exactly the payouts the pool printed, in order; the octets written are a hello and the requests, and a mirror pool reads the values asked for from them and writes exactly the octets read |
| EndToEnd.AnsweredReconnect | src/pool.rs:91-106 | reconnecting a configured pool object to a pool that answers as documented succeeds, leaves a client ready and matched under the key in force, and changes nothing else |
| EndToEnd.ReconnectThenFetch | src/pool.rs:91-156 | a reconnect and any number of fetches return exactly the payouts the pool printed, with the octets of both ends, as after a connect |
| EndToEnd.SessionsExist | src/datum_protocol.rs:147-384 | a concrete handshake leaves two ends ready, quiet and matched, so the session theorems speak of something |
| EndToEnd.ConnectThenExchange | src/datum_protocol.rs:147-559 | a connect starts a session in which every half-duplex run delivers what was sent |

## Left out

- Real cryptography and randomness: symbolic or uninterpreted; random values are inputs of a connection attempt. That a made octet differs from a clear byte of the same value is an idealisation.
- Sealing failures other than an over-long plaintext, and an unusable pool public key: `HelloPayload` always succeeds.
- Nonces.CountersCount: `nonce += 1` is taken modulo 2^64, as in a release build; a build with overflow checks panics there instead.
- Partial writes: a `write_all` completes or writes nothing; a `read_exact` that meets the end of the stream loses what was left.
- Liveness and timing: a receive holds the stream lock while it waits, so only safety and conservation are claimed.
- Locks other than the stream lock: the handshake stores its first header key and its final keys outside that lock, which is harmless because `DatumPool` shares a client only after `connect` returns.
- Coinbaser.ParseCoinbaseResponse: tag and identifier are kept as raw bytes; lossy UTF-8 decoding and the rendering in `src/api.rs` are not modelled.
- Handshake.HelloIsRecovered: concerns the hello's contents; its frame header is masked with the key the hello itself carries, so how a pool delimits that first frame is not part of the model.
- The 64-byte signature that the documentation puts at the end of a handshake response: the client does not check it, and neither does the model.
- Pool.DatumPool.SetTemplate: of a block only output values are kept; what a panic there leaves of the locks held is not modelled.
- The fixed-offset parsers of `src/handlers.rs`: straight-line reads behind dispatcher arms that are never reached; of them only the minimum lengths appear.
- `DatumServer`'s running flag, status and event dispatch, configuration, CLI and error strings.
