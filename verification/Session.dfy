/**
  * The state of a DATUM client and the effect of each of its operations on that state.
  * Every function here is one critical section under the stream lock.
  */
module Session {
  import opened Bytes
  import opened HeaderCodec
  import opened Crypto

  datatype Error =
    | NotConnected
    | NotConfigured
    | Unreachable
    | NoStream
    | NoLocalKeys
    | ReadEnded
    | WriteFailed
    | HeaderTooShort
    | EncryptionFailed
    | BadSignature
    | DecryptionFailed
    | UnknownCommand(code: byte)
    | UnexpectedCommand
    | ResponseTooShort
    | EchoMismatch(which: nat)
    | InvalidPoolKey
    | PayloadTooShort
    | HandlerFailed
    | EmptyResponse
    | UnknownResponseCode(code: byte)
    | BadCoinbaser
    | Panicked

  datatype Result<+T> = Ok(value: T) | Err(error: Error)

  datatype Message = Message(command: DatumCommand, data: seq<byte>)

  /** The octets the pool has yet to have read, and those written so far. */
  datatype Socket = Socket(inbound: seq<Octet>, outbound: seq<Octet>)

  datatype EncryptionKeys = EncryptionKeys(ed25519Signing: Key, x25519Secret: Key)

  /** The fields of DatumProtocolClient. */
  datatype ClientState = ClientState(
    poolPublicKey: Option<Key>,
    stream: Option<Socket>,
    localKeys: Option<EncryptionKeys>,
    remoteKey: Option<Key>,
    sendCipher: Option<Key>,
    recvCipher: Option<Key>,
    sendNonce: u64,
    recvNonce: u64,
    headerKey: Word,
    poolVerify: Option<Key>,
    connected: bool)

  /** DatumProtocolClient::new and new_with_pool_key. */
  function Fresh(poolPublicKey: Option<Key>): ClientState {
    ClientState(poolPublicKey, None, None, None, None, None, 0, 0, ZERO, None, false)
  }

  /** `nonce += 1` on a wrapping `u64`. */
  function Next(n: u64): u64 {
    (n + 1) % TWO_TO_THE_64
  }

  // ----- frames

  function SignatureSize(header: Word): nat {
    if Unpack(header).isSigned then SIGNATURE_LENGTH else 0
  }

  /** A frame as written: masked header, optional signature, body. */
  function WriteFrame(header: Word, key: Word, signature: seq<Octet>, body: seq<Octet>): seq<Octet> {
    Clears(Xor(header, key)) + signature + body
  }

  datatype Read =
    | NoHeader
    | Short(wire: Word)
    | Complete(wire: Word, header: Word, signature: seq<Octet>, body: seq<Octet>, rest: seq<Octet>)

  /**
    * One frame from the front of a stream. The body is `cmd_len` octets and `extra` more:
    * none for the client, whose pool counts ciphertext; the AEAD tag for a pool, whose client counts plaintext.
    */
  function ReadFrame(suite: Suite, key: Word, inbound: seq<Octet>, extra: nat): Read {
    if |inbound| < 4 then NoHeader else
      var wire: Word := Values(suite, inbound[..4]);
      var header := Xor(wire, key);
      var bodyAt := 4 + SignatureSize(header);
      var end := bodyAt + Unpack(header).cmdLen + extra;
      if |inbound| < end then Short(wire)
      else Complete(wire, header, inbound[4..bodyAt], inbound[bodyAt..end], inbound[end..])
  }

  // ----- sending

  /** The first `writes` chunks, concatenated: what reaches the wire when the next `write_all` fails. */
  function Written(chunks: seq<seq<Octet>>, writes: nat): seq<Octet> {
    if chunks == [] || writes == 0 then [] else chunks[0] + Written(chunks[1..], writes - 1)
  }

  function Emit(c: ClientState, octets: seq<Octet>): ClientState
    requires c.stream.Some?
  {
    c.(stream := Some(c.stream.value.(outbound := c.stream.value.outbound + octets)))
  }

  /** The header of a session message: the length of the *plaintext*, signed, channel-encrypted. */
  function SessionHeader(command: DatumCommand, length: nat): DatumMessageHeader {
    DatumMessageHeader(length % TWO_TO_THE_32, 0, true, false, true, Code(command))
  }

  function SessionBody(c: ClientState, data: seq<byte>): seq<Octet> {
    if c.sendCipher.Some? then Seal(c.sendCipher.value, CreateNonce(c.sendNonce), data) else Clears(data)
  }

  function SessionSignature(suite: Suite, c: ClientState, header: Word, body: seq<Octet>): seq<Octet> {
    if c.localKeys.Some? then Sign(suite.ed25519Public(c.localKeys.value.ed25519Signing), Clears(header) + body) else []
  }

  function SessionChunks(suite: Suite, c: ClientState, command: DatumCommand, data: seq<byte>): seq<seq<Octet>> {
    var header := Pack(SessionHeader(command, |data|));
    var body := SessionBody(c, data);
    var signature := SessionSignature(suite, c, header, body);
    [Clears(Xor(header, c.headerKey))] + (if signature == [] then [] else [signature]) + [body]
  }

  /** send_message, when the connection accepts `writes` more calls of `write_all`. */
  function Send(suite: Suite, c: ClientState, command: DatumCommand, data: seq<byte>, writes: nat)
    : (r: (ClientState, Result<()>))
    ensures c.stream.Some? ==> r.0.stream.Some?
  {
    if !c.connected then (c, Err(NotConnected))
    else if c.stream.None? then (c, Err(NoStream))
    else
      var after := c.(headerKey := Pack(SessionHeader(command, |data|)), sendNonce := Next(c.sendNonce));
      if c.sendCipher.Some? && |data| > PLAINTEXT_LIMIT then (after, Err(EncryptionFailed)) else
        var chunks := SessionChunks(suite, c, command, data);
        (Emit(after, Written(chunks, writes)), if writes < |chunks| then Err(WriteFailed) else Ok(()))
  }

  // ----- receiving

  function SetInbound(c: ClientState, inbound: seq<Octet>): ClientState
    requires c.stream.Some?
  {
    c.(stream := Some(c.stream.value.(inbound := inbound)))
  }

  function Decrypt(suite: Suite, c: ClientState, body: seq<Octet>): Option<seq<byte>> {
    if c.recvCipher.Some? then Open(c.recvCipher.value, CreateNonce(c.recvNonce), body) else Some(Values(suite, body))
  }

  /** The signature gate: an unsigned frame passes, and so does any frame before the pool's key is known. */
  predicate PassesGate(c: ClientState, header: Word, signature: seq<Octet>, body: seq<Octet>) {
    signature == [] || c.poolVerify.None? || Verifies(c.poolVerify.value, Clears(header) + body, signature)
  }

  /** The part of receive_message_internal after the three reads. */
  function Judge(suite: Suite, c: ClientState, header: Word, signature: seq<Octet>, body: seq<Octet>)
    : (ClientState, Result<Message>)
  {
    if !PassesGate(c, header, signature, body) then (c, Err(BadSignature)) else
      var counted := c.(recvNonce := Next(c.recvNonce));
      var data := Decrypt(suite, c, body);
      if data.None? then (counted, Err(DecryptionFailed)) else
        var code := Unpack(header).protoCmd;
        match FromCode(code)
        case None => (counted, Err(UnknownCommand(code)))
        case Some(command) => (counted, Ok(Message(command, data.value)))
  }

  /** receive_message_internal. A read past the end of the stream consumes what is left. */
  function Receive(suite: Suite, c: ClientState): (r: (ClientState, Result<Message>))
    ensures c.stream.Some? ==> r.0.stream.Some?
  {
    if c.stream.None? then (c, Err(NoStream)) else
      match ReadFrame(suite, c.headerKey, c.stream.value.inbound, 0)
      case NoHeader => (SetInbound(c, []), Err(ReadEnded))
      case Short(wire) => (SetInbound(c, []).(headerKey := wire), Err(ReadEnded))
      case Complete(wire, header, signature, body, rest) =>
        Judge(suite, SetInbound(c, rest).(headerKey := wire), header, signature, body)
  }

  /** The message handler as the dispatcher sees it: does it accept this payload? */
  type Handler = (DatumCommand, seq<byte>) -> bool

  /** The shortest payload the parser behind each dispatcher arm accepts. */
  function MinimumPayload(command: DatumCommand): nat {
    match command
    case ClientConfig => 13
    case JobValidation => 1
    case ShareResponse => 9
    case BlockNotify => 72
    case _ => 0
  }

  predicate HasArm(command: DatumCommand) {
    command.ClientConfig? || command.JobValidation? || command.ShareResponse? || command.BlockNotify?
  }

  /** handle_protocol_message. */
  function Dispatch(message: Message, handler: Handler): Result<()> {
    if !HasArm(message.command) then Ok(())
    else if |message.data| < MinimumPayload(message.command) then Err(PayloadTooShort)
    else if handler(message.command, message.data) then Ok(())
    else Err(HandlerFailed)
  }

  /** The dispatcher, command by command. */
  lemma DispatchDecides(data: seq<byte>, handler: Handler)
    ensures forall c :: c in {Handshake, FetchCoinbaser, SubmitPow, JobUpdate} ==>
              Dispatch(Message(c, data), handler) == Ok(())
    ensures forall c :: c in {ClientConfig, JobValidation, ShareResponse, BlockNotify} ==>
              var shortest := map[ClientConfig := 13, JobValidation := 1, ShareResponse := 9, BlockNotify := 72];
              Dispatch(Message(c, data), handler)
              == if |data| < shortest[c] then Err(PayloadTooShort)
                 else if !handler(c, data) then Err(HandlerFailed)
                 else Ok(())
  {
  }

  /** receive_message. */
  function ReceiveAndDispatch(suite: Suite, c: ClientState, handler: Handler): (ClientState, Result<Message>) {
    var (after, r) := Receive(suite, c);
    if r.Err? then (after, r) else
      match Dispatch(r.value, handler)
      case Ok(_) => (after, r)
      case Err(e) => (after, Err(e))
  }

  /** The dispatcher never sees a command it has an arm for, so dispatch changes nothing. */
  lemma DispatchIsIdle(suite: Suite, c: ClientState, handler: Handler)
    ensures ReceiveAndDispatch(suite, c, handler) == Receive(suite, c)
    ensures Receive(suite, c).1.Ok? ==> !HasArm(Receive(suite, c).1.value.command)
  {
    if c.stream.Some? {
      match ReadFrame(suite, c.headerKey, c.stream.value.inbound, 0)
      case NoHeader =>
      case Short(_) =>
      case Complete(_, header, _, _, _) => ReachableCommands(header);
    }
  }

  // ----- requests

  /** The common shape of fetch_coinbaser and submit_pow: send, receive, check the command. */
  function Request(suite: Suite, c: ClientState, command: DatumCommand, data: seq<byte>, writes: nat, handler: Handler)
    : (ClientState, Result<seq<byte>>)
  {
    var (sent, r) := Send(suite, c, command, data, writes);
    if r.Err? then (sent, Err(r.error)) else
      var (after, answer) := ReceiveAndDispatch(suite, sent, handler);
      match answer
      case Err(e) => (after, Err(e))
      case Ok(m) => (after, if m.command != command then Err(UnexpectedCommand) else Ok(m.data))
  }

  /**
    * What a request returns, told by its send and its receive alone. A failed send is the end of it; after a
    * completed one the next frame is taken, and only a frame of the request's own command is an answer.
    */
  lemma AnswerDecides(suite: Suite, c: ClientState, command: DatumCommand, data: seq<byte>, writes: nat,
                      handler: Handler)
    ensures var (sent, s) := Send(suite, c, command, data, writes);
            var (after, r) := Request(suite, c, command, data, writes, handler);
            if s.Err? then after == sent && r == Err(s.error) else
              var (received, m) := Receive(suite, sent);
              && after == received
              && (forall d :: r == Ok(d) <==> m == Ok(Message(command, d)))
              && (r == Err(UnexpectedCommand) <==>
                    (m.Ok? && m.value.command != command) || m == Err(UnexpectedCommand))
              && (m.Err? ==> r == Err(m.error))
  {
    hide Send, Receive;
    DispatchIsIdle(suite, Send(suite, c, command, data, writes).0, handler);
  }

  /** The verdict submit_pow reads from the first byte of the answer. */
  function Verdict(data: seq<byte>): Result<bool> {
    if data == [] then Err(EmptyResponse)
    else if data[0] == 0x50 || data[0] == 0x55 then Ok(true)
    else if data[0] == 0x66 then Ok(false)
    else Err(UnknownResponseCode(data[0]))
  }

  // ----- connecting

  type Padding = s: seq<byte> | 1 <= |s| <= 200 witness [0]

  /** What one connection attempt draws from the network and the random generator. */
  datatype Attempt = Attempt(
    reachable: bool,
    inbound: seq<Octet>,
    local: EncryptionKeys,
    session: EncryptionKeys,
    headerKey: Word,
    padding: Padding,
    ephemeral: Key,
    writes: nat)

  /** The four public keys a hello announces and a response must echo, in order. */
  function Announced(suite: Suite, local: EncryptionKeys, session: EncryptionKeys): (keys: seq<Key>)
    ensures |keys| == 4
  {
    [suite.ed25519Public(local.ed25519Signing), suite.x25519Public(local.x25519Secret),
     suite.ed25519Public(session.ed25519Signing), suite.x25519Public(session.x25519Secret)]
  }

  function HelloBody(keys: seq<Key>, headerKey: Word, padding: Padding): seq<byte>
    requires |keys| == 4
  {
    var announced: seq<byte> := keys[0];
    announced + keys[1] + keys[2] + keys[3] + Ascii(VERSION) + [0] + headerKey + padding
  }

  /** The hello with the signature appended. */
  function Hello(keys: seq<Key>, headerKey: Word, padding: Padding): seq<Octet>
    requires |keys| == 4
  {
    var body := Clears(HelloBody(keys, headerKey, padding));
    body + Sign(keys[0], body)
  }

  function HelloPayload(c: ClientState, hello: seq<Octet>, ephemeral: Key): seq<Octet> {
    if c.poolPublicKey.Some? then SealedBox(c.poolPublicKey.value, ephemeral, hello) else hello
  }

  function HelloHeader(c: ClientState, length: nat): DatumMessageHeader {
    DatumMessageHeader(length % TWO_TO_THE_32, 0, true, c.poolPublicKey.Some?, false, Code(Handshake))
  }

  datatype Response = Response(poolEd25519: Key, poolX25519: Key, motd: seq<byte>)

  /** The bytes before the first NUL, or all of them. */
  function UntilNul(s: seq<byte>): (t: seq<byte>)
    ensures t <= s && 0 !in t && (t == s || s[|t|] == 0)
  {
    if s == [] || s[0] == 0 then [] else [s[0]] + UntilNul(s[1..])
  }

  /** The checks of perform_handshake on the response payload. */
  function ReadResponse(suite: Suite, data: seq<byte>, keys: seq<Key>): Result<Response>
    requires |keys| == 4
  {
    if |data| < 192 then Err(ResponseTooShort)
    else if data[..32] != keys[0] then Err(EchoMismatch(0))
    else if data[32..64] != keys[1] then Err(EchoMismatch(1))
    else if data[64..96] != keys[2] then Err(EchoMismatch(2))
    else if data[96..128] != keys[3] then Err(EchoMismatch(3))
    else if !suite.isVerifyingKey(data[128..160]) then Err(InvalidPoolKey)
    else Ok(Response(data[128..160], data[160..192], UntilNul(data[192..])))
  }

  /** The state changes once a response is accepted. */
  function Establish(suite: Suite, c: ClientState, session: EncryptionKeys, headerKey: Word, response: Response)
    : ClientState
  {
    var secret := suite.diffieHellman(session.x25519Secret, response.poolX25519);
    c.(poolVerify := Some(response.poolEd25519),
       sendCipher := Some(DeriveKey(suite, secret, "send")),
       recvCipher := Some(DeriveKey(suite, secret, "recv")),
       remoteKey := Some(response.poolX25519),
       sendNonce := InitialNonce(suite, headerKey),
       recvNonce := InitialNonce(suite, headerKey))
  }

  /** perform_handshake up to and including the flush. */
  function SendHello(suite: Suite, c: ClientState, a: Attempt): (ClientState, Result<()>) {
    if c.localKeys.None? then (c, Err(NoLocalKeys))
    else if c.stream.None? then (c.(headerKey := a.headerKey), Err(NoStream))
    else
      var hello := Hello(Announced(suite, c.localKeys.value, a.session), a.headerKey, a.padding);
      var payload := HelloPayload(c, hello, a.ephemeral);
      var header := Pack(HelloHeader(c, |payload|));
      (Emit(c.(headerKey := header), Written([Clears(Xor(header, a.headerKey)), payload], a.writes)),
       if a.writes < 3 then Err(WriteFailed) else Ok(()))
  }

  /** perform_handshake. */
  function PerformHandshake(suite: Suite, c: ClientState, a: Attempt): (ClientState, Result<()>) {
    var (greeted, sent) := SendHello(suite, c, a);
    if sent.Err? then (greeted, sent) else
      var (answered, answer) := Receive(suite, greeted);
      if answer.Err? then (answered, Err(answer.error))
      else if answer.value.command != Handshake then (answered, Err(UnexpectedCommand))
      else
        match ReadResponse(suite, answer.value.data, Announced(suite, c.localKeys.value, a.session))
        case Err(e) => (answered, Err(e))
        case Ok(response) => (Establish(suite, answered, a.session, a.headerKey, response), Ok(()))
  }

  /** connect. A failed attempt leaves `connected` as it was. */
  function Connect(suite: Suite, c: ClientState, a: Attempt): (ClientState, Result<()>) {
    if !a.reachable then (c, Err(Unreachable)) else
      var (after, r) :=
        PerformHandshake(suite, c.(stream := Some(Socket(a.inbound, [])), localKeys := Some(a.local)), a);
      (if r.Ok? then after.(connected := true) else after, r)
  }
}
