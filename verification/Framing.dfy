/** The frame grammars of an established session, and what reading them back yields. */
module Framing {
  import opened Bytes
  import opened HeaderCodec
  import opened Crypto
  import opened Session

  /** The key material both ends of a session agree on. */
  datatype Keys = Keys(client: Key, pool: Key, up: Key, down: Key)

  /** A client that has completed the handshake that fixed `keys`. */
  predicate Ready(suite: Suite, keys: Keys, c: ClientState) {
    && c.connected && c.stream.Some? && c.localKeys.Some?
    && suite.ed25519Public(c.localKeys.value.ed25519Signing) == keys.client
    && c.poolVerify == Some(keys.pool)
    && c.sendCipher == Some(keys.up)
    && c.recvCipher == Some(keys.down)
  }

  /** What a pool may send: any message, signed or not, with any settings of the bits the client ignores. */
  datatype PoolMessage = PoolMessage(
    message: Message, signed: bool, reserved: byte, pubkeyFlag: bool, channelFlag: bool)

  /** Inbound session frames count the *ciphertext* in `cmd_len`. */
  function DownHeader(m: PoolMessage): Word {
    Pack(DatumMessageHeader((|m.message.data| + TAG_LENGTH) % TWO_TO_THE_32, m.reserved,
                            m.signed, m.pubkeyFlag, m.channelFlag, Code(m.message.command)))
  }

  function DownBody(keys: Keys, nonce: u64, m: PoolMessage): seq<Octet> {
    Seal(keys.down, CreateNonce(nonce), m.message.data)
  }

  function DownSignature(keys: Keys, nonce: u64, m: PoolMessage): seq<Octet> {
    if m.signed then Sign(keys.pool, Clears(DownHeader(m)) + DownBody(keys, nonce, m)) else []
  }

  function FrameSize(m: PoolMessage): nat {
    4 + (if m.signed then SIGNATURE_LENGTH else 0) + |m.message.data| + TAG_LENGTH
  }

  function DownFrame(keys: Keys, key: Word, nonce: u64, m: PoolMessage): (f: seq<Octet>)
    ensures |f| == FrameSize(m)
  {
    WriteFrame(DownHeader(m), key, DownSignature(keys, nonce, m), DownBody(keys, nonce, m))
  }

  predicate FitsDown(m: PoolMessage) {
    |m.message.data| + TAG_LENGTH < LENGTH_LIMIT && Fits(m.message.command)
  }

  /** Outbound session frames count the *plaintext* in `cmd_len` and always carry a signature. */
  function UpHeader(m: Message): Word {
    Pack(SessionHeader(m.command, |m.data|))
  }

  function UpBody(keys: Keys, nonce: u64, m: Message): seq<Octet> {
    Seal(keys.up, CreateNonce(nonce), m.data)
  }

  function UpFrame(keys: Keys, key: Word, nonce: u64, m: Message): (f: seq<Octet>)
    ensures |f| >= 4
  {
    var body := UpBody(keys, nonce, m);
    WriteFrame(UpHeader(m), key, Sign(keys.client, Clears(UpHeader(m)) + body), body)
  }

  predicate FitsUp(m: Message) {
    |m.data| < LENGTH_LIMIT && Fits(m.command)
  }

  // ----- reading what was written

  /** A reader holding the writer's key recovers the three parts of a frame and leaves the rest alone. */
  lemma ReadsBack(suite: Suite, header: Word, key: Word, signature: seq<Octet>, body: seq<Octet>, extra: nat,
                  inbound: seq<Octet>)
    requires |signature| == SignatureSize(header)
    requires Unpack(header).cmdLen + extra <= |body|
    requires WriteFrame(header, key, signature, body) <= inbound
    ensures var end := 4 + |signature| + Unpack(header).cmdLen + extra;
            ReadFrame(suite, key, inbound, extra)
            == Complete(Xor(header, key), header, signature, body[..Unpack(header).cmdLen + extra], inbound[end..])
  {
    hide Unpack;
    var wire := Xor(header, key);
    var frame := WriteFrame(header, key, signature, body);
    assert inbound[..|frame|] == frame;
    assert inbound[..4] == Clears(wire);
    ValuesOfClears(suite, wire);
    XorCancels(header, key);
    var bodyAt := 4 + |signature|;
    assert inbound[4..bodyAt] == signature;
    var end := bodyAt + Unpack(header).cmdLen + extra;
    assert inbound[bodyAt..end] == body[..Unpack(header).cmdLen + extra];
  }

  /** A stream that breaks off inside a frame is never read as a frame. */
  lemma CutFrameIsIncomplete(suite: Suite, header: Word, key: Word, signature: seq<Octet>, body: seq<Octet>,
                             extra: nat, inbound: seq<Octet>)
    requires |signature| == SignatureSize(header)
    requires Unpack(header).cmdLen + extra == |body|
    requires inbound < WriteFrame(header, key, signature, body)
    ensures !ReadFrame(suite, key, inbound, extra).Complete?
  {
    if |inbound| >= 4 {
      var wire := Xor(header, key);
      assert inbound[..4] == WriteFrame(header, key, signature, body)[..4] == Clears(wire);
      ValuesOfClears(suite, wire);
      XorCancels(header, key);
    }
  }

  /** What the reader sees in the header of a pool frame. */
  lemma DownHeaderFields(m: PoolMessage)
    ensures Unpack(DownHeader(m)).cmdLen == (|m.message.data| + TAG_LENGTH) % LENGTH_LIMIT
    ensures Unpack(DownHeader(m)).isSigned == m.signed
    ensures Unpack(DownHeader(m)).protoCmd == Code(m.message.command) % 32
    ensures FromCode(Code(m.message.command) % 32)
         == if Fits(m.message.command) then Some(m.message.command) else None
  {
    var h := DatumMessageHeader((|m.message.data| + TAG_LENGTH) % TWO_TO_THE_32, m.reserved,
                                m.signed, m.pubkeyFlag, m.channelFlag, Code(m.message.command));
    UnpackPack(h);
    CommandSurvives(m.message.command, h);
    LowBitsOfU32(|m.message.data| + TAG_LENGTH);
  }

  lemma UpHeaderFields(m: Message)
    ensures Unpack(UpHeader(m)).cmdLen == |m.data| % LENGTH_LIMIT
    ensures Unpack(UpHeader(m)).isSigned && Unpack(UpHeader(m)).isEncryptedChannel
    ensures !Unpack(UpHeader(m)).isEncryptedPubkey && Unpack(UpHeader(m)).reserved == 0
    ensures Unpack(UpHeader(m)).protoCmd == Code(m.command) % 32
    ensures FromCode(Code(m.command) % 32) == (if Fits(m.command) then Some(m.command) else None)
  {
    hide Pack, Unpack;
    UnpackPack(SessionHeader(m.command, |m.data|));
    CommandSurvives(m.command, SessionHeader(m.command, |m.data|));
    LowBitsOfU32(|m.data|);
  }

  lemma LowBitsOfU32(n: nat)
    ensures n % TWO_TO_THE_32 % LENGTH_LIMIT == n % LENGTH_LIMIT
  {
    var q, r := n / TWO_TO_THE_32, n % TWO_TO_THE_32;
    DivisionIsUnique(n, LENGTH_LIMIT, 1024 * q + r / LENGTH_LIMIT, r % LENGTH_LIMIT);
  }

  // ----- one frame from the pool

  /** The client after it has read a pool frame, whatever its verdict on it. */
  function AfterDown(c: ClientState, m: PoolMessage, rest: seq<Octet>): ClientState
    requires c.stream.Some?
  {
    SetInbound(c, rest).(headerKey := Xor(DownHeader(m), c.headerKey), recvNonce := Next(c.recvNonce))
  }

  /** A frame within the limits is delivered, consumed exactly, and moves key and nonce one step. */
  lemma DownFrameIsDelivered(suite: Suite, keys: Keys, c: ClientState, m: PoolMessage, rest: seq<Octet>)
    requires Ready(suite, keys, c) && FitsDown(m)
    requires c.stream.value.inbound == DownFrame(keys, c.headerKey, c.recvNonce, m) + rest
    ensures Receive(suite, c) == (AfterDown(c, m, rest), Ok(m.message))
  {
    hide Pack, Unpack, Xor;
    var signature, body := DownSignature(keys, c.recvNonce, m), DownBody(keys, c.recvNonce, m);
    DownHeaderFields(m);
    ReadsBack(suite, DownHeader(m), c.headerKey, signature, body, 0, c.stream.value.inbound);
    assert body[..|body|] == body;
    VerifiesIffSame(keys.pool, Clears(DownHeader(m)) + body, keys.pool, Clears(DownHeader(m)) + body);
    OpensIffSealed(keys.down, CreateNonce(c.recvNonce), body, m.message.data);
  }

  /** Outside the limits it never is: the exact condition for delivery from the pool. */
  lemma DownDeliveredIffFits(suite: Suite, keys: Keys, c: ClientState, m: PoolMessage, rest: seq<Octet>)
    requires Ready(suite, keys, c)
    requires c.stream.value.inbound == DownFrame(keys, c.headerKey, c.recvNonce, m) + rest
    ensures Receive(suite, c).1 == Ok(m.message) <==> FitsDown(m)
    ensures !FitsDown(m) ==> Receive(suite, c).1.Err?
  {
    hide Pack, Unpack, Xor;
    if FitsDown(m) {
      DownFrameIsDelivered(suite, keys, c, m, rest);
    } else {
      var signature, body := DownSignature(keys, c.recvNonce, m), DownBody(keys, c.recvNonce, m);
      DownHeaderFields(m);
      ReadsBack(suite, DownHeader(m), c.headerKey, signature, body, 0, c.stream.value.inbound);
      var n := Unpack(DownHeader(m)).cmdLen;
      if |body| >= LENGTH_LIMIT {
        OpenTruncated(keys.down, CreateNonce(c.recvNonce), m.message.data, n);
        assert |Clears(DownHeader(m)) + body[..n]| != |Clears(DownHeader(m)) + body|;
        VerifiesIffSame(keys.pool, Clears(DownHeader(m)) + body[..n], keys.pool, Clears(DownHeader(m)) + body);
      }
    }
  }

  /**
    * A genuine frame under any header that fits it: the five-bit code alone decides. It is delivered as the command
    * that has this code, and if no command has it the frame is consumed, counted and reported as unknown, which
    * stops a receive loop.
    */
  lemma CodeDecides(suite: Suite, keys: Keys, c: ClientState, h: DatumMessageHeader, data: seq<byte>,
                    rest: seq<Octet>)
    requires Ready(suite, keys, c) && h.cmdLen == |data| + TAG_LENGTH < LENGTH_LIMIT
    requires var body := Seal(keys.down, CreateNonce(c.recvNonce), data);
             var signature := if h.isSigned then Sign(keys.pool, Clears(Pack(h)) + body) else [];
             c.stream.value.inbound == WriteFrame(Pack(h), c.headerKey, signature, body) + rest
    ensures var (after, r) := Receive(suite, c);
            var code := h.protoCmd % 32;
            && after == SetInbound(c, rest).(headerKey := Xor(Pack(h), c.headerKey), recvNonce := Next(c.recvNonce))
            && (forall command :: r == Ok(Message(command, data)) <==> Code(command) == code)
            && (r == Err(UnknownCommand(code)) <==> forall command :: Code(command) != code)
            && ((forall command :: Code(command) != code) ==>
                  ReceiveLoop(suite, c) == (after, [], UnknownCommand(code)))
  {
    CommandTable();
    UnpackPack(h);
    hide Pack, Unpack, Xor, Sign, Seal, CreateNonce, Code, FromCode;
    var body := Seal(keys.down, CreateNonce(c.recvNonce), data);
    var signature := if h.isSigned then Sign(keys.pool, Clears(Pack(h)) + body) else [];
    ReadsBack(suite, Pack(h), c.headerKey, signature, body, 0, c.stream.value.inbound);
    assert body[..|body|] == body;
    OpensIffSealed(keys.down, CreateNonce(c.recvNonce), body, data);
    assert c.stream.value.inbound[|WriteFrame(Pack(h), c.headerKey, signature, body)|..] == rest;
    var found := FromCode(h.protoCmd % 32);
    if found.Some? {
      assert Code(found.value) == h.protoCmd % 32;
    }
  }

  // ----- integrity

  predicate At(whole: seq<Octet>, part: seq<Octet>, i: nat) {
    i + |part| <= |whole| && whole[i..i + |part|] == part
  }

  ghost predicate Contains(whole: seq<Octet>, part: seq<Octet>) {
    exists i: nat :: At(whole, part, i)
  }

  lemma ContainedInSuffix(whole: seq<Octet>, suffix: seq<Octet>, part: seq<Octet>)
    requires |suffix| <= |whole| && suffix == whole[|whole| - |suffix|..] && Contains(suffix, part)
    ensures Contains(whole, part)
  {
    var i: nat :| At(suffix, part, i);
    var k := |whole| - |suffix|;
    assert whole[k + i..k + i + |part|] == suffix[i..i + |part|];
    assert At(whole, part, k + i);
  }

  /** Whatever is in the stream, data that is delivered was sealed under the pool's key and the current nonce. */
  lemma DeliveredWasSealed(suite: Suite, keys: Keys, c: ClientState)
    requires Ready(suite, keys, c)
    ensures var r := Receive(suite, c).1;
            r.Ok? ==> Contains(c.stream.value.inbound, Seal(keys.down, CreateNonce(c.recvNonce), r.value.data))
  {
    hide Unpack, Xor, Seal, CreateNonce;
    var inbound := c.stream.value.inbound;
    match ReadFrame(suite, c.headerKey, inbound, 0)
    case NoHeader =>
    case Short(_) =>
    case Complete(_, header, signature, body, rest) =>
      var bodyAt := 4 + SignatureSize(header);
      assert At(inbound, body, bodyAt);
      var data := Open(keys.down, CreateNonce(c.recvNonce), body);
      if data.Some? {
        OpensIffSealed(keys.down, CreateNonce(c.recvNonce), body, data.value);
      }
  }

  lemma ReadyHasStream(suite: Suite, keys: Keys, c: ClientState)
    requires Ready(suite, keys, c)
    ensures c.stream.Some?
  {
  }

  lemma EmptyStreamEnds(suite: Suite, c: ClientState)
    requires c.stream.Some? && c.stream.value.inbound == []
    ensures Receive(suite, c) == (c, Err(ReadEnded))
  {
  }

  /** A pool frame that breaks off ends the stream. */
  lemma CutDownFrame(suite: Suite, keys: Keys, c: ClientState, m: PoolMessage)
    requires Ready(suite, keys, c) && FitsDown(m)
    requires c.stream.value.inbound < DownFrame(keys, c.headerKey, c.recvNonce, m)
    ensures Receive(suite, c).1 == Err(ReadEnded) && Receive(suite, c).0.stream.value.inbound == []
  {
    hide Pack, Unpack, Xor;
    DownHeaderFields(m);
    CutFrameIsIncomplete(suite, DownHeader(m), c.headerKey, DownSignature(keys, c.recvNonce, m),
                         DownBody(keys, c.recvNonce, m), 0, c.stream.value.inbound);
  }

  // ----- one frame from the client

  /** A client within the AEAD limit writes exactly one outbound frame. */
  lemma SendWritesUpFrame(suite: Suite, keys: Keys, c: ClientState, m: Message)
    requires Ready(suite, keys, c) && |m.data| <= PLAINTEXT_LIMIT
    ensures Send(suite, c, m.command, m.data, 3)
         == (Emit(c, UpFrame(keys, c.headerKey, c.sendNonce, m))
               .(headerKey := UpHeader(m), sendNonce := Next(c.sendNonce)), Ok(()))
  {
    var chunks := SessionChunks(suite, c, m.command, m.data);
    var body := UpBody(keys, c.sendNonce, m);
    assert chunks == [Clears(Xor(UpHeader(m), c.headerKey)), Sign(keys.client, Clears(UpHeader(m)) + body), body];
    assert chunks[1..][1..] == [body];
    assert Written([body], 1) == body;
    assert Written(chunks[1..], 2) == chunks[1] + body;
    assert Written(chunks, 3) == UpFrame(keys, c.headerKey, c.sendNonce, m);
  }

  /**
    * A send on an established session, however many writes the connection accepts: key and counter move, what is
    * written is an initial part of the frame, and the result is `Ok` exactly if that is the whole frame.
    */
  lemma SendSucceedsIff(suite: Suite, keys: Keys, c: ClientState, m: Message, writes: nat)
    requires Ready(suite, keys, c)
    ensures var (after, r) := Send(suite, c, m.command, m.data, writes);
            var frame := UpFrame(keys, c.headerKey, c.sendNonce, m);
            && |frame| == 84 + |m.data|
            && after.stream.Some? && c.stream.value.outbound <= after.stream.value.outbound
            && var added := after.stream.value.outbound[|c.stream.value.outbound|..];
            && after == Emit(c, added).(headerKey := UpHeader(m), sendNonce := Next(c.sendNonce))
            && added <= frame
            && (r == Ok(()) <==> added == frame)
            && (r == Err(EncryptionFailed) <==> |m.data| > 274877906880)
            && (r.Err? && |m.data| <= 274877906880 ==> r == Err(WriteFailed))
            && |added| == (if writes == 0 || |m.data| > 274877906880 then 0
                           else if writes == 1 then 4 else if writes == 2 then 68 else 84 + |m.data|)
  {
    hide Pack, Xor, Sign, Seal;
    var outbound := c.stream.value.outbound;
    var chunks := SessionChunks(suite, c, m.command, m.data);
    var body := UpBody(keys, c.sendNonce, m);
    var masked, signature := Clears(Xor(UpHeader(m), c.headerKey)), Sign(keys.client, Clears(UpHeader(m)) + body);
    assert chunks == [masked, signature, body];
    ThreeWrites(masked, signature, body, writes);
    var octets := if |m.data| > PLAINTEXT_LIMIT then [] else Written(chunks, writes);
    assert (outbound + octets)[|outbound|..] == octets;
    assert outbound + [] == outbound;
  }

  /** The wire after each number of completed writes. */
  lemma ThreeWrites(a: seq<Octet>, b: seq<Octet>, c: seq<Octet>, writes: nat)
    ensures Written([a, b, c], writes)
         == if writes == 0 then [] else if writes == 1 then a else if writes == 2 then a + b else a + b + c
  {
    assert [a, b, c][1..] == [b, c] && [b, c][1..] == [c] && [c][1..] == [];
    if writes >= 3 {
      assert Written([c], writes - 2) == c + Written([], writes - 3) == c;
      assert Written([b, c], writes - 1) == b + c;
      assert a + (b + c) == a + b + c;
    } else if writes == 2 {
      assert Written([b, c], 1) == b + Written([c], 0) == b;
    }
  }

  /** The pool's end of the session: a mirror of the client's key feedback, and its own counters. */
  datatype MirrorPool = MirrorPool(headerKey: Word, sendNonce: u64, recvNonce: u64)

  /** The mirror: a pool that receives a masked header adopts the plaintext header as its key. */
  function PoolReceive(suite: Suite, keys: Keys, p: MirrorPool, octets: seq<Octet>)
    : (MirrorPool, Result<Message>, seq<Octet>)
  {
    match ReadFrame(suite, p.headerKey, octets, TAG_LENGTH)
    case NoHeader => (p, Err(ReadEnded), octets)
    case Short(_) => (p, Err(ReadEnded), octets)
    case Complete(_, header, signature, body, rest) =>
      var q := p.(headerKey := header);
      if !Verifies(keys.client, Clears(header) + body, signature) then (q, Err(BadSignature), rest) else
        var counted := q.(recvNonce := Next(p.recvNonce));
        match Open(keys.up, CreateNonce(p.recvNonce), body)
        case None => (counted, Err(DecryptionFailed), rest)
        case Some(data) =>
          match FromCode(Unpack(header).protoCmd)
          case None => (counted, Err(UnknownCommand(Unpack(header).protoCmd)), rest)
          case Some(command) => (counted, Ok(Message(command, data)), rest)
  }

  /** The mirror: a pool that sends adopts the wire word as its key. */
  function PoolSend(keys: Keys, p: MirrorPool, m: PoolMessage): (MirrorPool, seq<Octet>) {
    (p.(headerKey := Xor(DownHeader(m), p.headerKey), sendNonce := Next(p.sendNonce)),
     DownFrame(keys, p.headerKey, p.sendNonce, m))
  }

  lemma UpFrameIsDelivered(suite: Suite, keys: Keys, p: MirrorPool, m: Message, rest: seq<Octet>)
    requires FitsUp(m)
    ensures PoolReceive(suite, keys, p, UpFrame(keys, p.headerKey, p.recvNonce, m) + rest)
         == (p.(headerKey := UpHeader(m), recvNonce := Next(p.recvNonce)), Ok(m), rest)
  {
    hide Pack, Unpack, Xor;
    var body := UpBody(keys, p.recvNonce, m);
    UpHeaderFields(m);
    var octets := UpFrame(keys, p.headerKey, p.recvNonce, m) + rest;
    ReadsBack(suite, UpHeader(m), p.headerKey, Sign(keys.client, Clears(UpHeader(m)) + body), body, TAG_LENGTH, octets);
    assert body[..|body|] == body;
    OpensIffSealed(keys.up, CreateNonce(p.recvNonce), body, m.data);
  }

  /** The exact condition for delivery to the pool: the length and the command fit the header. */
  lemma UpDeliveredIffFits(suite: Suite, keys: Keys, p: MirrorPool, m: Message, rest: seq<Octet>)
    ensures PoolReceive(suite, keys, p, UpFrame(keys, p.headerKey, p.recvNonce, m) + rest).1 == Ok(m) <==> FitsUp(m)
    ensures !FitsUp(m) ==> PoolReceive(suite, keys, p, UpFrame(keys, p.headerKey, p.recvNonce, m) + rest).1.Err?
  {
    hide Pack, Unpack, Xor;
    if FitsUp(m) {
      UpFrameIsDelivered(suite, keys, p, m, rest);
    } else {
      var body := UpBody(keys, p.recvNonce, m);
      var signed := Clears(UpHeader(m)) + body;
      UpHeaderFields(m);
      var octets := UpFrame(keys, p.headerKey, p.recvNonce, m) + rest;
      ReadsBack(suite, UpHeader(m), p.headerKey, Sign(keys.client, signed), body, TAG_LENGTH, octets);
      var n := Unpack(UpHeader(m)).cmdLen + TAG_LENGTH;
      if |m.data| >= LENGTH_LIMIT {
        assert |Clears(UpHeader(m)) + body[..n]| != |signed|;
        VerifiesIffSame(keys.client, Clears(UpHeader(m)) + body[..n], keys.client, signed);
      }
    }
  }

  /**
    * The two directions use different grammars: a client handed its own outbound frame, with every key,
    * nonce and signer its own, still rejects it, because it takes `cmd_len` for the ciphertext length.
    */
  lemma OutboundFrameIsNotInbound(suite: Suite, keys: Keys, c: ClientState, m: Message, rest: seq<Octet>)
    requires Ready(suite, keys, c) && keys.client == keys.pool && keys.up == keys.down
    requires c.stream.value.inbound == UpFrame(keys, c.headerKey, c.recvNonce, m) + rest
    ensures Receive(suite, c).1 == Err(BadSignature)
  {
    hide Pack, Unpack, Xor;
    var body := UpBody(keys, c.recvNonce, m);
    var signed := Clears(UpHeader(m)) + body;
    UpHeaderFields(m);
    ReadsBack(suite, UpHeader(m), c.headerKey, Sign(keys.client, signed), body, 0, c.stream.value.inbound);
    var n := Unpack(UpHeader(m)).cmdLen;
    assert |Clears(UpHeader(m)) + body[..n]| != |signed|;
    VerifiesIffSame(keys.pool, Clears(UpHeader(m)) + body[..n], keys.client, signed);
  }

  // ----- streams of frames

  function DownFrames(keys: Keys, key: Word, nonce: u64, ms: seq<PoolMessage>): seq<Octet>
    decreases |ms|
  {
    if ms == [] then []
    else DownFrame(keys, key, nonce, ms[0]) + DownFrames(keys, Xor(DownHeader(ms[0]), key), Next(nonce), ms[1..])
  }

  function DownKey(key: Word, ms: seq<PoolMessage>): Word
    decreases |ms|
  {
    if ms == [] then key else DownKey(Xor(DownHeader(ms[0]), key), ms[1..])
  }

  /** The counter after `n` increments. */
  function Advance(nonce: u64, n: nat): u64 {
    (nonce + n) % TWO_TO_THE_64
  }

  lemma ModThenAdd(x: nat, n: nat, m: nat)
    requires m > 0
    ensures (x % m + n) % m == (x + n) % m
  {
    var y := x % m + n;
    assert x == m * (x / m) + x % m && y == m * (y / m) + y % m;
    assert m * (x / m + y / m) == m * (x / m) + m * (y / m);
    DivisionIsUnique(x + n, m, x / m + y / m, y % m);
  }

  lemma AdvanceNext(nonce: u64, n: nat)
    ensures Advance(Next(nonce), n) == Next(Advance(nonce, n)) == Advance(nonce, n + 1)
    ensures Advance(nonce, 0) == nonce
  {
    ModThenAdd(nonce + 1, n, TWO_TO_THE_64);
    ModThenAdd(nonce + n, 1, TWO_TO_THE_64);
  }

  function Plain(ms: seq<PoolMessage>): (s: seq<Message>)
    ensures |s| == |ms|
  {
    seq(|ms|, i requires 0 <= i < |ms| => ms[i].message)
  }

  /** How many whole frames the first `n` octets of the stream hold. */
  function WholeFrames(ms: seq<PoolMessage>, n: nat): (k: nat)
    ensures k <= |ms|
  {
    if ms == [] then 0 else
      if n < FrameSize(ms[0]) then 0 else 1 + WholeFrames(ms[1..], n - FrameSize(ms[0]))
  }

  /** The receive loop of the server: receive until something fails. */
  function ReceiveLoop(suite: Suite, c: ClientState): (r: (ClientState, seq<Message>, Error))
    ensures c.stream.Some? ==> r.0.stream.Some?
    decreases if c.stream.Some? then |c.stream.value.inbound| else 0
  {
    var (after, r) := Receive(suite, c);
    match r
    case Err(e) => (after, [], e)
    case Ok(m) =>
      var (last, ms, e) := ReceiveLoop(suite, after);
      (last, [m] + ms, e)
  }

  /**
    * Stream framing. However the stream of frames is cut off, the receive loop delivers the messages of the
    * whole frames, in order, and then reports the end of the stream; it never delivers a wrong message.
    */
  lemma {:induction false} CutStreamIsDelivered(suite: Suite, keys: Keys, c: ClientState, ms: seq<PoolMessage>, n: nat)
    requires Ready(suite, keys, c)
    requires forall m <- ms :: FitsDown(m)
    requires n <= |DownFrames(keys, c.headerKey, c.recvNonce, ms)|
    requires c.stream.value.inbound == DownFrames(keys, c.headerKey, c.recvNonce, ms)[..n]
    ensures ReceiveLoop(suite, c).1 == Plain(ms)[..WholeFrames(ms, n)]
    ensures ReceiveLoop(suite, c).2 == ReadEnded
    ensures ReceiveLoop(suite, c).0.stream.value.inbound == []
    decreases |ms|
  {
    hide Pack, Unpack, Xor, Receive, DownFrame, FrameSize;
    if ms == [] {
      EmptyStreamEnds(suite, c);
    } else {
      var m := ms[0];
      assert FitsDown(m);
      var frame := DownFrame(keys, c.headerKey, c.recvNonce, m);
      var more := DownFrames(keys, Xor(DownHeader(m), c.headerKey), Next(c.recvNonce), ms[1..]);
      if n < |frame| {
        assert (frame + more)[..n] == frame[..n];
        CutDownFrame(suite, keys, c, m);
      } else {
        var rest := more[..n - |frame|];
        assert (frame + more)[..n] == frame + rest;
        DownFrameIsDelivered(suite, keys, c, m, rest);
        CutStreamIsDelivered(suite, keys, AfterDown(c, m, rest), ms[1..], n - |frame|);
        var k := WholeFrames(ms[1..], n - |frame|);
        assert Plain(ms)[..k + 1] == [m.message] + Plain(ms[1..])[..k];
      }
    }
  }

  /** The whole stream: every message is delivered, every octet consumed, key and nonce move with the pool's. */
  lemma {:induction false} WholeStreamIsDelivered(suite: Suite, keys: Keys, c: ClientState, ms: seq<PoolMessage>)
    requires Ready(suite, keys, c)
    requires forall m <- ms :: FitsDown(m)
    requires c.stream.value.inbound == DownFrames(keys, c.headerKey, c.recvNonce, ms)
    ensures ReceiveLoop(suite, c)
         == (SetInbound(c, []).(headerKey := DownKey(c.headerKey, ms), recvNonce := Advance(c.recvNonce, |ms|)),
             Plain(ms), ReadEnded)
    decreases |ms|
  {
    hide Pack, Unpack, Xor, Receive, DownFrame, FrameSize;
    if ms == [] {
      EmptyStreamEnds(suite, c);
      AdvanceNext(c.recvNonce, 0);
    } else {
      var m := ms[0];
      var more := DownFrames(keys, Xor(DownHeader(m), c.headerKey), Next(c.recvNonce), ms[1..]);
      DownFrameIsDelivered(suite, keys, c, m, more);
      WholeStreamIsDelivered(suite, keys, AfterDown(c, m, more), ms[1..]);
      AdvanceNext(c.recvNonce, |ms| - 1);
      assert Plain(ms) == [m.message] + Plain(ms[1..]);
    }
  }
}
