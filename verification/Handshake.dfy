/** The handshake: its layout, when it is accepted, and what holds of a client ever after. */
module Handshake {
  import opened Bytes
  import opened HeaderCodec
  import opened Crypto
  import opened Session
  import opened Framing
  import opened Lockstep

  // ----- the hello, as a pool reads it

  datatype HelloFields = HelloFields(
    keys: seq<Key>, version: seq<byte>, headerKey: Word, padding: seq<byte>, body: seq<Octet>, signature: seq<Octet>)

  /** A pool-side parser: four keys, a NUL-terminated version, the header key, padding, 64 signature octets. */
  function ParseHello(suite: Suite, octets: seq<Octet>): Option<HelloFields> {
    if |octets| < 128 + SIGNATURE_LENGTH then None else
      var body := octets[..|octets| - SIGNATURE_LENGTH];
      var bytes := Values(suite, body);
      var version := UntilNul(bytes[128..]);
      var keyAt := 128 + |version| + 1;
      if |bytes| < keyAt + 4 then None else
        Some(HelloFields([bytes[..32], bytes[32..64], bytes[64..96], bytes[96..128]],
                         version, bytes[keyAt..keyAt + 4], bytes[keyAt + 4..],
                         body, octets[|octets| - SIGNATURE_LENGTH..]))
  }

  lemma {:induction false} UntilNulStops(t: seq<byte>, rest: seq<byte>)
    requires 0 !in t
    ensures UntilNul(t + [0] + rest) == t
  {
    if t == [] {
    } else {
      assert (t + [0] + rest)[1..] == t[1..] + [0] + rest;
      UntilNulStops(t[1..], rest);
    }
  }

  lemma HelloBodyParts(keys: seq<Key>, headerKey: Word, padding: Padding)
    requires |keys| == 4
    ensures var b := HelloBody(keys, headerKey, padding);
            && |b| == 144 + |padding|
            && b[..32] == keys[0] && b[32..64] == keys[1] && b[64..96] == keys[2] && b[96..128] == keys[3]
            && b[128..] == Ascii(VERSION) + [0] + (headerKey + padding)
            && b[140..144] == headerKey && b[144..] == padding
  {
    assert |Ascii(VERSION)| == 11;
  }

  /** "v0.4.1-beta", as bytes. */
  const VERSION_BYTES: seq<byte> := [118, 48, 46, 52, 46, 49, 45, 98, 101, 116, 97]

  /** From any hello a pool recovers every field, and the signature verifies under the first key. */
  lemma HelloIsRecovered(suite: Suite, keys: seq<Key>, headerKey: Word, padding: Padding)
    requires |keys| == 4
    ensures var hello := Hello(keys, headerKey, padding);
            var body := Clears(HelloBody(keys, headerKey, padding));
            && ParseHello(suite, hello)
               == Some(HelloFields(keys, VERSION_BYTES, headerKey, padding, body, Sign(keys[0], body)))
            && Verifies(keys[0], body, Sign(keys[0], body))
  {
    var bytes := HelloBody(keys, headerKey, padding);
    var body := Clears(bytes);
    var hello := Hello(keys, headerKey, padding);
    HelloBodyParts(keys, headerKey, padding);
    assert Ascii(VERSION) == VERSION_BYTES;
    ValuesOfClears(suite, bytes);
    UntilNulStops(Ascii(VERSION), headerKey + padding);
    assert hello[..|hello| - SIGNATURE_LENGTH] == body;
    assert hello[|hello| - SIGNATURE_LENGTH..] == Sign(keys[0], body);
    assert [bytes[..32], bytes[32..64], bytes[64..96], bytes[96..128]] == keys;
  }

  // ----- the response, as the client reads it

  /** The documented shape: four echoes, two pool keys, a NUL-terminated message, and whatever follows it. */
  function ResponseBytes(echoes: seq<Key>, poolEd25519: Key, poolX25519: Key, motd: seq<byte>, tail: seq<byte>)
    : seq<byte>
    requires |echoes| == 4
  {
    var first: seq<byte> := echoes[0];
    first + echoes[1] + echoes[2] + echoes[3] + poolEd25519 + poolX25519 + (motd + [0] + tail)
  }

  lemma ResponseParts(echoes: seq<Key>, poolEd25519: Key, poolX25519: Key, motd: seq<byte>, tail: seq<byte>)
    requires |echoes| == 4
    ensures var d := ResponseBytes(echoes, poolEd25519, poolX25519, motd, tail);
            && |d| >= 193
            && d[..32] == echoes[0] && d[32..64] == echoes[1] && d[64..96] == echoes[2] && d[96..128] == echoes[3]
            && d[128..160] == poolEd25519 && d[160..192] == poolX25519 && d[192..] == motd + [0] + tail
  {
  }

  /** A response is accepted exactly when it echoes the four keys and names a valid verifying key. */
  lemma ResponseAcceptedIff(suite: Suite, keys: seq<Key>, echoes: seq<Key>, poolEd25519: Key, poolX25519: Key,
                            motd: seq<byte>, tail: seq<byte>)
    requires |keys| == 4 && |echoes| == 4 && 0 !in motd
    ensures var r := ReadResponse(suite, ResponseBytes(echoes, poolEd25519, poolX25519, motd, tail), keys);
            && (r.Ok? <==> echoes == keys && suite.isVerifyingKey(poolEd25519))
            && (r.Ok? ==> r.value == Response(poolEd25519, poolX25519, motd))
            && (forall i: nat :: r == Err(EchoMismatch(i)) ==>
                                 i < 4 && echoes[i] != keys[i] && echoes[..i] == keys[..i])
  {
    ResponseParts(echoes, poolEd25519, poolX25519, motd, tail);
    UntilNulStops(motd, tail);
    if echoes[0] == keys[0] && echoes[1] == keys[1] && echoes[2] == keys[2] && echoes[3] == keys[3] {
      assert echoes == keys;
    }
  }

  /** On every payload, of whatever length: accepted exactly on the four echoes in order and a valid key. */
  lemma ResponseDecides(suite: Suite, data: seq<byte>, keys: seq<Key>)
    requires |keys| == 4
    ensures var r := ReadResponse(suite, data, keys);
            && (r.Ok? <==> |data| >= 192 && Echoes(data, keys) && suite.isVerifyingKey(data[128..160]))
            && (r.Ok? ==> r.value.poolEd25519 == data[128..160] && r.value.poolX25519 == data[160..192]
                          && r.value.motd <= data[192..] && 0 !in r.value.motd
                          && (r.value.motd == data[192..] || data[192 + |r.value.motd|] == 0))
  {
    if |data| >= 192 {
      EchoesApart(data, keys);
    }
  }

  predicate Echoes(data: seq<byte>, keys: seq<Key>)
    requires |data| >= 128 && |keys| == 4
  {
    var first: seq<byte> := keys[0];
    data[..128] == first + keys[1] + keys[2] + keys[3]
  }

  lemma EchoesApart(data: seq<byte>, keys: seq<Key>)
    requires |data| >= 128 && |keys| == 4
    ensures Echoes(data, keys) <==> data[..32] == keys[0] && data[32..64] == keys[1]
                                    && data[64..96] == keys[2] && data[96..128] == keys[3]
  {
    var d := data[..128];
    assert d == d[..32] + d[32..64] + d[64..96] + d[96..128];
    assert d[..32] == data[..32] && d[32..64] == data[32..64];
    assert d[64..96] == data[64..96] && d[96..128] == data[96..128];
  }

  // ----- every run of one client object

  datatype ClientEvent =
    | Connects(attempt: Attempt)
    | SetsPoolKey(key: Key)
    | Sends(message: Message, writes: nat)
    | Receives(handler: Handler)
    | Requests(command: DatumCommand, data: seq<byte>, calls: nat, dispatcher: Handler)

  function After(suite: Suite, c: ClientState, e: ClientEvent): ClientState {
    match e
    case Connects(a) => Connect(suite, c, a).0
    case SetsPoolKey(key) => c.(poolPublicKey := Some(key))
    case Sends(m, writes) => Send(suite, c, m.command, m.data, writes).0
    case Receives(handler) => ReceiveAndDispatch(suite, c, handler).0
    case Requests(command, data, writes, handler) => Request(suite, c, command, data, writes, handler).0
  }

  function Live(suite: Suite, c: ClientState, es: seq<ClientEvent>): ClientState
    decreases |es|
  {
    if es == [] then c else Live(suite, After(suite, c, es[0]), es[1..])
  }

  /** Some connect of the run succeeded. */
  predicate ConnectSucceeded(suite: Suite, c: ClientState, es: seq<ClientEvent>)
    decreases |es|
  {
    es != [] &&
    ((es[0].Connects? && Connect(suite, c, es[0].attempt).1.Ok?) ||
     ConnectSucceeded(suite, After(suite, c, es[0]), es[1..]))
  }

  /** `connected` vouches for everything a protected send needs. */
  predicate Established(c: ClientState) {
    c.connected ==>
      c.stream.Some? && c.localKeys.Some? && c.sendCipher.Some? && c.recvCipher.Some? && c.poolVerify.Some?
  }

  lemma ConnectEffect(suite: Suite, c: ClientState, a: Attempt)
    requires Established(c)
    ensures Established(Connect(suite, c, a).0)
    ensures Connect(suite, c, a).0.connected <==> c.connected || Connect(suite, c, a).1.Ok?
  {
    hide Pack, Unpack, Xor, Hello, Written, ReadResponse;
  }

  /** Sending and receiving keep everything the invariant speaks of. */
  predicate SameStanding(c: ClientState, d: ClientState) {
    && c.connected == d.connected && c.stream.Some? == d.stream.Some? && c.localKeys == d.localKeys
    && c.sendCipher == d.sendCipher && c.recvCipher == d.recvCipher && c.poolVerify == d.poolVerify
  }

  lemma SendStanding(suite: Suite, c: ClientState, m: Message, writes: nat)
    ensures SameStanding(c, Send(suite, c, m.command, m.data, writes).0)
  {
  }

  lemma ReceiveStanding(suite: Suite, c: ClientState, handler: Handler)
    ensures SameStanding(c, ReceiveAndDispatch(suite, c, handler).0)
  {
    hide Unpack, Xor, PassesGate;
  }

  lemma OtherEventsEffect(suite: Suite, c: ClientState, e: ClientEvent)
    requires Established(c) && !e.Connects?
    ensures Established(After(suite, c, e)) && After(suite, c, e).connected == c.connected
  {
    match e
    case SetsPoolKey(_) =>
    case Sends(m, writes) => SendStanding(suite, c, m, writes);
    case Receives(handler) => ReceiveStanding(suite, c, handler);
    case Requests(command, data, writes, handler) =>
      SendStanding(suite, c, Message(command, data), writes);
      ReceiveStanding(suite, Send(suite, c, command, data, writes).0, handler);
  }

  /** Over every run: the invariant holds, and the client counts as connected exactly if a connect succeeded. */
  lemma {:induction false} EveryRunEstablished(suite: Suite, c: ClientState, es: seq<ClientEvent>)
    requires Established(c)
    ensures Established(Live(suite, c, es))
    ensures Live(suite, c, es).connected <==> c.connected || ConnectSucceeded(suite, c, es)
    decreases |es|
  {
    if es == [] {
    } else {
      var e := es[0];
      assert Established(After(suite, c, e))
          && (After(suite, c, e).connected <==> c.connected || (e.Connects? && Connect(suite, c, e.attempt).1.Ok?)) by {
        if e.Connects? {
          AfterConnect(suite, c, e);
          ConnectEffect(suite, c, e.attempt);
        } else {
          OtherEventsEffect(suite, c, e);
        }
      }
      EveryRunEstablished(suite, After(suite, c, e), es[1..]);
    }
  }

  lemma AfterConnect(suite: Suite, c: ClientState, e: ClientEvent)
    requires e.Connects?
    ensures After(suite, c, e) == Connect(suite, c, e.attempt).0
  {
  }

  /**
    * From a fresh client, until a connect succeeds a send changes nothing at all; after that, whatever a send
    * writes is an initial part of a header, a signature by the local key and an AEAD ciphertext.
    */
  lemma SendsAreProtected(suite: Suite, poolKey: Option<Key>, es: seq<ClientEvent>, m: Message, writes: nat)
    ensures var c := Live(suite, Fresh(poolKey), es);
            var (after, r) := Send(suite, c, m.command, m.data, writes);
            if !ConnectSucceeded(suite, Fresh(poolKey), es) then (after, r) == (c, Err(NotConnected))
            else
              && c.stream.Some? && c.sendCipher.Some? && c.localKeys.Some?
              && var body := Seal(c.sendCipher.value, CreateNonce(c.sendNonce), m.data);
              var signature := Sign(suite.ed25519Public(c.localKeys.value.ed25519Signing), Clears(UpHeader(m)) + body);
              after.stream.value.outbound
              == c.stream.value.outbound
                 + (if |m.data| > PLAINTEXT_LIMIT then []
                    else Written([Clears(Xor(UpHeader(m), c.headerKey)), signature, body], writes))
  {
    EveryRunEstablished(suite, Fresh(poolKey), es);
    var c := Live(suite, Fresh(poolKey), es);
    if c.connected {
      var chunks := SessionChunks(suite, c, m.command, m.data);
      var body := Seal(c.sendCipher.value, CreateNonce(c.sendNonce), m.data);
      var signature := Sign(suite.ed25519Public(c.localKeys.value.ed25519Signing), Clears(UpHeader(m)) + body);
      assert chunks == [Clears(Xor(UpHeader(m), c.headerKey)), signature, body];
      assert c.stream.value.outbound + [] == c.stream.value.outbound;
    }
  }

  /** A client that is not connected has no session material to judge an answer by. */
  predicate Bare(c: ClientState) {
    !c.connected ==> c.sendCipher.None? && c.recvCipher.None? && c.poolVerify.None?
  }

  lemma BareAfter(suite: Suite, c: ClientState, e: ClientEvent)
    requires Bare(c) && Established(c)
    ensures Bare(After(suite, c, e))
  {
    if e.Connects? {
      AfterConnect(suite, c, e);
      ConnectKeepsBare(suite, c, e.attempt);
    } else {
      match e
      case SetsPoolKey(_) =>
      case Sends(m, writes) => SendStanding(suite, c, m, writes);
      case Receives(handler) => ReceiveStanding(suite, c, handler);
      case Requests(command, data, writes, handler) =>
        SendStanding(suite, c, Message(command, data), writes);
        ReceiveStanding(suite, Send(suite, c, command, data, writes).0, handler);
    }
  }

  lemma ConnectKeepsBare(suite: Suite, c: ClientState, a: Attempt)
    requires Bare(c)
    ensures Bare(Connect(suite, c, a).0)
  {
    hide Pack, Unpack, Xor, Hello, Written, ReadResponse;
  }

  /** Failed connects, refused sends and stray receives leave a client as bare as it was. */
  lemma {:induction false} LiveBare(suite: Suite, c: ClientState, es: seq<ClientEvent>)
    requires Bare(c) && Established(c)
    ensures Bare(Live(suite, c, es)) && Established(Live(suite, c, es))
    decreases |es|
  {
    if es == [] {
    } else {
      BareAfter(suite, c, es[0]);
      EveryRunEstablished(suite, c, [es[0]]);
      assert Live(suite, c, [es[0]]) == After(suite, c, es[0]);
      LiveBare(suite, After(suite, c, es[0]), es[1..]);
    }
  }

  /**
    * A connected object that is connected again judges the new response by the old session: no response in
    * clear octets is accepted, and the object goes on reporting itself connected.
    */
  lemma SecondConnectFails(suite: Suite, c: ClientState, a: Attempt)
    requires Established(c) && c.connected && a.reachable
    requires forall o <- a.inbound :: o.Clear?
    ensures Connect(suite, c, a).1.Err? && Connect(suite, c, a).0.connected
  {
    var started := c.(stream := Some(Socket(a.inbound, [])), localKeys := Some(a.local));
    var (greeted, sent) := SendHello(suite, started, a);
    if sent.Ok? {
      assert greeted.stream.value.inbound == a.inbound;
      assert greeted.recvCipher == c.recvCipher;
      match ReadFrame(suite, greeted.headerKey, a.inbound, 0)
      case NoHeader =>
      case Short(_) =>
      case Complete(_, _, _, body, _) =>
        if body != [] {
          assert body[0] in a.inbound;
        }
        assert Open(c.recvCipher.value, CreateNonce(greeted.recvNonce), body) == None;
    }
  }

  // ----- the handshake hands over to the session

  /**
    * The keys the two ends hold after a handshake, as the pool works them out from the hello: the first announced
    * key checks the client's signatures, the fourth enters the key agreement.
    */
  function SessionKeys(suite: Suite, a: Attempt, poolEd25519: Key, poolSecret: Key): Keys {
    var announced := Announced(suite, a.local, a.session);
    var secret := suite.diffieHellman(poolSecret, announced[3]);
    Keys(announced[0], poolEd25519,
         DeriveKey(suite, secret, "send"), DeriveKey(suite, secret, "recv"))
  }

  /** The header word of the hello, which the mirror pool holds as its key once it has read it. */
  function HelloWord(suite: Suite, poolKey: Option<Key>, a: Attempt): Word {
    Pack(HelloHeader(Fresh(poolKey), |HelloOnWire(suite, poolKey, a)|))
  }

  /** What the hello is sealed into. */
  function HelloOnWire(suite: Suite, poolKey: Option<Key>, a: Attempt): seq<Octet> {
    HelloPayload(Fresh(poolKey), Hello(Announced(suite, a.local, a.session), a.headerKey, a.padding), a.ephemeral)
  }

  function HelloOctets(suite: Suite, poolKey: Option<Key>, a: Attempt): seq<Octet> {
    WriteFrame(HelloWord(suite, poolKey, a), a.headerKey, [], HelloOnWire(suite, poolKey, a))
  }

  /** The client once the pool has taken the hello off the wire. */
  function HelloTaken(c: ClientState): ClientState
    requires c.stream.Some?
  {
    c.(stream := Some(c.stream.value.(outbound := [])))
  }

  /** The hello's header: flagged as signed, its length that of the payload, its command the handshake. */
  lemma HelloHeaderFields(suite: Suite, poolKey: Option<Key>, a: Attempt)
    ensures Unpack(HelloWord(suite, poolKey, a))
         == DatumMessageHeader(|HelloOnWire(suite, poolKey, a)|, 0, true, poolKey.Some?, false,
                               Code(DatumCommand.Handshake))
  {
    hide Pack, Unpack, Hello;
    HelloIsShort(suite, poolKey, a);
    UnpackPack(HelloHeader(Fresh(poolKey), |HelloOnWire(suite, poolKey, a)|));
  }

  /** A client that has opened its socket for an attempt and not yet sent anything. */
  function Begun(c: ClientState, a: Attempt): ClientState {
    c.(stream := Some(Socket(a.inbound, [])), localKeys := Some(a.local))
  }

  /**
    * The hello's frame, from any client: masked with the very key it announces, and with no signature block although
    * its header is flagged as signed; the key fed back is that header.
    */
  lemma HelloFrame(suite: Suite, c: ClientState, a: Attempt)
    requires a.writes >= 3
    ensures var frame := HelloOctets(suite, c.poolPublicKey, a);
            SendHello(suite, Begun(c, a), a)
            == (Begun(c, a).(headerKey := HelloWord(suite, c.poolPublicKey, a),
                             stream := Some(Socket(a.inbound, frame))), Ok(()))
  {
    hide Pack, Xor, Hello, SealedBox, Clears, Announced, Written;
    var payload := HelloOnWire(suite, c.poolPublicKey, a);
    var masked := Clears(Xor(HelloWord(suite, c.poolPublicKey, a), a.headerKey));
    WrittenTwo(masked, payload, a.writes);
    assert [] + (masked + payload) == masked + [] + payload;
  }

  /** The four keys a pool expects: those of the object first, then those of the session, signing before agreement. */
  function FourKeys(suite: Suite, a: Attempt): (keys: seq<Key>)
    ensures |keys| == 4
  {
    [suite.ed25519Public(a.local.ed25519Signing), suite.x25519Public(a.local.x25519Secret),
     suite.ed25519Public(a.session.ed25519Signing), suite.x25519Public(a.session.x25519Secret)]
  }

  /**
    * The hello octet by octet. With a pool key set, everything after the header is a sealed box for that key holding
    * the hello, and no octet of it is clear; without one, it is the hello as it stands. The header says which.
    */
  lemma HelloIsSealed(suite: Suite, c: ClientState, a: Attempt)
    requires a.writes >= 2
    ensures var hello := Hello(FourKeys(suite, a), a.headerKey, a.padding);
            var greeted := SendHello(suite, Begun(c, a), a).0;
            && greeted.stream.Some?
            && var out := greeted.stream.value.outbound;
            && |out| == 4 + |hello| + (if c.poolPublicKey.Some? then 48 else 0)
            && out[..4] == Clears(Xor(greeted.headerKey, a.headerKey))
            && Unpack(greeted.headerKey) == DatumMessageHeader(|out| - 4, 0, true, c.poolPublicKey.Some?, false, 0)
            && match c.poolPublicKey
               case None => out[4..] == hello
               case Some(key) =>
                 forall i :: 0 <= i < |hello| + 48 ==> out[4..][i] == Made(BoxByte(key, a.ephemeral, hello, i))
  {
    hide Pack, Unpack, Xor, Hello, Clears, Written;
    var payload := HelloOnWire(suite, c.poolPublicKey, a);
    var masked := Clears(Xor(HelloWord(suite, c.poolPublicKey, a), a.headerKey));
    WrittenTwo(masked, payload, a.writes);
    var out := masked + payload;
    assert [] + out == out && out[..4] == masked && out[4..] == payload;
    HelloHeaderFields(suite, c.poolPublicKey, a);
  }

  lemma WrittenTwo(first: seq<Octet>, second: seq<Octet>, writes: nat)
    requires writes >= 2
    ensures Written([first, second], writes) == first + second
  {
    assert [first, second][1..] == [second];
    WrittenOne(second, writes - 1);
  }

  lemma WrittenOne(chunk: seq<Octet>, writes: nat)
    requires writes >= 1
    ensures Written([chunk], writes) == chunk
  {
    assert [chunk][1..] == [];
    assert Written([], writes - 1) == [];
  }

  lemma HelloIsShort(suite: Suite, poolKey: Option<Key>, a: Attempt)
    ensures |HelloOnWire(suite, poolKey, a)| < 500
  {
    HelloBodyParts(Announced(suite, a.local, a.session), a.headerKey, a.padding);
  }

  /** What a pool answers a hello with, and the secret behind the key it names. */
  datatype Reply = Reply(
    header: DatumMessageHeader, signature: seq<Octet>, poolEd25519: Key, poolSecret: Key,
    motd: seq<byte>, tail: seq<byte>)

  function ReplyPayload(suite: Suite, a: Attempt, reply: Reply): seq<byte> {
    ResponseBytes(Announced(suite, a.local, a.session), reply.poolEd25519, suite.x25519Public(reply.poolSecret),
                  reply.motd, reply.tail)
  }

  /** The frame it comes in, masked with the header of the hello it answers. */
  function ReplyFrame(suite: Suite, poolKey: Option<Key>, a: Attempt, reply: Reply): seq<Octet> {
    WriteFrame(Pack(reply.header), HelloWord(suite, poolKey, a), reply.signature, Clears(ReplyPayload(suite, a, reply)))
  }

  /** The documented answer: a handshake frame of the right length that names a valid key and agrees on a secret. */
  predicate Documented(suite: Suite, a: Attempt, reply: Reply) {
    && reply.header.cmdLen == |ReplyPayload(suite, a, reply)| < LENGTH_LIMIT && reply.header.protoCmd == 0
    && |reply.signature| == (if reply.header.isSigned then SIGNATURE_LENGTH else 0)
    && suite.isVerifyingKey(reply.poolEd25519) && 0 !in reply.motd
    && suite.diffieHellman(a.session.x25519Secret, suite.x25519Public(reply.poolSecret))
       == suite.diffieHellman(reply.poolSecret, suite.x25519Public(a.session.x25519Secret))
  }

  /** An attempt that reaches such a pool: it gets its hello out, and finds the answer first on the wire. */
  predicate Answered(suite: Suite, poolKey: Option<Key>, a: Attempt, reply: Reply, rest: seq<Octet>) {
    && a.reachable && a.writes >= 3 && Documented(suite, a, reply)
    && a.inbound == ReplyFrame(suite, poolKey, a, reply) + rest
  }

  /** A whole frame under the key of the hello: any header, any clear payload. */
  predicate ReplyArrives(suite: Suite, poolKey: Option<Key>, a: Attempt, header: DatumMessageHeader,
                         signature: seq<Octet>, payload: seq<byte>, rest: seq<Octet>)
  {
    && header.cmdLen == |payload| < LENGTH_LIMIT
    && |signature| == (if header.isSigned then SIGNATURE_LENGTH else 0)
    && a.inbound == WriteFrame(Pack(header), HelloWord(suite, poolKey, a), signature, Clears(payload)) + rest
  }

  lemma AnsweredArrives(suite: Suite, poolKey: Option<Key>, a: Attempt, reply: Reply, rest: seq<Octet>)
    requires Answered(suite, poolKey, a, reply, rest)
    ensures ReplyArrives(suite, poolKey, a, reply.header, reply.signature, ReplyPayload(suite, a, reply), rest)
  {
    hide Pack, HelloWord, ReplyPayload;
  }

  /** What a greeted client makes of the answer before it looks into the payload. */
  lemma ReplyIsRead(suite: Suite, c: ClientState, a: Attempt, header: DatumMessageHeader, signature: seq<Octet>,
                    payload: seq<byte>, rest: seq<Octet>)
    requires a.writes >= 3 && ReplyArrives(suite, c.poolPublicKey, a, header, signature, payload, rest)
    ensures var greeted := SendHello(suite, Begun(c, a), a).0;
            && greeted.stream.Some?
            && Receive(suite, greeted)
               == Judge(suite, SetInbound(greeted, rest).(headerKey := Xor(Pack(header), greeted.headerKey)),
                        Pack(header), signature, Clears(payload))
  {
    UnpackPack(header);
    hide Pack, Unpack, Xor, Judge, HelloWord, HelloOctets, Begun, SendHello;
    HelloFrame(suite, c, a);
    var greeted := SendHello(suite, Begun(c, a), a).0;
    var body := Clears(payload);
    var frame := WriteFrame(Pack(header), HelloWord(suite, c.poolPublicKey, a), signature, body);
    assert greeted.stream == Some(Socket(a.inbound, HelloOctets(suite, c.poolPublicKey, a)));
    ReadsBack(suite, Pack(header), greeted.headerKey, signature, body, 0, a.inbound);
    assert body[..|body|] == body;
    assert a.inbound[|frame|..] == rest;
  }

  /** No old receive cipher opens clear octets. */
  lemma ClearReplyDoesNotOpen(suite: Suite, c: ClientState, header: Word, signature: seq<Octet>, payload: seq<byte>)
    requires c.recvCipher.Some? && payload != []
    ensures Judge(suite, c, header, signature, Clears(payload)).1.Err?
  {
    assert Clears(payload)[0] == Clear(payload[0]);
  }

  lemma ClearReplyIsTaken(suite: Suite, c: ClientState, header: DatumMessageHeader, signature: seq<Octet>,
                          payload: seq<byte>)
    requires c.recvCipher.None? && c.poolVerify.None?
    ensures var code := header.protoCmd % 32;
            Judge(suite, c, Pack(header), signature, Clears(payload))
            == (c.(recvNonce := Next(c.recvNonce)),
                if FromCode(code).Some? then Ok(Message(FromCode(code).value, payload)) else Err(UnknownCommand(code)))
  {
    UnpackPack(header);
    hide Pack, Unpack;
    ValuesOfClears(suite, payload);
  }

  /** The pool's end once it has answered: the wire word of its reply as key, and the nonce the hello determines. */
  function PoolEnd(suite: Suite, poolKey: Option<Key>, a: Attempt, reply: Reply): MirrorPool {
    var start := InitialNonce(suite, a.headerKey);
    MirrorPool(Xor(Pack(reply.header), HelloWord(suite, poolKey, a)), start, start)
  }

  /**
    * Handshake establishment: against a pool that answers in the documented shape, echoing the four keys under
    * the mirrored header key, the connect of a client that is not connected succeeds, reads nothing past the
    * response, and leaves the two ends ready and matched.
    */
  lemma HandshakeMatchesEnds(suite: Suite, before: ClientState, a: Attempt, reply: Reply, rest: seq<Octet>)
    requires !before.connected && Bare(before)
    requires Answered(suite, before.poolPublicKey, a, reply, rest)
    ensures var (c, r) := Connect(suite, before, a);
            && r == Ok(()) && c.stream == Some(Socket(rest, HelloOctets(suite, before.poolPublicKey, a)))
            && Ready(suite, SessionKeys(suite, a, reply.poolEd25519, reply.poolSecret), HelloTaken(c))
            && Matched(HelloTaken(c), PoolEnd(suite, before.poolPublicKey, a, reply))
  {
    hide Pack, Unpack, Xor, Hello, Written, ResponseBytes, Receive, Judge, InitialNonce, DeriveKey, HelloOctets,
         ReplyFrame;
    var keys := Announced(suite, a.local, a.session);
    HelloFrame(suite, before, a);
    AnsweredArrives(suite, before.poolPublicKey, a, reply, rest);
    ReplyIsRead(suite, before, a, reply.header, reply.signature, ReplyPayload(suite, a, reply), rest);
    var greeted := SendHello(suite, Begun(before, a), a).0;
    var read := SetInbound(greeted, rest).(headerKey := Xor(Pack(reply.header), greeted.headerKey));
    ClearReplyIsTaken(suite, read, reply.header, reply.signature, ReplyPayload(suite, a, reply));
    ResponseAcceptedIff(suite, keys, keys, reply.poolEd25519, suite.x25519Public(reply.poolSecret),
                        reply.motd, reply.tail);
  }

  /**
    * Reuse of one object, exactly: whatever has been done with it, failed connects, refused messages and key
    * changes included, connecting it to a pool that answers as documented succeeds if and only if it is not
    * connected already.
    */
  lemma ConnectSucceedsIff(suite: Suite, poolKey: Option<Key>, es: seq<ClientEvent>, a: Attempt, reply: Reply,
                           rest: seq<Octet>)
    requires Answered(suite, Live(suite, Fresh(poolKey), es).poolPublicKey, a, reply, rest)
    ensures var c := Live(suite, Fresh(poolKey), es);
            && (Connect(suite, c, a).1.Ok? <==> !c.connected)
            && (c.connected <==> ConnectSucceeded(suite, Fresh(poolKey), es))
  {
    hide Pack, Unpack, Xor, Hello, ReadResponse, Receive, Judge, HelloOctets, ReplyFrame, Answered;
    var c := Live(suite, Fresh(poolKey), es);
    EveryRunEstablished(suite, Fresh(poolKey), es);
    LiveBare(suite, Fresh(poolKey), es);
    if c.connected {
      OldSessionRefuses(suite, c, a, reply, rest);
    } else {
      HandshakeMatchesEnds(suite, c, a, reply, rest);
    }
  }

  lemma OldSessionRefuses(suite: Suite, c: ClientState, a: Attempt, reply: Reply, rest: seq<Octet>)
    requires c.recvCipher.Some? && Answered(suite, c.poolPublicKey, a, reply, rest)
    ensures Connect(suite, c, a).1.Err?
  {
    hide Pack, Unpack, Xor, Hello, Receive, Judge, ReadResponse, HelloOctets, ReplyFrame;
    HelloFrame(suite, c, a);
    AnsweredArrives(suite, c.poolPublicKey, a, reply, rest);
    ReplyIsRead(suite, c, a, reply.header, reply.signature, ReplyPayload(suite, a, reply), rest);
    var greeted := SendHello(suite, Begun(c, a), a).0;
    ClearReplyDoesNotOpen(suite, SetInbound(greeted, rest).(headerKey := Xor(Pack(reply.header), greeted.headerKey)),
                          Pack(reply.header), reply.signature, ReplyPayload(suite, a, reply));
  }

  /**
    * When a connect succeeds, exactly. For an object that is not connected, against any whole frame in answer to the
    * hello: the pool must be reached, all three writes completed, and the frame must carry the handshake command and
    * a payload of at least 192 bytes with the four keys in order and then a valid verifying key. Each failure before
    * that has its own error.
    */
  lemma ConnectDecides(suite: Suite, c: ClientState, a: Attempt, header: DatumMessageHeader, signature: seq<Octet>,
                       payload: seq<byte>, rest: seq<Octet>)
    requires !c.connected && Bare(c)
    requires ReplyArrives(suite, c.poolPublicKey, a, header, signature, payload, rest)
    ensures var (after, r) := Connect(suite, c, a);
            var code := header.protoCmd % 32;
            && (r.Ok? <==> a.reachable && a.writes >= 3 && code == 0 && |payload| >= 192
                           && Echoes(payload, FourKeys(suite, a)) && suite.isVerifyingKey(payload[128..160]))
            && after.connected == r.Ok?
            && (!a.reachable ==> after == c && r == Err(Unreachable))
            && (a.reachable && a.writes < 3 ==> r == Err(WriteFailed))
            && (a.reachable && a.writes >= 3 && code != 0 ==>
                  r == Err(if code in {2, 3, 0x11} then UnexpectedCommand else UnknownCommand(code)))
  {
    hide Pack, Unpack, Xor, Hello, Written, Receive, Judge, ReadResponse, HelloOctets, ReplyArrives, Echoes;
    if a.reachable && a.writes >= 3 {
      HelloFrame(suite, c, a);
      ReplyIsRead(suite, c, a, header, signature, payload, rest);
      var greeted := SendHello(suite, Begun(c, a), a).0;
      var read := SetInbound(greeted, rest).(headerKey := Xor(Pack(header), greeted.headerKey));
      ClearReplyIsTaken(suite, read, header, signature, payload);
      ResponseDecides(suite, payload, FourKeys(suite, a));
    }
  }
}
