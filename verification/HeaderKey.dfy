/** The header key: what it remembers over a run, and exactly when two ends lose step. */
module HeaderKey {
  import opened Bytes
  import opened HeaderCodec
  import opened Crypto
  import opened Session
  import opened Framing

  /** One message operation of a session, successful or not. */
  datatype Op = SendOp(message: Message, writes: nat) | ReceiveOp

  datatype Outcome = SendDone(sent: Result<()>) | ReceiveDone(received: Result<Message>)

  function Do(suite: Suite, c: ClientState, op: Op): (ClientState, Outcome) {
    match op
    case SendOp(m, writes) => var (after, r) := Send(suite, c, m.command, m.data, writes); (after, SendDone(r))
    case ReceiveOp => var (after, r) := Receive(suite, c); (after, ReceiveDone(r))
  }

  function DoAll(suite: Suite, c: ClientState, ops: seq<Op>): (r: (ClientState, seq<Outcome>))
    ensures |r.1| == |ops|
    decreases |ops|
  {
    if ops == [] then (c, []) else
      var (next, first) := Do(suite, c, ops[0]);
      var (last, later) := DoAll(suite, next, ops[1..]);
      (last, [first] + later)
  }

  // ----- history

  /** The header word an operation puts on record: the plaintext header of a send, the wire word of a receive. */
  function Recorded(suite: Suite, c: ClientState, op: Op): seq<Word> {
    match op
    case SendOp(m, _) => if c.connected && c.stream.Some? then [UpHeader(m)] else []
    case ReceiveOp =>
      if c.stream.Some? && |c.stream.value.inbound| >= 4 then [Values(suite, c.stream.value.inbound[..4])] else []
  }

  function History(suite: Suite, c: ClientState, ops: seq<Op>): seq<Word>
    decreases |ops|
  {
    if ops == [] then [] else Recorded(suite, c, ops[0]) + History(suite, Do(suite, c, ops[0]).0, ops[1..])
  }

  /** After any run, however its operations ended, the key is the last recorded word. */
  lemma {:induction false} KeyIsLastRecorded(suite: Suite, c: ClientState, ops: seq<Op>)
    ensures var h := History(suite, c, ops);
            DoAll(suite, c, ops).0.headerKey == if h == [] then c.headerKey else h[|h| - 1]
    decreases |ops|
  {
    if ops == [] {
    } else {
      KeyAfterOne(suite, c, ops[0]);
      KeyIsLastRecorded(suite, Do(suite, c, ops[0]).0, ops[1..]);
    }
  }

  lemma KeyAfterOne(suite: Suite, c: ClientState, op: Op)
    ensures var h := Recorded(suite, c, op);
            Do(suite, c, op).0.headerKey == if h == [] then c.headerKey else h[0]
    ensures |Recorded(suite, c, op)| <= 1
  {
    hide Pack, Unpack, Xor;
  }

  /** The wire words of a block of consecutive sends, read off the octets written. */
  function WireWords(suite: Suite, c: ClientState, ms: seq<Message>): seq<Word>
    decreases |ms|
  {
    if ms == [] then [] else
      [Values(suite, SessionChunks(suite, c, ms[0].command, ms[0].data)[0])]
      + WireWords(suite, Send(suite, c, ms[0].command, ms[0].data, 3).0, ms[1..])
  }

  function XorAll(ws: seq<Word>): Word {
    if ws == [] then ZERO else Xor(ws[0], XorAll(ws[1..]))
  }

  /** The XOR of the wire words of consecutive sends telescopes to the first key and the last header. */
  lemma {:induction false} WireWordsTelescope(suite: Suite, c: ClientState, ms: seq<Message>)
    requires c.connected && c.stream.Some?
    ensures XorAll(WireWords(suite, c, ms))
         == Xor(c.headerKey, if ms == [] then c.headerKey else UpHeader(ms[|ms| - 1]))
    decreases |ms|
  {
    var k := c.headerKey;
    if ms == [] {
      XorUnit(k);
      XorAllOf([]);
    } else {
      var p := UpHeader(ms[0]);
      var next := Send(suite, c, ms[0].command, ms[0].data, 3).0;
      WireWordsTelescope(suite, next, ms[1..]);
      ValuesOfClears(suite, Xor(p, k));
      XorAllOf(WireWords(suite, c, ms));
      var last := if |ms| == 1 then p else UpHeader(ms[|ms| - 1]);
      assert XorAll(WireWords(suite, c, ms)[1..]) == Xor(p, last);
      // (p ^ k) ^ (p ^ last) == k ^ last
      XorCommutes(p, k);
      XorAssociative(k, p, Xor(p, last));
      XorAssociative(p, p, last);
      XorUnit(p);
      XorCommutes(ZERO, last);
      XorUnit(last);
    }
  }

  lemma XorAllOf(ws: seq<Word>)
    ensures XorAll(ws) == if ws == [] then ZERO else Xor(ws[0], XorAll(ws[1..]))
  {
  }

  // ----- crossing frames

  /** The header a reader holding `key` takes from the front of a stream. */
  function HeaderSeen(suite: Suite, key: Word, octets: seq<Octet>): Word
    requires |octets| >= 4
  {
    Xor(Values(suite, octets[..4]), key)
  }

  lemma MaskedWithOtherKey(suite: Suite, header: Word, key: Word, other: Word, signature: seq<Octet>, body: seq<Octet>)
    ensures HeaderSeen(suite, other, WriteFrame(header, key, signature, body)) == header <==> key == other
    ensures HeaderSeen(suite, other, WriteFrame(header, key, signature, body)) == Xor(header, Xor(key, other))
  {
    assert WriteFrame(header, key, signature, body)[..4] == Clears(Xor(header, key));
    ValuesOfClears(suite, Xor(header, key));
    XorAssociative(header, key, other);
    XorCommutes(Xor(header, key), other);
    XorCancels(header, key);
    XorInjective(Xor(header, key), other, key);
  }

  /**
    * Both ends hold one key and send at once. The client decodes the pool's header exactly when its own header
    * equals that key, which is also exactly when the two ends hold one key again after reading each other's
    * header; the pool decodes the client's header exactly when its own header is zero.
    */
  lemma CrossingFrames(suite: Suite, keys: Keys, c: ClientState, p: MirrorPool, m: Message, d: PoolMessage)
    requires Ready(suite, keys, c) && |m.data| <= PLAINTEXT_LIMIT && c.headerKey == p.headerKey
    ensures var client := Send(suite, c, m.command, m.data, 3).0;
            var (pool, down) := PoolSend(keys, p, d);
            var up := UpFrame(keys, c.headerKey, c.sendNonce, m);
            && (HeaderSeen(suite, client.headerKey, down) == DownHeader(d) <==> UpHeader(m) == c.headerKey)
            && (HeaderSeen(suite, pool.headerKey, up) == UpHeader(m) <==> DownHeader(d) == ZERO)
            && (Values(suite, down[..4]) == HeaderSeen(suite, pool.headerKey, up) <==> UpHeader(m) == c.headerKey)
  {
    var k, u, h := c.headerKey, UpHeader(m), DownHeader(d);
    SendWritesUpFrame(suite, keys, c, m);
    var (pool, down) := PoolSend(keys, p, d);
    MaskedWithOtherKey(suite, h, k, u, DownSignature(keys, p.sendNonce, d), DownBody(keys, p.sendNonce, d));
    var body := UpBody(keys, c.sendNonce, m);
    MaskedWithOtherKey(suite, u, k, Xor(h, k), Sign(keys.client, Clears(u) + body), body);
    // the pool's key h ^ k equals k exactly when h is zero
    XorCommutes(h, k);
    XorUnit(k);
    XorInjective(k, h, ZERO);
    // the client's new key h ^ k against the header u ^ (k ^ (h ^ k)) == u ^ h the pool adopts
    assert down[..4] == Clears(Xor(h, k));
    ValuesOfClears(suite, Xor(h, k));
    XorAssociative(k, k, h);
    XorCommutes(ZERO, h);
    XorUnit(h);
    XorCommutes(u, h);
    XorInjective(h, k, u);
  }

  /** A signed pool frame that crossed a send is delivered exactly when the two ends still hold one key. */
  lemma CrossedSignedFrame(suite: Suite, keys: Keys, c: ClientState, poolKey: Word, d: PoolMessage, rest: seq<Octet>)
    requires Ready(suite, keys, c) && FitsDown(d) && d.signed
    requires c.stream.value.inbound == DownFrame(keys, poolKey, c.recvNonce, d) + rest
    ensures Receive(suite, c).1 == Ok(d.message) <==> c.headerKey == poolKey
    ensures Receive(suite, c).1.Ok? ==> c.headerKey == poolKey
  {
    if c.headerKey == poolKey {
      DownFrameIsDelivered(suite, keys, c, d, rest);
    } else {
      var h, nonce := DownHeader(d), c.recvNonce;
      var signature, body := DownSignature(keys, nonce, d), DownBody(keys, nonce, d);
      MaskedWithOtherKey(suite, h, poolKey, c.headerKey, signature, body);
      var frame := DownFrame(keys, poolKey, nonce, d);
      assert c.stream.value.inbound[..4] == frame[..4];
      WrongHeaderIsRejected(suite, keys, c, HeaderSeen(suite, c.headerKey, frame), h, body);
    }
  }

  /** Reading a genuine signed frame under any other header ends in an error. */
  lemma WrongHeaderIsRejected(suite: Suite, keys: Keys, c: ClientState, seen: Word, signed: Word, body: seq<Octet>)
    requires Ready(suite, keys, c) && seen != signed
    requires |c.stream.value.inbound| >= 4 + SIGNATURE_LENGTH
    requires seen == Xor(Values(suite, c.stream.value.inbound[..4]), c.headerKey)
    requires c.stream.value.inbound[4..4 + SIGNATURE_LENGTH] == Sign(keys.pool, Clears(signed) + body)
    ensures Receive(suite, c).1.Err?
  {
    var inbound := c.stream.value.inbound;
    match ReadFrame(suite, c.headerKey, inbound, 0)
    case NoHeader =>
    case Short(_) =>
    case Complete(_, header, signature, read, _) =>
      assert header == seen;
      if Unpack(seen).isSigned {
        assert signature == inbound[4..4 + SIGNATURE_LENGTH];
        assert (Clears(seen) + read)[..4] == Clears(seen) && (Clears(signed) + body)[..4] == Clears(signed);
        ValuesOfClears(suite, seen);
        ValuesOfClears(suite, signed);
        VerifiesIffSame(keys.pool, Clears(seen) + read, keys.pool, Clears(signed) + body);
      } else if read != [] {
        assert read[0] == inbound[4] == Sign(keys.pool, Clears(signed) + body)[0];
      }
  }

  /**
    * An unsigned pool frame under whatever key the client holds. Nothing but the header says which command it is,
    * and nothing vouches for the header: the sealed data is delivered exactly when the header seen is unsigned,
    * has the right length and names some command, and it is delivered as that command.
    */
  lemma CrossedUnsignedFrame(suite: Suite, keys: Keys, c: ClientState, poolKey: Word, d: PoolMessage,
                             rest: seq<Octet>)
    requires Ready(suite, keys, c) && !d.signed
    requires c.stream.value.inbound == DownFrame(keys, poolKey, c.recvNonce, d) + rest
    ensures var seen := Unpack(Xor(DownHeader(d), Xor(poolKey, c.headerKey)));
            var r := Receive(suite, c).1;
            && (r.Ok? <==> !seen.isSigned && seen.cmdLen == |d.message.data| + TAG_LENGTH
                           && FromCode(seen.protoCmd).Some?)
            && (r.Ok? ==> r.value == Message(FromCode(seen.protoCmd).value, d.message.data))
  {
    hide Pack, Unpack, Xor, CreateNonce;
    var inbound, nonce := c.stream.value.inbound, CreateNonce(c.recvNonce);
    var body := DownBody(keys, c.recvNonce, d);
    var frame := DownFrame(keys, poolKey, c.recvNonce, d);
    MaskedWithOtherKey(suite, DownHeader(d), poolKey, c.headerKey, [], body);
    assert inbound[..4] == frame[..4];
    assert inbound[4..] == body + rest;
    match ReadFrame(suite, c.headerKey, inbound, 0)
    case NoHeader =>
    case Short(_) =>
      assert |inbound| == 4 + |body| + |rest|;
    case Complete(_, header, signature, read, _) =>
      assert header == Xor(DownHeader(d), Xor(poolKey, c.headerKey));
      if Unpack(header).isSigned {
        assert signature[0] == inbound[4] == body[0];
        assert !Verifies(keys.pool, Clears(header) + read, signature);
      } else {
        assert read == (body + rest)[..Unpack(header).cmdLen];
        PrefixOpensIffWhole(keys.down, nonce, d.message.data, rest, Unpack(header).cmdLen);
      }
  }

  /** Of a stream that starts with a ciphertext, only the first octets of exactly its length open. */
  lemma PrefixOpensIffWhole(key: Key, nonce: seq<byte>, plain: seq<byte>, rest: seq<Octet>, n: nat)
    requires n <= |Seal(key, nonce, plain)| + |rest|
    ensures Open(key, nonce, (Seal(key, nonce, plain) + rest)[..n])
         == if n == |plain| + TAG_LENGTH then Some(plain) else None
  {
    var body, read := Seal(key, nonce, plain), (Seal(key, nonce, plain) + rest)[..n];
    if n == |body| {
      assert read == body;
      OpensIffSealed(key, nonce, read, plain);
    } else if n > 0 {
      assert read[0] == Made(AeadByte(key, nonce, plain, 0));
    }
  }

  /** A pool frame without the signature block, and a verdict on a proof of work by its command. */
  function UnsignedVerdict(data: seq<byte>): PoolMessage {
    PoolMessage(Message(SubmitPow, data), false, 0, false, true)
  }

  /** The header byte that holds the flags and the command: SubmitPow turned into FetchCoinbaser by the crossing. */
  lemma CommandBytesCross()
    ensures XorByte(0x15, 0x8D) == 0x98 && XorByte(0x14, 0x98) == 0x8C
  {
    Power2Of8();
    hide XorBits;
    // 0001_0101 ^ 1000_1101
    XorDigit(0x15, 0x8D, 8);
    XorDigit(10, 70, 7);
    XorDigit(5, 35, 6);
    XorDigit(2, 17, 5);
    XorDigit(1, 8, 4);
    XorBitsCommutes(0, 4, 3);
    XorBitsZero(4, 3);
    // 0001_0100 ^ 1001_1000
    XorDigit(0x14, 0x98, 8);
    XorDigit(10, 76, 7);
    XorDigit(5, 38, 6);
    XorDigit(2, 19, 5);
    XorDigit(1, 9, 4);
  }

  /** With both ends at a submission's header, an unsigned verdict that crosses a fetch answers the fetch. */
  lemma VerdictCrossesFetch(suite: Suite, keys: Keys, c: ClientState, pow: seq<byte>, value: u64, data: seq<byte>)
    requires Ready(suite, keys, c) && |pow| == 8 && |data| + TAG_LENGTH < LENGTH_LIMIT
    requires c.headerKey == UpHeader(Message(SubmitPow, pow))
    ensures var (sent, r) := Send(suite, c, FetchCoinbaser, LittleEndian(value, 8), 3);
            && r == Ok(()) && sent.stream.Some?
            && var frame := DownFrame(keys, c.headerKey, c.recvNonce, UnsignedVerdict(data));
            Receive(suite, SetInbound(sent, frame)).1 == Ok(Message(FetchCoinbaser, data))
  {
    hide Pack, Unpack, Xor, Receive, Send, DownFrame, LittleEndian;
    var asked, d := Message(FetchCoinbaser, LittleEndian(value, 8)), UnsignedVerdict(data);
    SendWritesUpFrame(suite, keys, c, asked);
    var frame := DownFrame(keys, c.headerKey, c.recvNonce, d);
    var sent := SetInbound(Send(suite, c, FetchCoinbaser, LittleEndian(value, 8), 3).0, frame);
    assert sent.stream.value.inbound == frame + [];
    CrossedUnsignedFrame(suite, keys, sent, c.headerKey, d, []);
    SeenAsCoinbaser(pow, asked.data, data);
  }

  /**
    * The failing input, from any matched session: one task submits eight bytes of proof of work, the pool takes the
    * submission and sends its verdict unsigned, and a second task sends a fetch before anyone receives. The verdict
    * is delivered as the answer to the fetch.
    */
  lemma VerdictBecomesCoinbaser(suite: Suite, keys: Keys, c: ClientState, p: MirrorPool, pow: seq<byte>, value: u64,
                                data: seq<byte>)
    requires Ready(suite, keys, c) && c.stream.value == Socket([], [])
    requires p == MirrorPool(c.headerKey, c.recvNonce, c.sendNonce)
    requires |pow| == 8 && |data| + TAG_LENGTH < LENGTH_LIMIT
    ensures var submitted := Send(suite, c, SubmitPow, pow, 3).0;
            && submitted.stream.Some?
            && var (taken, request, _) := PoolReceive(suite, keys, p, submitted.stream.value.outbound);
            var frame := PoolSend(keys, taken, UnsignedVerdict(data)).1;
            var fetching := Send(suite, submitted, FetchCoinbaser, LittleEndian(value, 8), 3).0;
            && request == Ok(Message(SubmitPow, pow)) && fetching.stream.Some?
            && Receive(suite, SetInbound(fetching, frame)).1 == Ok(Message(FetchCoinbaser, data))
  {
    hide Pack, Unpack, Xor, Receive, Send, PoolReceive, DownFrame, UpFrame, LittleEndian;
    var m := Message(SubmitPow, pow);
    SendWritesUpFrame(suite, keys, c, m);
    var frame := UpFrame(keys, c.headerKey, c.sendNonce, m);
    assert [] + frame == frame + [] == frame;
    UpFrameIsDelivered(suite, keys, p, m, []);
    VerdictCrossesFetch(suite, keys, Send(suite, c, SubmitPow, pow, 3).0, pow, value, data);
  }

  /** Words that agree in three bytes differ in the fourth alone. */
  lemma XorOfLastBytes(a: Word, b: Word)
    ensures a[..3] == b[..3] ==> Xor(a, b) == [0, 0, 0, XorByte(a[3], b[3])]
    ensures b[..3] == [0, 0, 0] ==> Xor(a, b) == [a[0], a[1], a[2], XorByte(a[3], b[3])]
  {
    forall i | 0 <= i < 4
      ensures Xor(a, b)[i] == XorByte(a[i], b[i])
      ensures XorByte(a[i], a[i]) == 0 && XorByte(a[i], 0) == a[i]
    {
      XorAt(a, b, i);
      XorBitsSelf(a[i], 8);
      Power2Of8();
      XorBitsZero(a[i], 8);
    }
    assert forall i :: 0 <= i < 3 ==> a[i] == a[..3][i] && b[i] == b[..3][i];
  }

  lemma SeenAsCoinbaser(pow: seq<byte>, asked: seq<byte>, data: seq<byte>)
    requires |pow| == |asked| == 8 && |data| + TAG_LENGTH < LENGTH_LIMIT
    ensures var key := Xor(UpHeader(Message(SubmitPow, pow)), UpHeader(Message(FetchCoinbaser, asked)));
            var seen := Unpack(Xor(DownHeader(UnsignedVerdict(data)), key));
            !seen.isSigned && seen.cmdLen == |data| + TAG_LENGTH && seen.protoCmd == Code(FetchCoinbaser)
  {
    hide Pack, Unpack, Xor, XorByte;
    var h := DatumMessageHeader(|data| + TAG_LENGTH, 0, false, false, true, Code(SubmitPow));
    var p, f := SessionHeader(SubmitPow, 8), SessionHeader(FetchCoinbaser, 8);
    HeaderWord(p, 0x15);
    HeaderWord(f, 0x8D);
    HeaderWord(h, 0x14);
    HeaderWord(h.(protoCmd := Code(FetchCoinbaser)), 0x8C);
    CommandBytesCross();
    XorOfLastBytes(Pack(p), Pack(f));
    XorOfLastBytes(Pack(h), Xor(Pack(p), Pack(f)));
    UnpackPack(h.(protoCmd := Code(FetchCoinbaser)));
  }

  /** A header word by its length and its last byte. */
  lemma HeaderWord(h: DatumMessageHeader, last: byte)
    requires h.reserved == 0 && h.cmdLen < LENGTH_LIMIT
    requires last == Flag(h.isSigned) + Flag(h.isEncryptedPubkey) * 2 + Flag(h.isEncryptedChannel) * 4
                     + h.protoCmd * 8 % 0x100
    ensures Pack(h) == [h.cmdLen % 0x100, h.cmdLen / 0x100 % 0x100, h.cmdLen / 0x1_0000 % 0x40, last]
  {
    hide Pack;
    HeaderBytesArePacked(h);
  }

  // ----- both ends running the client's own rule

  /** What a reader that also runs `apply_header_xor` makes of a block of headers sent by it. */
  function SameRuleDecode(sender: Word, reader: Word, headers: seq<Word>): seq<Word>
    decreases |headers|
  {
    if headers == [] then [] else
      var wire := Xor(headers[0], sender);
      [Xor(wire, reader)] + SameRuleDecode(headers[0], wire, headers[1..])
  }

  /** The sender's key before frame `i`. */
  function KeyBefore(key: Word, headers: seq<Word>, i: nat): Word
    requires i < |headers|
  {
    if i == 0 then key else headers[i - 1]
  }

  /** n frames all decode exactly when the key before each of the first n - 1 is zero. */
  lemma {:induction false} SameRuleDecodesIff(key: Word, headers: seq<Word>)
    ensures SameRuleDecode(key, key, headers) == headers
            <==> forall i :: 0 <= i < |headers| - 1 ==> KeyBefore(key, headers, i) == ZERO
    decreases |headers|
  {
    if headers == [] {
    } else {
      var p, tail := headers[0], headers[1..];
      var wire := Xor(p, key);
      XorCancels(p, key);
      assert SameRuleDecode(key, key, headers) == [p] + SameRuleDecode(p, wire, tail);
      assert headers == [p] + tail;
      assert SameRuleDecode(key, key, headers)[1..] == SameRuleDecode(p, wire, tail);
      assert forall i :: 0 <= i < |tail| ==> KeyBefore(p, tail, i) == KeyBefore(key, headers, i + 1);
      if key == ZERO {
        XorUnit(p);
        SameRuleDecodesIff(p, tail);
        assert forall i :: 0 < i < |headers| ==> KeyBefore(key, headers, i) == KeyBefore(p, tail, i - 1);
      } else if tail != [] {
        // the reader's key is p ^ key, not p, so the second header comes out wrong
        XorCommutes(p, key);
        XorUnit(p);
        XorCommutes(ZERO, p);
        XorInjective(p, key, ZERO);
        XorCancels(tail[0], p);
        XorInjective(Xor(tail[0], p), wire, p);
        assert SameRuleDecode(p, wire, tail)[0] != tail[0];
        assert KeyBefore(key, headers, 0) != ZERO;
      }
    }
  }

  /** Session headers carry the signed bit, so two clients facing each other never decode three in a row. */
  lemma TwoClientsLoseStep(key: Word, ms: seq<Message>)
    requires |ms| >= 3
    ensures var headers := seq(|ms|, i requires 0 <= i < |ms| => UpHeader(ms[i]));
            SameRuleDecode(key, key, headers) != headers
  {
    hide Pack, Unpack, UpHeader, Xor;
    var headers := seq(|ms|, i requires 0 <= i < |ms| => UpHeader(ms[i]));
    SameRuleDecodesIff(key, headers);
    assert KeyBefore(key, headers, 1) == UpHeader(ms[0]);
    UpHeaderFields(ms[0]);
    HeaderOfBytesUnpacks(ZERO); // whose signed bit is clear
  }
}
