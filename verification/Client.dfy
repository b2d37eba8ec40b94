/** DatumProtocolClient: the object whose methods carry out the operations of `Session`. */
module Client {
  import opened Bytes
  import opened HeaderCodec
  import opened Crypto
  import opened Session

  class DatumProtocolClient {
    const suite: Suite
    var poolPublicKey: Option<Key>
    var stream: Option<Socket>
    var localKeys: Option<EncryptionKeys>
    var remoteKey: Option<Key>
    var sendCipher: Option<Key>
    var recvCipher: Option<Key>
    var sendNonce: u64
    var recvNonce: u64
    var headerKey: Word
    var poolVerify: Option<Key>
    var connected: bool

    function State(): ClientState
      reads this
    {
      ClientState(poolPublicKey, stream, localKeys, remoteKey, sendCipher, recvCipher,
                  sendNonce, recvNonce, headerKey, poolVerify, connected)
    }

    constructor (suite: Suite, poolPublicKey: Option<Key>)
      ensures this.suite == suite && State() == Fresh(poolPublicKey)
    {
      this.suite := suite;
      this.poolPublicKey := poolPublicKey;
      stream, localKeys, remoteKey := None, None, None;
      sendCipher, recvCipher, poolVerify := None, None, None;
      sendNonce, recvNonce, headerKey := 0, 0, ZERO;
      connected := false;
    }

    method SetPoolPublicKey(key: Key)
      modifies this
      ensures State() == old(State()).(poolPublicKey := Some(key))
    {
      poolPublicKey := Some(key);
    }

    /** `read_exact`: at the end of the stream what is left is lost. */
    method ReadExact(n: nat) returns (r: Result<seq<Octet>>)
      requires stream.Some?
      modifies this`stream
      ensures var before := old(stream.value.inbound);
              if n <= |before|
              then r == Ok(before[..n]) && stream == Some(old(stream.value).(inbound := before[n..]))
              else r == Err(ReadEnded) && stream == Some(old(stream.value).(inbound := []))
    {
      var inbound := stream.value.inbound;
      if |inbound| < n {
        stream := Some(stream.value.(inbound := []));
        return Err(ReadEnded);
      }
      stream := Some(stream.value.(inbound := inbound[n..]));
      return Ok(inbound[..n]);
    }

    /** `write_all`: the connection accepts `writes` more calls. */
    method WriteAll(octets: seq<Octet>, writes: nat) returns (left: nat, r: Result<()>)
      requires stream.Some?
      modifies this`stream
      ensures writes == 0 ==> r == Err(WriteFailed) && left == 0 && stream == old(stream)
      ensures writes > 0 ==>
                && r == Ok(()) && left == writes - 1
                && stream == Some(old(stream.value).(outbound := old(stream.value.outbound) + octets))
    {
      if writes == 0 {
        return 0, Err(WriteFailed);
      }
      stream := Some(stream.value.(outbound := stream.value.outbound + octets));
      return writes - 1, Ok(());
    }

    /**
      * apply_header_xor: masks the first four bytes in a loop and feeds the masked word back.
      * Feeding back the output makes the new key the *input* word.
      */
    method ApplyHeaderXor(bytes: seq<byte>, key: Word) returns (r: Result<seq<byte>>)
      modifies this`headerKey
      ensures |bytes| < 4 ==> r == Err(HeaderTooShort) && headerKey == old(headerKey)
      ensures |bytes| >= 4 ==> r == Ok(Xor(bytes[..4], key) + bytes[4..]) && headerKey == bytes[..4]
    {
      if |bytes| < 4 {
        return Err(HeaderTooShort);
      }
      var result := new byte[|bytes|](i requires 0 <= i < |bytes| => bytes[i]);
      for i := 0 to 4
        invariant forall j :: 0 <= j < i ==> result[j] == XorByte(bytes[j], key[j])
        invariant forall j :: i <= j < |bytes| ==> result[j] == bytes[j]
      {
        result[i] := XorByte(result[i], key[i]);
      }
      forall i | 0 <= i < 4
        ensures result[i] == Xor(bytes[..4], key)[i]
      {
        XorAt(bytes[..4], key, i);
      }
      assert result[..4] == Xor(bytes[..4], key);
      headerKey := Xor(key, result[..4]);
      XorCommutes(key, result[..4]);
      XorCancels(bytes[..4], key);
      assert result[..] == result[..4] + bytes[4..];
      return Ok(result[..]);
    }

    /** Packs a header and masks it with `key`, which the feedback then replaces by the header itself. */
    method MaskHeader(h: DatumMessageHeader, key: Word) returns (header: Word, masked: Word)
      modifies this`headerKey
      ensures header == Pack(h) && masked == Xor(header, key) && headerKey == header
    {
      var bytes := SerializeHeader(h);
      header := bytes[..];
      var r := ApplyHeaderXor(header, key);
      assert header[..4] == header;
      masked := r.value;
    }

    /** Writes `[header][signature][encrypted_data]`, the signature only if there is one. */
    method WriteParts(masked: Word, signature: seq<Octet>, encrypted: seq<Octet>, writes: nat) returns (r: Result<()>)
      requires stream.Some?
      modifies this`stream
      ensures var chunks := [Clears(masked)] + (if signature == [] then [] else [signature]) + [encrypted];
              var before := old(stream.value);
              && stream == Some(before.(outbound := before.outbound + Written(chunks, writes)))
              && r == if writes < |chunks| then Err(WriteFailed) else Ok(())
    {
      ghost var before := stream.value.outbound;
      ghost var chunks := [Clears(masked)] + (if signature == [] then [] else [signature]) + [encrypted];
      WrittenOf(chunks, writes);
      var left;
      left, r := WriteAll(Clears(masked), writes);
      if r.Err? {
        assert before + [] == before;
        return;
      }
      if signature != [] {
        left, r := WriteAll(signature, left);
        if r.Err? {
          return;
        }
        assert stream.value.outbound == before + (chunks[0] + chunks[1]);
      }
      left, r := WriteAll(encrypted, left);
      assert stream.value.outbound == before + Written(chunks, writes);
    }

    /** Encrypts and signs a payload; each step is skipped if its key is missing. */
    method Protect(header: Word, nonce: u64, data: seq<byte>) returns (encrypted: seq<Octet>, signature: seq<Octet>)
      ensures encrypted == if sendCipher.Some? then Seal(sendCipher.value, CreateNonce(nonce), data) else Clears(data)
      ensures signature == SessionSignature(suite, State(), header, encrypted)
    {
      encrypted := if sendCipher.Some? then Seal(sendCipher.value, CreateNonce(nonce), data) else Clears(data);
      signature := [];
      if localKeys.Some? {
        signature := Sign(suite.ed25519Public(localKeys.value.ed25519Signing), Clears(header) + encrypted);
      }
    }

    /** send_message. */
    method SendMessage(command: DatumCommand, data: seq<byte>, writes: nat) returns (r: Result<()>)
      modifies this
      ensures (State(), r) == Send(suite, old(State()), command, data, writes)
    {
      hide Pack, Xor, Written, Seal, Sign, Clears, CreateNonce;
      if !connected {
        return Err(NotConnected);
      }
      if stream.None? {
        return Err(NoStream);
      }
      var header, masked := MaskHeader(SessionHeader(command, |data|), headerKey);
      var nonce := sendNonce;
      sendNonce := Next(sendNonce);
      if sendCipher.Some? && |data| > PLAINTEXT_LIMIT {
        return Err(EncryptionFailed);
      }
      var encrypted, signature := Protect(header, nonce, data);
      r := WriteParts(masked, signature, encrypted, writes);
    }

    /** Reads and unmasks a header; the wire word becomes the key at once. */
    method ReadHeader() returns (r: Result<Word>)
      requires stream.Some?
      modifies this`stream, this`headerKey
      ensures var before := old(stream.value.inbound);
              if |before| < 4
              then r == Err(ReadEnded) && headerKey == old(headerKey)
                   && stream == Some(old(stream.value).(inbound := []))
              else r == Ok(Xor(Values(suite, before[..4]), old(headerKey)))
                   && headerKey == Values(suite, before[..4])
                   && stream == Some(old(stream.value).(inbound := before[4..]))
    {
      hide Xor;
      var octets := ReadExact(4);
      if octets.Err? {
        return Err(ReadEnded);
      }
      var wire: Word := Values(suite, octets.value);
      var unmasked := ApplyHeaderXor(wire, headerKey);
      assert wire[..4] == wire;
      var header: Word := unmasked.value;
      assert header == Xor(wire, old(headerKey));
      return Ok(header);
    }

    /** The three reads of receive_message_internal. */
    method ReadParts() returns (r: Result<(Word, seq<Octet>, seq<Octet>)>)
      requires stream.Some?
      modifies this`stream, this`headerKey
      ensures match ReadFrame(suite, old(headerKey), old(stream.value.inbound), 0)
              case NoHeader =>
                && r == Err(ReadEnded) && headerKey == old(headerKey)
                && stream == Some(old(stream.value).(inbound := []))
              case Short(wire) =>
                && r == Err(ReadEnded) && headerKey == wire
                && stream == Some(old(stream.value).(inbound := []))
              case Complete(wire, header, signature, body, rest) =>
                && r == Ok((header, signature, body)) && headerKey == wire
                && stream == Some(old(stream.value).(inbound := rest))
    {
      hide Unpack, Xor, DeserializeHeader, Values;
      ghost var inbound := stream.value.inbound;
      var read := ReadHeader();
      if read.Err? {
        return Err(ReadEnded);
      }
      var word := read.value;
      assert word[..4] == word;
      var header := DeserializeHeader(word).value;
      var signature: seq<Octet> := [];
      if header.isSigned {
        var sig := ReadExact(SIGNATURE_LENGTH);
        if sig.Err? {
          return Err(ReadEnded);
        }
        signature := sig.value;
      }
      ghost var bodyAt := 4 + SignatureSize(word);
      assert signature == inbound[4..bodyAt];
      assert inbound[4..][SignatureSize(word)..] == inbound[bodyAt..];
      var body := ReadExact(header.cmdLen);
      if body.Err? {
        return Err(ReadEnded);
      }
      assert body.value == inbound[bodyAt..bodyAt + header.cmdLen];
      return Ok((word, signature, body.value));
    }

    /** Signature check, nonce, decryption and command of receive_message_internal. */
    method CheckParts(header: Word, signature: seq<Octet>, body: seq<Octet>) returns (r: Result<Message>)
      modifies this`recvNonce
      ensures (State(), r) == Judge(suite, old(State()), header, signature, body)
    {
      if signature != [] && poolVerify.Some? {
        if !Verifies(poolVerify.value, Clears(header) + body, signature) {
          return Err(BadSignature);
        }
      }
      var nonce := recvNonce;
      recvNonce := Next(recvNonce);
      var data: seq<byte>;
      if recvCipher.Some? {
        var plain := Open(recvCipher.value, CreateNonce(nonce), body);
        if plain.None? {
          return Err(DecryptionFailed);
        }
        data := plain.value;
      } else {
        data := Values(suite, body);
      }
      var code := Unpack(header).protoCmd;
      var command := FromCode(code);
      if command.None? {
        return Err(UnknownCommand(code));
      }
      return Ok(Message(command.value, data));
    }

    /** receive_message_internal. */
    method ReceiveMessageInternal() returns (r: Result<Message>)
      modifies this
      ensures (State(), r) == Receive(suite, old(State()))
    {
      if stream.None? {
        return Err(NoStream);
      }
      var parts := ReadParts();
      if parts.Err? {
        return Err(parts.error);
      }
      r := CheckParts(parts.value.0, parts.value.1, parts.value.2);
    }

    /** receive_message. */
    method ReceiveMessage(handler: Handler) returns (r: Result<Message>)
      modifies this
      ensures (State(), r) == ReceiveAndDispatch(suite, old(State()), handler)
    {
      r := ReceiveMessageInternal();
      if r.Ok? {
        var handled := Dispatch(r.value, handler);
        if handled.Err? {
          return Err(handled.error);
        }
      }
    }

    /** fetch_coinbaser. */
    method FetchCoinbaser(value: u64, writes: nat, handler: Handler) returns (r: Result<seq<byte>>)
      modifies this
      ensures (State(), r)
           == Request(suite, old(State()), DatumCommand.FetchCoinbaser, LittleEndian(value, 8), writes, handler)
    {
      var sent := SendMessage(DatumCommand.FetchCoinbaser, LittleEndian(value, 8), writes);
      if sent.Err? {
        return Err(sent.error);
      }
      var answer := ReceiveMessage(handler);
      if answer.Err? {
        return Err(answer.error);
      }
      if answer.value.command != DatumCommand.FetchCoinbaser {
        return Err(UnexpectedCommand);
      }
      return Ok(answer.value.data);
    }

    /** submit_pow. */
    method SubmitPow(pow: seq<byte>, writes: nat, handler: Handler) returns (r: Result<bool>)
      modifies this
      ensures var (after, answer) := Request(suite, old(State()), DatumCommand.SubmitPow, pow, writes, handler);
              && State() == after
              && r == if answer.Err? then Err(answer.error) else Verdict(answer.value)
    {
      var sent := SendMessage(DatumCommand.SubmitPow, pow, writes);
      if sent.Err? {
        return Err(sent.error);
      }
      var answer := ReceiveMessage(handler);
      if answer.Err? {
        return Err(answer.error);
      }
      if answer.value.command != DatumCommand.SubmitPow {
        return Err(UnexpectedCommand);
      }
      return Verdict(answer.value.data);
    }

    /** perform_handshake up to and including the flush. */
    method SendHello(a: Attempt) returns (r: Result<()>)
      modifies this`headerKey, this`stream
      ensures (State(), r) == Session.SendHello(suite, old(State()), a)
    {
      hide Pack, Xor, Written, Hello, SealedBox;
      if localKeys.None? {
        return Err(NoLocalKeys);
      }
      var hello := BuildHello(Announced(suite, localKeys.value, a.session), a.headerKey, a.padding);
      var payload := if poolPublicKey.Some? then SealedBox(poolPublicKey.value, a.ephemeral, hello) else hello;
      headerKey := a.headerKey;
      if stream.None? {
        return Err(NoStream);
      }
      var header, masked := MaskHeader(
        DatumMessageHeader(|payload| % TWO_TO_THE_32, 0, true, poolPublicKey.Some?, false, Code(Handshake)),
        a.headerKey);
      assert [Clears(masked)] + [] + [payload] == [Clears(masked), payload];
      r := WriteParts(masked, [], payload, a.writes);
      if r.Ok? && a.writes < 3 {
        return Err(WriteFailed); // the flush
      }
    }

    /** perform_handshake. */
    method PerformHandshake(a: Attempt) returns (r: Result<()>)
      modifies this
      ensures (State(), r) == Session.PerformHandshake(suite, old(State()), a)
    {
      if localKeys.None? {
        return Err(NoLocalKeys);
      }
      var keys := Announced(suite, localKeys.value, a.session);
      r := SendHello(a);
      if r.Err? {
        return;
      }
      var answer := ReceiveMessageInternal();
      if answer.Err? {
        return Err(answer.error);
      }
      if answer.value.command != Handshake {
        return Err(UnexpectedCommand);
      }
      var read := ReadResponse(suite, answer.value.data, keys);
      if read.Err? {
        return Err(read.error);
      }
      Accept(read.value, a.session, a.headerKey);
    }

    /** What perform_handshake stores once a response is accepted. */
    method Accept(response: Response, session: EncryptionKeys, initialKey: Word)
      modifies this
      ensures State() == Establish(suite, old(State()), session, initialKey, response)
    {
      poolVerify := Some(response.poolEd25519);
      var secret := suite.diffieHellman(session.x25519Secret, response.poolX25519);
      sendCipher := Some(DeriveKey(suite, secret, "send"));
      recvCipher := Some(DeriveKey(suite, secret, "recv"));
      remoteKey := Some(response.poolX25519);
      var initialNonce := InitialNonce(suite, initialKey);
      sendNonce := initialNonce;
      recvNonce := initialNonce;
    }

    /** The hello, built by appending field after field and signing what was built. */
    static method BuildHello(keys: seq<Key>, headerKey: Word, padding: Padding) returns (hello: seq<Octet>)
      requires |keys| == 4
      ensures hello == Hello(keys, headerKey, padding)
    {
      var body: seq<byte> := [];
      body := body + keys[0];
      body := body + keys[1];
      body := body + keys[2];
      body := body + keys[3];
      body := body + Ascii(VERSION);
      body := body + [0];
      body := body + headerKey;
      body := body + padding;
      assert body == HelloBody(keys, headerKey, padding);
      hello := Clears(body);
      hello := hello + Sign(keys[0], hello);
    }

    /** connect. */
    method Connect(a: Attempt) returns (r: Result<()>)
      modifies this
      ensures (State(), r) == Session.Connect(suite, old(State()), a)
    {
      if !a.reachable {
        return Err(Unreachable);
      }
      stream := Some(Socket(a.inbound, []));
      localKeys := Some(a.local);
      r := PerformHandshake(a);
      if r.Err? {
        return;
      }
      connected := true;
    }
  }

  /** The wire after each number of completed writes. */
  lemma WrittenOf(chunks: seq<seq<Octet>>, writes: nat)
    requires 2 <= |chunks| <= 3
    ensures Written(chunks, 0) == []
    ensures Written(chunks, 1) == chunks[0]
    ensures Written(chunks, 2) == chunks[0] + chunks[1]
    ensures |chunks| == 3 ==> Written(chunks, 3) == chunks[0] + chunks[1] + chunks[2]
    ensures |chunks| <= writes ==> Written(chunks, writes) == Written(chunks, |chunks|)
  {
    assert Written(chunks[1..], 1) == chunks[1];
    if |chunks| <= writes {
      WrittenAll(chunks, writes);
      WrittenAll(chunks, |chunks|);
    }
    if |chunks| == 3 {
      assert chunks[1..][1..] == [chunks[2]];
      assert Written([chunks[2]], 1) == chunks[2];
    }
  }

  lemma {:induction false} WrittenAll(chunks: seq<seq<Octet>>, writes: nat)
    requires |chunks| <= writes
    ensures Written(chunks, writes) == Written(chunks, |chunks|)
  {
    if chunks == [] {
    } else {
      WrittenAll(chunks[1..], writes - 1);
    }
  }
}
