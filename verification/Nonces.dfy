/** The nonce counters: what they count, that no nonce repeats, and what a rejected frame costs. */
module Nonces {
  import opened Bytes
  import opened HeaderCodec
  import opened Crypto
  import opened Session
  import opened Framing
  import opened HeaderKey

  // ----- what the counters count

  /** An operation that took a send nonce: it got past the two connection checks. */
  predicate TookSendNonce(o: Outcome) {
    o.SendDone? && o.sent != Err(NotConnected) && o.sent != Err(NoStream)
  }

  /** An operation that took a receive nonce: a frame was read whole and passed the signature gate. */
  predicate PassedGate(o: Outcome) {
    o.ReceiveDone? && (o.received.Ok? || o.received.error == DecryptionFailed || o.received.error.UnknownCommand?)
  }

  function Count(p: Outcome -> bool, os: seq<Outcome>): nat {
    if os == [] then 0 else (if p(os[0]) then 1 else 0) + Count(p, os[1..])
  }

  /** Failure accounting: over any run each counter advances by exactly the operations that took a nonce. */
  lemma {:induction false} CountersCount(suite: Suite, c: ClientState, ops: seq<Op>)
    ensures var (last, os) := DoAll(suite, c, ops);
            && last.sendNonce == Advance(c.sendNonce, Count(TookSendNonce, os))
            && last.recvNonce == Advance(c.recvNonce, Count(PassedGate, os))
    decreases |ops|
  {
    hide Do;
    if ops == [] {
      AdvanceNext(c.sendNonce, 0);
      AdvanceNext(c.recvNonce, 0);
    } else {
      var (next, first) := Do(suite, c, ops[0]);
      var later := DoAll(suite, next, ops[1..]).1;
      CountersAfterOne(suite, c, ops[0]);
      CountersCount(suite, next, ops[1..]);
      AdvanceNext(c.sendNonce, Count(TookSendNonce, later));
      AdvanceNext(c.recvNonce, Count(PassedGate, later));
      assert ([first] + later)[1..] == later;
    }
  }

  lemma CountersAfterOne(suite: Suite, c: ClientState, op: Op)
    ensures var (next, o) := Do(suite, c, op);
            && next.sendNonce == (if TookSendNonce(o) then Next(c.sendNonce) else c.sendNonce)
            && next.recvNonce == (if PassedGate(o) then Next(c.recvNonce) else c.recvNonce)
  {
    hide Pack, Unpack, Xor;
  }

  // ----- freshness

  /** The nonces a run seals with and opens with, in order. */
  function SendNonces(suite: Suite, c: ClientState, ops: seq<Op>): seq<seq<byte>>
    decreases |ops|
  {
    if ops == [] then [] else
      var (next, o) := Do(suite, c, ops[0]);
      (if TookSendNonce(o) then [CreateNonce(c.sendNonce)] else []) + SendNonces(suite, next, ops[1..])
  }

  function ReceiveNonces(suite: Suite, c: ClientState, ops: seq<Op>): seq<seq<byte>>
    decreases |ops|
  {
    if ops == [] then [] else
      var (next, o) := Do(suite, c, ops[0]);
      (if PassedGate(o) then [CreateNonce(c.recvNonce)] else []) + ReceiveNonces(suite, next, ops[1..])
  }

  /** The nonces of `n` consecutive counter values. */
  function Consecutive(first: u64, n: nat): (s: seq<seq<byte>>)
    ensures |s| == n
  {
    seq(n, i requires 0 <= i < n => CreateNonce(Advance(first, i)))
  }

  lemma ConsecutivePrepend(first: u64, n: nat)
    ensures [CreateNonce(first)] + Consecutive(Next(first), n) == Consecutive(first, n + 1)
  {
    forall i | 0 <= i < n
      ensures Consecutive(Next(first), n)[i] == Consecutive(first, n + 1)[i + 1]
    {
      AdvanceNext(first, i);
    }
    AdvanceNext(first, 0);
  }

  lemma {:induction false} NoncesAreConsecutive(suite: Suite, c: ClientState, ops: seq<Op>)
    ensures var os := DoAll(suite, c, ops).1;
            && SendNonces(suite, c, ops) == Consecutive(c.sendNonce, Count(TookSendNonce, os))
            && ReceiveNonces(suite, c, ops) == Consecutive(c.recvNonce, Count(PassedGate, os))
    decreases |ops|
  {
    if ops == [] {
    } else {
      var (next, first) := Do(suite, c, ops[0]);
      var later := DoAll(suite, next, ops[1..]).1;
      CountersAfterOne(suite, c, ops[0]);
      NoncesAreConsecutive(suite, next, ops[1..]);
      ConsecutivePrepend(c.sendNonce, Count(TookSendNonce, later));
      ConsecutivePrepend(c.recvNonce, Count(PassedGate, later));
      assert ([first] + later)[1..] == later;
    }
  }

  predicate Distinct<T(==)>(s: seq<T>) {
    forall i, j :: 0 <= i < j < |s| ==> s[i] != s[j]
  }

  lemma AdvanceMeets(a: u64, i: nat, j: nat)
    requires i <= j < TWO_TO_THE_64
    ensures Advance(a, i) == Advance(a, j) <==> i == j
  {
  }

  /** Consecutive nonces are distinct as long as, and only as long as, the counter has not come round. */
  lemma ConsecutiveDistinct(first: u64, n: nat)
    ensures Distinct(Consecutive(first, n)) <==> n <= TWO_TO_THE_64
  {
    var s := Consecutive(first, n);
    if n <= TWO_TO_THE_64 {
      forall i, j | 0 <= i < j < n
        ensures s[i] != s[j]
      {
        AdvanceMeets(first, i, j);
        CreateNonceInjective(Advance(first, i), Advance(first, j));
      }
    } else {
      assert Advance(first, TWO_TO_THE_64) == Advance(first, 0);
      assert s[0] == s[TWO_TO_THE_64];
    }
  }

  /** Nonce freshness over every run of a session, in each direction, with the exact bound. */
  lemma NoncesAreFresh(suite: Suite, c: ClientState, ops: seq<Op>)
    ensures Distinct(SendNonces(suite, c, ops)) <==> |SendNonces(suite, c, ops)| <= TWO_TO_THE_64
    ensures Distinct(ReceiveNonces(suite, c, ops)) <==> |ReceiveNonces(suite, c, ops)| <= TWO_TO_THE_64
  {
    NoncesAreConsecutive(suite, c, ops);
    ConsecutiveDistinct(c.sendNonce, |SendNonces(suite, c, ops)|);
    ConsecutiveDistinct(c.recvNonce, |ReceiveNonces(suite, c, ops)|);
  }

  /**
    * A successful connect starts both directions at one counter value, so once each has been used a (key, nonce)
    * pair is shared between them exactly when the hash gives one key for the two derivation inputs, which differ.
    */
  lemma DirectionsShareNoncesIffKeysEqual(suite: Suite, before: ClientState, a: Attempt, ops: seq<Op>)
    requires Connect(suite, before, a).1.Ok?
    requires var c := Connect(suite, before, a).0;
             SendNonces(suite, c, ops) != [] && ReceiveNonces(suite, c, ops) != []
    ensures var c := Connect(suite, before, a).0;
            && c.sendCipher.Some? && c.recvCipher.Some? && c.remoteKey.Some?
            && var secret := suite.diffieHellman(a.session.x25519Secret, c.remoteKey.value);
            var up, down := DerivationInput(secret, "send"), DerivationInput(secret, "recv");
            && up != down
            && ((exists n, m :: n in SendNonces(suite, c, ops) && m in ReceiveNonces(suite, c, ops)
                                && (c.sendCipher.value, n) == (c.recvCipher.value, m))
                <==> suite.hash(up) == suite.hash(down))
  {
    hide Do, SendHello, Receive, ReadResponse, DerivationInput;
    var c := Connect(suite, before, a).0;
    var secret := suite.diffieHellman(a.session.x25519Secret, c.remoteKey.value);
    HashInputsDiffer(ZERO, ZERO, secret);
    NoncesAreConsecutive(suite, c, ops);
    AdvanceNext(c.sendNonce, 0);
    var n := CreateNonce(c.sendNonce);
    assert SendNonces(suite, c, ops)[0] == n && ReceiveNonces(suite, c, ops)[0] == n;
    assert n in SendNonces(suite, c, ops) && n in ReceiveNonces(suite, c, ops);
  }

  // ----- the nonces inside the octets written

  predicate Sealed(o: Octet) {
    o.Made? && o.origin.AeadByte?
  }

  /** Every sealed octet is under `key` and one of `nonces`. */
  predicate SealedUnder(key: Option<Key>, nonces: seq<seq<byte>>, octets: seq<Octet>) {
    forall o <- octets :: Sealed(o) ==> Some(o.origin.key) == key && o.origin.nonce in nonces
  }

  /** Octets sealed under one nonce belong to one ciphertext, and none of them occurs twice. */
  predicate SealedOnce(octets: seq<Octet>) {
    forall i, j :: 0 <= i < j < |octets| && Sealed(octets[i]) && Sealed(octets[j])
                   && octets[i].origin.nonce == octets[j].origin.nonce
                   ==> octets[i].origin.plain == octets[j].origin.plain
                       && octets[i].origin.index < octets[j].origin.index
  }

  /** A send seals one plaintext, if any, under the current key and counter. */
  lemma OneSendSeals(suite: Suite, c: ClientState, m: Message, writes: nat)
    ensures var octets := Written(SessionChunks(suite, c, m.command, m.data), writes);
            SealedUnder(c.sendCipher, [CreateNonce(c.sendNonce)], octets) && SealedOnce(octets)
  {
    hide Pack, Xor, CreateNonce, SealedOnce, SealedUnder;
    var chunks := SessionChunks(suite, c, m.command, m.data);
    var header := Pack(SessionHeader(m.command, |m.data|));
    var body := SessionBody(c, m.data);
    var signature := SessionSignature(suite, c, header, body);
    var masked := Clears(Xor(header, c.headerKey));
    WrittenIsPrefix(chunks, writes);
    assert Written(chunks, |chunks|) == masked + signature + body by {
      ThreeParts(masked, signature, body);
    }
    OneCiphertext(c.sendCipher, CreateNonce(c.sendNonce), masked + signature, body, m.data,
                  Written(chunks, writes));
  }

  lemma ThreeParts(masked: seq<Octet>, signature: seq<Octet>, body: seq<Octet>)
    ensures var chunks := [masked] + (if signature == [] then [] else [signature]) + [body];
            Written(chunks, |chunks|) == masked + signature + body
  {
    assert [body][1..] == [];
    assert Written([body], 1) == body;
    if signature == [] {
      assert ([masked] + [] + [body])[1..] == [body];
    } else {
      assert ([masked] + [signature] + [body])[1..] == [signature, body];
      assert [signature, body][1..] == [body];
      assert Written([signature, body], 2) == signature + body;
    }
  }

  /** Unsealed octets and then one body, cut off anywhere. */
  lemma OneCiphertext(key: Option<Key>, nonce: seq<byte>, open: seq<Octet>, body: seq<Octet>, plain: seq<byte>,
                      octets: seq<Octet>)
    requires (forall o <- open :: !Sealed(o)) && octets <= open + body
    requires body == if key.Some? then Seal(key.value, nonce, plain) else Clears(plain)
    ensures SealedUnder(key, [nonce], octets) && SealedOnce(octets)
  {
    assert forall i :: 0 <= i < |octets| && Sealed(octets[i]) ==>
             var k := i - |open|;
             k >= 0 && key.Some? && octets[i] == Made(AeadByte(key.value, nonce, plain, k));
  }

  lemma {:induction false} WrittenIsPrefix(chunks: seq<seq<Octet>>, writes: nat)
    ensures Written(chunks, writes) <= Written(chunks, |chunks|)
  {
    if chunks == [] || writes == 0 {
    } else {
      WrittenIsPrefix(chunks[1..], writes - 1);
    }
  }

  /** What one operation adds to the outbound stream. */
  lemma OneOpSeals(suite: Suite, c: ClientState, op: Op)
    requires c.stream.Some?
    ensures var (next, o) := Do(suite, c, op);
            && next.stream.Some? && next.sendCipher == c.sendCipher
            && c.stream.value.outbound <= next.stream.value.outbound
            && var added := next.stream.value.outbound[|c.stream.value.outbound|..];
            && SealedUnder(c.sendCipher, if TookSendNonce(o) then [CreateNonce(c.sendNonce)] else [], added)
            && SealedOnce(added)
  {
    hide Pack, Unpack, Xor, SessionChunks, CreateNonce, SealedOnce, SealedUnder;
    var outbound := c.stream.value.outbound;
    assert outbound[|outbound|..] == [];
    NothingSealed(c.sendCipher, [CreateNonce(c.sendNonce)]);
    NothingSealed(c.sendCipher, []);
    match op
    case SendOp(m, writes) =>
      OneSendSeals(suite, c, m, writes);
      var octets := Written(SessionChunks(suite, c, m.command, m.data), writes);
      assert (outbound + octets)[|outbound|..] == octets;
    case ReceiveOp =>
      ReceiveWritesNothing(suite, c);
  }

  lemma NothingSealed(key: Option<Key>, nonces: seq<seq<byte>>)
    ensures SealedUnder(key, nonces, []) && SealedOnce([])
  {
  }

  lemma ReceiveWritesNothing(suite: Suite, c: ClientState)
    requires c.stream.Some?
    ensures var next := Receive(suite, c).0;
            && next.stream.Some? && next.sendCipher == c.sendCipher
            && next.stream.value.outbound == c.stream.value.outbound
  {
    hide Unpack, Xor, PassesGate, Decrypt;
  }

  lemma SealedTogether(key: Option<Key>, ns: seq<seq<byte>>, ms: seq<seq<byte>>, a: seq<Octet>, b: seq<Octet>)
    requires SealedUnder(key, ns, a) && SealedUnder(key, ms, b)
    ensures SealedUnder(key, ns + ms, a + b)
    ensures SealedOnce(a) && SealedOnce(b) && Distinct(ns + ms) ==> SealedOnce(a + b)
  {
    if SealedOnce(a) && SealedOnce(b) && Distinct(ns + ms) {
      var octets := a + b;
      forall i, j | 0 <= i < j < |octets| && Sealed(octets[i]) && Sealed(octets[j])
                    && octets[i].origin.nonce == octets[j].origin.nonce
        ensures octets[i].origin.plain == octets[j].origin.plain && octets[i].origin.index < octets[j].origin.index
      {
        if i < |a| <= j {
          DistinctParts(ns, ms, octets[i].origin.nonce);
        }
      }
    }
  }

  lemma DistinctParts<T>(a: seq<T>, b: seq<T>, x: T)
    requires Distinct(a + b) && x in a
    ensures x !in b
  {
    var i :| 0 <= i < |a| && a[i] == x;
    assert (a + b)[i] == x;
    assert forall j :: 0 <= j < |b| ==> (a + b)[|a| + j] == b[j];
  }

  lemma {:induction false} RunSeals(suite: Suite, c: ClientState, ops: seq<Op>)
    requires c.stream.Some?
    ensures var last := DoAll(suite, c, ops).0;
            var nonces := SendNonces(suite, c, ops);
            && last.stream.Some? && c.stream.value.outbound <= last.stream.value.outbound
            && var added := last.stream.value.outbound[|c.stream.value.outbound|..];
            && SealedUnder(c.sendCipher, nonces, added)
            && (Distinct(nonces) ==> SealedOnce(added))
    decreases |ops|
  {
    hide Do, SealedUnder, SealedOnce, CreateNonce, Distinct;
    var outbound := c.stream.value.outbound;
    if ops == [] {
      NothingSealed(c.sendCipher, []);
      assert outbound[|outbound|..] == [];
    } else {
      var (next, o) := Do(suite, c, ops[0]);
      OneOpSeals(suite, c, ops[0]);
      RunSeals(suite, next, ops[1..]);
      var last := DoAll(suite, next, ops[1..]).0;
      var first, later := next.stream.value.outbound, last.stream.value.outbound;
      assert later[|outbound|..] == first[|outbound|..] + later[|first|..];
      var now := if TookSendNonce(o) then [CreateNonce(c.sendNonce)] else [];
      SealedTogether(c.sendCipher, now, SendNonces(suite, next, ops[1..]), first[|outbound|..], later[|first|..]);
      DistinctTail(now, SendNonces(suite, next, ops[1..]));
    }
  }

  lemma DistinctTail<T>(a: seq<T>, b: seq<T>)
    ensures Distinct(a + b) ==> Distinct(b)
  {
    assert forall j :: 0 <= j < |b| ==> (a + b)[|a| + j] == b[j];
  }

  /**
    * No nonce reuse on the wire: in what any run writes, every sealed octet is under the sending key and a nonce of
    * its own send, and, up to 2^64 sends, octets with one nonce are pieces of one ciphertext written once.
    */
  lemma NoNonceSealsTwice(suite: Suite, c: ClientState, ops: seq<Op>)
    requires c.stream.Some?
    ensures var (last, os) := DoAll(suite, c, ops);
            && last.stream.Some? && c.stream.value.outbound <= last.stream.value.outbound
            && var added := last.stream.value.outbound[|c.stream.value.outbound|..];
            && SealedUnder(c.sendCipher, Consecutive(c.sendNonce, Count(TookSendNonce, os)), added)
            && (Count(TookSendNonce, os) <= TWO_TO_THE_64 ==> SealedOnce(added))
  {
    hide Do, SealedUnder, SealedOnce;
    RunSeals(suite, c, ops);
    NoncesAreConsecutive(suite, c, ops);
    ConsecutiveDistinct(c.sendNonce, Count(TookSendNonce, DoAll(suite, c, ops).1));
  }

  // ----- the nonces of what is delivered

  /** The nonce that operation `k` of a run would open with. */
  function OpeningNonce(c: ClientState, os: seq<Outcome>, k: nat): seq<byte>
    requires k <= |os|
  {
    CreateNonce(Advance(c.recvNonce, Count(PassedGate, os[..k])))
  }

  predicate Delivers(o: Outcome) {
    o.ReceiveDone? && o.received.Ok?
  }

  lemma InboundShrinks(suite: Suite, keys: Keys, c: ClientState, op: Op)
    requires Ready(suite, keys, c)
    ensures var next := Do(suite, c, op).0;
            && Ready(suite, keys, next)
            && |next.stream.value.inbound| <= |c.stream.value.inbound|
            && next.stream.value.inbound
               == c.stream.value.inbound[|c.stream.value.inbound| - |next.stream.value.inbound|..]
  {
    hide Pack, Unpack, Xor, PassesGate, Decrypt;
    var inbound := c.stream.value.inbound;
    assert inbound[0..] == inbound && inbound[|inbound|..] == [];
  }

  /**
    * Integrity over every run, whatever the stream holds: a message delivered by operation `k` was sealed under the
    * pool's key and the one nonce due at that point, and that ciphertext is part of the stream.
    */
  lemma {:induction false} EveryDeliveryWasSealed(suite: Suite, keys: Keys, c: ClientState, ops: seq<Op>, k: nat)
    requires Ready(suite, keys, c) && k < |ops|
    requires Delivers(DoAll(suite, c, ops).1[k])
    ensures var os := DoAll(suite, c, ops).1;
            Contains(c.stream.value.inbound, Seal(keys.down, OpeningNonce(c, os, k), os[k].received.value.data))
    decreases |ops|
  {
    hide Receive, Send, Seal, CreateNonce, Contains, PassedGate, Ready;
    var (next, first) := Do(suite, c, ops[0]);
    var os, later := DoAll(suite, c, ops).1, DoAll(suite, next, ops[1..]).1;
    assert c.stream.Some? by {
      ReadyHasStream(suite, keys, c);
    }
    if k == 0 {
      AdvanceNext(c.recvNonce, 0);
      assert os[..0] == [];
      DeliveredWasSealed(suite, keys, c);
    } else {
      InboundShrinks(suite, keys, c, ops[0]);
      EveryDeliveryWasSealed(suite, keys, next, ops[1..], k - 1);
      var body := Seal(keys.down, OpeningNonce(next, later, k - 1), os[k].received.value.data);
      ContainedInSuffix(c.stream.value.inbound, next.stream.value.inbound, body);
      CountersAfterOne(suite, c, ops[0]);
      assert os[..k][1..] == later[..k - 1] && os[..k][0] == first;
      AdvanceNext(c.recvNonce, Count(PassedGate, later[..k - 1]));
    }
  }

  lemma {:induction false} CountGrows(p: Outcome -> bool, os: seq<Outcome>, j: nat, k: nat)
    requires j < k <= |os| && p(os[j])
    ensures Count(p, os[..j]) < Count(p, os[..k]) <= k
    decreases |os|
  {
    assert os[..k][1..] == os[1..][..k - 1];
    CountBound(p, os[1..][..k - 1]);
    if j == 0 {
      assert os[..0] == [];
    } else {
      assert os[..j][1..] == os[1..][..j - 1];
      CountGrows(p, os[1..], j - 1, k - 1);
    }
  }

  lemma {:induction false} CountBound(p: Outcome -> bool, os: seq<Outcome>)
    ensures Count(p, os) <= |os|
  {
    if os == [] {
    } else {
      CountBound(p, os[1..]);
    }
  }

  /** No replay: up to 2^64 operations, two deliveries of a run never come from one ciphertext. */
  lemma NothingIsReplayed(suite: Suite, keys: Keys, c: ClientState, ops: seq<Op>, j: nat, k: nat)
    requires Ready(suite, keys, c) && j < k < |ops| <= TWO_TO_THE_64
    requires var os := DoAll(suite, c, ops).1; Delivers(os[j]) && Delivers(os[k])
    ensures var os := DoAll(suite, c, ops).1;
            var earlier := Seal(keys.down, OpeningNonce(c, os, j), os[j].received.value.data);
            var later := Seal(keys.down, OpeningNonce(c, os, k), os[k].received.value.data);
            && Contains(c.stream.value.inbound, earlier) && Contains(c.stream.value.inbound, later)
            && (forall o <- earlier :: o !in later)
  {
    hide Do, Contains, Ready;
    var os := DoAll(suite, c, ops).1;
    EveryDeliveryWasSealed(suite, keys, c, ops, j);
    EveryDeliveryWasSealed(suite, keys, c, ops, k);
    var m, n := Count(PassedGate, os[..j]), Count(PassedGate, os[..k]);
    CountGrows(PassedGate, os, j, k);
    AdvanceMeets(c.recvNonce, m, n);
    CreateNonceInjective(Advance(c.recvNonce, m), Advance(c.recvNonce, n));
  }

  // ----- the cost of a rejected frame

  /** A pool message, signed or not, and the signature octets that actually arrive with it. */
  datatype Arrival = Arrival(message: PoolMessage, signature: seq<Octet>)

  predicate WellFormed(a: Arrival) {
    FitsDown(a.message) && |a.signature| == if a.message.signed then SIGNATURE_LENGTH else 0
  }

  /** The signature is the pool's own; of an unsigned message that is always so. */
  predicate Genuine(keys: Keys, nonce: u64, a: Arrival) {
    a.signature == DownSignature(keys, nonce, a.message)
  }

  /** The stream of a pool that advances its key and nonce with every frame it sends. */
  function Arrivals(keys: Keys, key: Word, nonce: u64, arrivals: seq<Arrival>): seq<Octet>
    decreases |arrivals|
  {
    if arrivals == [] then [] else
      var a := arrivals[0];
      WriteFrame(DownHeader(a.message), key, a.signature, DownBody(keys, nonce, a.message))
      + Arrivals(keys, Xor(DownHeader(a.message), key), Next(nonce), arrivals[1..])
  }

  /** The results of `n` receives in a row, going on after errors. */
  function ReceiveTimes(suite: Suite, c: ClientState, n: nat): (rs: seq<Result<Message>>)
    ensures |rs| == n
    decreases n
  {
    if n == 0 then [] else
      var (next, r) := Receive(suite, c);
      [r] + ReceiveTimes(suite, next, n - 1)
  }

  /** What each frame meets when `lag` frames before it were rejected. */
  function Verdicts(keys: Keys, nonce: u64, lag: nat, arrivals: seq<Arrival>): (rs: seq<Result<Message>>)
    ensures |rs| == |arrivals|
    decreases |arrivals|
  {
    if arrivals == [] then [] else
      var a, genuine := arrivals[0], Genuine(keys, nonce, arrivals[0]);
      var r :=
        if !genuine then Err(BadSignature)
        else if lag % TWO_TO_THE_64 != 0 then Err(DecryptionFailed)
        else Ok(a.message.message);
      [r] + Verdicts(keys, Next(nonce), if genuine then lag else lag + 1, arrivals[1..])
  }

  lemma AdvanceReturns(a: u64, lag: nat)
    ensures Advance(a, lag) == a <==> lag % TWO_TO_THE_64 == 0
  {
    var q, r := lag / TWO_TO_THE_64, lag % TWO_TO_THE_64;
    if a + r < TWO_TO_THE_64 {
      DivisionIsUnique(a + lag, TWO_TO_THE_64, q, a + r);
    } else {
      DivisionIsUnique(a + lag, TWO_TO_THE_64, q + 1, a + r - TWO_TO_THE_64);
    }
  }

  lemma OneArrival(suite: Suite, keys: Keys, c: ClientState, nonce: u64, lag: nat, a: Arrival, rest: seq<Octet>)
    requires Ready(suite, keys, c) && WellFormed(a)
    requires nonce == Advance(c.recvNonce, lag)
    requires c.stream.value.inbound
          == WriteFrame(DownHeader(a.message), c.headerKey, a.signature, DownBody(keys, nonce, a.message)) + rest
    ensures var moved := SetInbound(c, rest).(headerKey := Xor(DownHeader(a.message), c.headerKey));
            Receive(suite, c)
            == if !Genuine(keys, nonce, a) then (moved, Err(BadSignature))
               else (moved.(recvNonce := Next(c.recvNonce)),
                     if lag % TWO_TO_THE_64 != 0 then Err(DecryptionFailed) else Ok(a.message.message))
  {
    hide Pack, Unpack, Xor, Seal, Sign, CreateNonce;
    var m, body := a.message, DownBody(keys, nonce, a.message);
    DownHeaderFields(m);
    ReadsBack(suite, DownHeader(m), c.headerKey, a.signature, body, 0, c.stream.value.inbound);
    assert body[..|body|] == body;
    AdvanceReturns(c.recvNonce, lag);
    CreateNonceInjective(c.recvNonce, nonce);
    if lag % TWO_TO_THE_64 != 0 {
      OpenOtherNonce(keys.down, CreateNonce(c.recvNonce), CreateNonce(nonce), m.message.data);
    } else {
      OpensIffSealed(keys.down, CreateNonce(nonce), body, m.message.data);
    }
  }

  /** The lag between the pool's counter and the client's only grows, and decides every verdict. */
  lemma {:induction false} LagDecides(suite: Suite, keys: Keys, c: ClientState, nonce: u64, lag: nat,
                                      arrivals: seq<Arrival>)
    requires Ready(suite, keys, c) && (forall a <- arrivals :: WellFormed(a))
    requires nonce == Advance(c.recvNonce, lag)
    requires c.stream.value.inbound == Arrivals(keys, c.headerKey, nonce, arrivals)
    ensures ReceiveTimes(suite, c, |arrivals|) == Verdicts(keys, nonce, lag, arrivals)
    decreases |arrivals|
  {
    hide Pack, Unpack, Xor, Receive, WriteFrame, CreateNonce, DownHeader, DownBody, Genuine, FitsDown;
    if arrivals == [] {
    } else {
      var a := arrivals[0];
      assert WellFormed(a);
      var more := Arrivals(keys, Xor(DownHeader(a.message), c.headerKey), Next(nonce), arrivals[1..]);
      OneArrival(suite, keys, c, nonce, lag, a, more);
      var next := Receive(suite, c).0;
      AdvanceNext(c.recvNonce, lag);
      LagDecides(suite, keys, next, Next(nonce), if Genuine(keys, nonce, a) then lag else lag + 1, arrivals[1..]);
    }
  }

  /** How many of these frames carry a signature that is not the pool's own for their place in the stream. */
  function Rejections(keys: Keys, nonce: u64, arrivals: seq<Arrival>): (n: nat)
    ensures n <= |arrivals|
    decreases |arrivals|
  {
    if arrivals == [] then 0
    else (if Genuine(keys, nonce, arrivals[0]) then 0 else 1) + Rejections(keys, Next(nonce), arrivals[1..])
  }

  lemma {:induction false} VerdictAt(keys: Keys, nonce: u64, lag: nat, arrivals: seq<Arrival>, i: nat)
    requires i < |arrivals|
    ensures var r := Verdicts(keys, nonce, lag, arrivals)[i];
            && (r.Ok? <==> Genuine(keys, Advance(nonce, i), arrivals[i])
                           && (lag + Rejections(keys, nonce, arrivals[..i])) % TWO_TO_THE_64 == 0)
            && (r.Ok? ==> r.value == arrivals[i].message.message)
    decreases |arrivals|
  {
    hide Genuine, Next, Advance;
    var tail := arrivals[1..];
    if i == 0 {
      AdvanceNext(nonce, 0);
      assert arrivals[..0] == [];
    } else {
      assert arrivals[..i][1..] == tail[..i - 1];
      AdvanceNext(nonce, i - 1);
      VerdictAt(keys, Next(nonce), if Genuine(keys, nonce, arrivals[0]) then lag else lag + 1, tail, i - 1);
    }
  }

  /**
    * One rejection ends the session: from matched counters, a frame is delivered exactly when it is genuine and the
    * number of frames rejected before it is a multiple of 2^64. So after the first rejection nothing, signed or
    * not, is delivered again, until 2^64 frames have been rejected and the counters meet once more.
    */
  lemma RejectionIsPermanent(suite: Suite, keys: Keys, c: ClientState, arrivals: seq<Arrival>, i: nat)
    requires Ready(suite, keys, c) && (forall a <- arrivals :: WellFormed(a))
    requires i < |arrivals|
    requires c.stream.value.inbound == Arrivals(keys, c.headerKey, c.recvNonce, arrivals)
    ensures var r := ReceiveTimes(suite, c, |arrivals|)[i];
            var rejected := Rejections(keys, c.recvNonce, arrivals[..i]);
            && (r.Ok? <==> Genuine(keys, Advance(c.recvNonce, i), arrivals[i]) && rejected % TWO_TO_THE_64 == 0)
            && (r.Ok? ==> r.value == arrivals[i].message.message)
            && (0 < rejected < TWO_TO_THE_64 ==> r.Err?)
  {
    hide Pack, Unpack, Xor, Receive, WriteFrame, DownHeader, DownBody, Genuine, FitsDown, Ready, ReceiveTimes, Verdicts;
    assert c.stream.Some? by {
      ReadyHasStream(suite, keys, c);
    }
    AdvanceNext(c.recvNonce, 0);
    LagDecides(suite, keys, c, c.recvNonce, 0, arrivals);
    VerdictAt(keys, c.recvNonce, 0, arrivals, i);
  }
}
