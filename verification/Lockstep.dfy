/** A client and its mirror pool, joined by two byte streams, refine a pair of FIFO queues. */
module Lockstep {
  import opened Bytes
  import opened HeaderCodec
  import opened Crypto
  import opened Session
  import opened Framing

  /**
    * The two ends. The octets in flight are the client's socket: `outbound` is written and not yet taken by the
    * pool, `inbound` is written by the pool and not yet read. The histories record what was sent and delivered.
    */
  datatype World = World(
    client: ClientState,
    pool: MirrorPool,
    clientSent: seq<Message>,
    poolGot: seq<Message>,
    poolSent: seq<PoolMessage>,
    clientGot: seq<Message>)

  datatype Event =
    | ClientSends(up: Message)
    | PoolReceives
    | PoolSends(down: PoolMessage)
    | ClientReceives

  function Outbound(w: World): seq<Octet>
    requires w.client.stream.Some?
  {
    w.client.stream.value.outbound
  }

  function Inbound(w: World): seq<Octet>
    requires w.client.stream.Some?
  {
    w.client.stream.value.inbound
  }

  /** One critical section of one of the ends, with whatever result it has. */
  function Step(suite: Suite, keys: Keys, w: World, e: Event): (v: World)
    requires w.client.stream.Some?
    ensures v.client.stream.Some?
  {
    match e
    case ClientSends(m) =>
      var (after, r) := Send(suite, w.client, m.command, m.data, 3);
      w.(client := after, clientSent := if r.Ok? then w.clientSent + [m] else w.clientSent)
    case PoolReceives =>
      var (after, r, rest) := PoolReceive(suite, keys, w.pool, Outbound(w));
      w.(pool := after,
         client := w.client.(stream := Some(Socket(Inbound(w), rest))),
         poolGot := if r.Ok? then w.poolGot + [r.value] else w.poolGot)
    case PoolSends(m) =>
      var (after, frame) := PoolSend(keys, w.pool, m);
      w.(pool := after,
         client := SetInbound(w.client, Inbound(w) + frame),
         poolSent := w.poolSent + [m])
    case ClientReceives =>
      var (after, r) := Receive(suite, w.client);
      w.(client := after, clientGot := if r.Ok? then w.clientGot + [r.value] else w.clientGot)
  }

  /**
    * The ordered, half-duplex discipline: an end sends only when nothing sent by the other end is in flight,
    * and receives only when something is. Messages respect the exact delivery conditions of `Framing`.
    */
  predicate Enabled(w: World, e: Event)
    requires w.client.stream.Some?
  {
    match e
    case ClientSends(m) => Inbound(w) == [] && FitsUp(m)
    case PoolReceives => Outbound(w) != []
    case PoolSends(m) => Outbound(w) == [] && FitsDown(m)
    case ClientReceives => Inbound(w) != []
  }

  function Run(suite: Suite, keys: Keys, w: World, es: seq<Event>): (v: World)
    requires w.client.stream.Some?
    ensures v.client.stream.Some?
    decreases |es|
  {
    if es == [] then w else Run(suite, keys, Step(suite, keys, w, es[0]), es[1..])
  }

  predicate Ordered(suite: Suite, keys: Keys, w: World, es: seq<Event>)
    requires w.client.stream.Some?
    decreases |es|
  {
    es == [] || (Enabled(w, es[0]) && Ordered(suite, keys, Step(suite, keys, w, es[0]), es[1..]))
  }

  // ----- the abstract machine

  /** Two FIFO queues, and what has come out of each. */
  datatype Queues = Queues(up: seq<Message>, down: seq<Message>, poolGot: seq<Message>, clientGot: seq<Message>)

  function QueueStep(q: Queues, e: Event): Queues {
    match e
    case ClientSends(m) => q.(up := q.up + [m])
    case PoolReceives => if q.up == [] then q else q.(up := q.up[1..], poolGot := q.poolGot + [q.up[0]])
    case PoolSends(m) => q.(down := q.down + [m.message])
    case ClientReceives => if q.down == [] then q else q.(down := q.down[1..], clientGot := q.clientGot + [q.down[0]])
  }

  function QueueRun(q: Queues, es: seq<Event>): Queues
    decreases |es|
  {
    if es == [] then q else QueueRun(QueueStep(q, es[0]), es[1..])
  }

  /** The half-duplex discipline read off the queues alone: no keys, no octets. */
  predicate QueueEnabled(q: Queues, e: Event) {
    match e
    case ClientSends(m) => q.down == [] && FitsUp(m)
    case PoolReceives => q.up != []
    case PoolSends(m) => q.up == [] && FitsDown(m)
    case ClientReceives => q.down != []
  }

  predicate QueueOrdered(q: Queues, es: seq<Event>)
    decreases |es|
  {
    es == [] || (QueueEnabled(q, es[0]) && QueueOrdered(QueueStep(q, es[0]), es[1..]))
  }

  const NO_QUEUES: Queues := Queues([], [], [], [])

  // ----- the invariant

  function UpFrames(keys: Keys, key: Word, nonce: u64, ms: seq<Message>): seq<Octet>
    decreases |ms|
  {
    if ms == [] then [] else UpFrame(keys, key, nonce, ms[0]) + UpFrames(keys, UpHeader(ms[0]), Next(nonce), ms[1..])
  }

  function UpKey(key: Word, ms: seq<Message>): Word {
    if ms == [] then key else UpHeader(ms[|ms| - 1])
  }

  /** The messages still in flight in each direction. */
  function Rising(w: World): seq<Message>
    requires |w.poolGot| <= |w.clientSent|
  {
    w.clientSent[|w.poolGot|..]
  }

  function Falling(w: World): seq<PoolMessage>
    requires |w.clientGot| <= |w.poolSent|
  {
    w.poolSent[|w.clientGot|..]
  }

  /** What is in flight is exactly the frames of the undelivered messages, keyed from the reader's state. */
  predicate InStep(suite: Suite, keys: Keys, w: World) {
    && Ready(suite, keys, w.client)
    && w.poolGot <= w.clientSent
    && w.clientGot <= Plain(w.poolSent)
    && (forall m <- Rising(w) :: FitsUp(m))
    && (forall m <- Falling(w) :: FitsDown(m))
    && Outbound(w) == UpFrames(keys, w.pool.headerKey, w.pool.recvNonce, Rising(w))
    && Inbound(w) == DownFrames(keys, w.client.headerKey, w.client.recvNonce, Falling(w))
    && w.client.sendNonce == Advance(w.pool.recvNonce, |Rising(w)|)
    && w.pool.sendNonce == Advance(w.client.recvNonce, |Falling(w)|)
    && (Rising(w) == [] || Falling(w) == [])
    && (Falling(w) == [] ==> w.client.headerKey == UpKey(w.pool.headerKey, Rising(w)))
    && (Rising(w) == [] ==> w.pool.headerKey == DownKey(w.client.headerKey, Falling(w)))
  }

  function Abstract(w: World): Queues
    requires |w.poolGot| <= |w.clientSent| && |w.clientGot| <= |w.poolSent|
  {
    Queues(Rising(w), Plain(Falling(w)), w.poolGot, w.clientGot)
  }

  // ----- appending to a stream

  lemma {:induction false} UpFramesAppend(keys: Keys, key: Word, nonce: u64, ms: seq<Message>, m: Message)
    ensures UpFrames(keys, key, nonce, ms + [m])
         == UpFrames(keys, key, nonce, ms) + UpFrame(keys, UpKey(key, ms), Advance(nonce, |ms|), m)
    decreases |ms|
  {
    if ms == [] {
      AdvanceNext(nonce, 0);
      assert ([] + [m])[1..] == [];
    } else {
      assert (ms + [m])[1..] == ms[1..] + [m];
      UpFramesAppend(keys, UpHeader(ms[0]), Next(nonce), ms[1..], m);
      AdvanceNext(nonce, |ms| - 1);
    }
  }

  lemma {:induction false} DownFramesAppend(keys: Keys, key: Word, nonce: u64, ms: seq<PoolMessage>, m: PoolMessage)
    ensures DownFrames(keys, key, nonce, ms + [m])
         == DownFrames(keys, key, nonce, ms) + DownFrame(keys, DownKey(key, ms), Advance(nonce, |ms|), m)
    ensures DownKey(key, ms + [m]) == Xor(DownHeader(m), DownKey(key, ms))
    decreases |ms|
  {
    if ms == [] {
      AdvanceNext(nonce, 0);
      assert ([] + [m])[1..] == [];
    } else {
      assert (ms + [m])[1..] == ms[1..] + [m];
      DownFramesAppend(keys, Xor(DownHeader(ms[0]), key), Next(nonce), ms[1..], m);
      AdvanceNext(nonce, |ms| - 1);
    }
  }

  // ----- every step keeps the invariant and is a step of the queues

  lemma ClientSendsInStep(suite: Suite, keys: Keys, w: World, m: Message)
    requires InStep(suite, keys, w) && Enabled(w, ClientSends(m))
    ensures InStep(suite, keys, Step(suite, keys, w, ClientSends(m)))
    ensures Abstract(Step(suite, keys, w, ClientSends(m))) == QueueStep(Abstract(w), ClientSends(m))
  {
    hide Send, UpFrame, UpHeader, DownFrame, Xor, DownHeader;
    assert Falling(w) == [];
    SendWritesUpFrame(suite, keys, w.client, m);
    var v := Step(suite, keys, w, ClientSends(m));
    assert Rising(v) == Rising(w) + [m];
    assert Falling(v) == Falling(w);
    UpFramesAppend(keys, w.pool.headerKey, w.pool.recvNonce, Rising(w), m);
    AdvanceNext(w.pool.recvNonce, |Rising(w)|);
  }

  lemma PoolSendsInStep(suite: Suite, keys: Keys, w: World, m: PoolMessage)
    requires InStep(suite, keys, w) && Enabled(w, PoolSends(m))
    ensures InStep(suite, keys, Step(suite, keys, w, PoolSends(m)))
    ensures Abstract(Step(suite, keys, w, PoolSends(m))) == QueueStep(Abstract(w), PoolSends(m))
  {
    hide UpFrame, UpHeader, DownFrame, Xor, DownHeader;
    assert Rising(w) == [];
    var v := Step(suite, keys, w, PoolSends(m));
    assert Falling(v) == Falling(w) + [m];
    assert Plain(Falling(v)) == Plain(Falling(w)) + [m.message];
    assert Plain(v.poolSent) == Plain(w.poolSent) + [m.message];
    assert Rising(v) == Rising(w);
    DownFramesAppend(keys, w.client.headerKey, w.client.recvNonce, Falling(w), m);
    AdvanceNext(w.client.recvNonce, |Falling(w)|);
  }

  lemma PoolReceivesInStep(suite: Suite, keys: Keys, w: World)
    requires InStep(suite, keys, w) && Enabled(w, PoolReceives)
    ensures InStep(suite, keys, Step(suite, keys, w, PoolReceives))
    ensures Abstract(Step(suite, keys, w, PoolReceives)) == QueueStep(Abstract(w), PoolReceives)
  {
    hide PoolReceive, UpFrame, UpHeader, DownFrame, Xor, DownHeader;
    var m, later := Rising(w)[0], Rising(w)[1..];
    assert FitsUp(m);
    UpFrameIsDelivered(suite, keys, w.pool, m, UpFrames(keys, UpHeader(m), Next(w.pool.recvNonce), later));
    var v := Step(suite, keys, w, PoolReceives);
    assert Rising(v) == later;
    assert Falling(v) == Falling(w);
    AdvanceNext(w.pool.recvNonce, |later|);
  }

  lemma ClientReceivesInStep(suite: Suite, keys: Keys, w: World)
    requires InStep(suite, keys, w) && Enabled(w, ClientReceives)
    ensures InStep(suite, keys, Step(suite, keys, w, ClientReceives))
    ensures Abstract(Step(suite, keys, w, ClientReceives)) == QueueStep(Abstract(w), ClientReceives)
  {
    hide Receive, UpFrame, UpHeader, DownFrame, Xor, DownHeader;
    var m, later := Falling(w)[0], Falling(w)[1..];
    assert FitsDown(m);
    var rest := DownFrames(keys, Xor(DownHeader(m), w.client.headerKey), Next(w.client.recvNonce), later);
    DownFrameIsDelivered(suite, keys, w.client, m, rest);
    var v := Step(suite, keys, w, ClientReceives);
    assert Falling(v) == later;
    assert Plain(Falling(w)) == [m.message] + Plain(later);
    assert Rising(v) == Rising(w);
    assert Plain(w.poolSent)[|w.clientGot|] == m.message;
    AdvanceNext(w.client.recvNonce, |later|);
  }

  lemma StepInStep(suite: Suite, keys: Keys, w: World, e: Event)
    requires InStep(suite, keys, w) && Enabled(w, e)
    ensures InStep(suite, keys, Step(suite, keys, w, e))
    ensures Abstract(Step(suite, keys, w, e)) == QueueStep(Abstract(w), e)
  {
    match e
    case ClientSends(m) => ClientSendsInStep(suite, keys, w, m);
    case PoolReceives => PoolReceivesInStep(suite, keys, w);
    case PoolSends(m) => PoolSendsInStep(suite, keys, w, m);
    case ClientReceives => ClientReceivesInStep(suite, keys, w);
  }

  /**
    * Session refinement. Every ordered run of the two ends is a run of the pair of FIFO queues: what comes out
    * of each direction is what the queues deliver, and the two ends stay in step throughout.
    */
  lemma {:induction false} SessionRefinesQueues(suite: Suite, keys: Keys, w: World, es: seq<Event>)
    requires InStep(suite, keys, w) && Ordered(suite, keys, w, es)
    ensures InStep(suite, keys, Run(suite, keys, w, es))
    ensures Abstract(Run(suite, keys, w, es)) == QueueRun(Abstract(w), es)
    decreases |es|
  {
    assert w.client.stream.Some?;
    if es == [] {
    } else {
      StepInStep(suite, keys, w, es[0]);
      SessionRefinesQueues(suite, keys, Step(suite, keys, w, es[0]), es[1..]);
    }
  }

  lemma EnabledIffQueueEnabled(suite: Suite, keys: Keys, w: World, e: Event)
    requires InStep(suite, keys, w)
    ensures w.client.stream.Some?
    ensures Enabled(w, e) <==> QueueEnabled(Abstract(w), e)
  {
    assert Falling(w) != [] ==> |Inbound(w)| >= FrameSize(Falling(w)[0]);
    FrameIsNotEmpty(w);
  }

  lemma FrameIsNotEmpty(w: World)
    requires |w.clientGot| <= |w.poolSent|
    ensures Falling(w) != [] ==> FrameSize(Falling(w)[0]) > 0
  {
  }

  /** A run is ordered exactly when its events are, as seen by the queues. */
  lemma {:induction false} OrderedIffQueueOrdered(suite: Suite, keys: Keys, w: World, es: seq<Event>)
    requires InStep(suite, keys, w)
    ensures w.client.stream.Some?
    ensures Ordered(suite, keys, w, es) <==> QueueOrdered(Abstract(w), es)
    decreases |es|
  {
    assert w.client.stream.Some?;
    if es == [] {
    } else {
      EnabledIffQueueEnabled(suite, keys, w, es[0]);
      if Enabled(w, es[0]) {
        StepInStep(suite, keys, w, es[0]);
        OrderedIffQueueOrdered(suite, keys, Step(suite, keys, w, es[0]), es[1..]);
      }
    }
  }

  /** Two ends, nothing sent yet. */
  function Start(client: ClientState, pool: MirrorPool): World {
    World(client, pool, [], [], [], [])
  }

  predicate Quiet(w: World) {
    w.client.stream.Some? && Inbound(w) == [] && Outbound(w) == []
  }

  predicate Matched(c: ClientState, p: MirrorPool) {
    c.headerKey == p.headerKey && c.sendNonce == p.recvNonce && c.recvNonce == p.sendNonce
  }

  lemma MatchedStartIsInStep(suite: Suite, keys: Keys, c: ClientState, p: MirrorPool)
    requires Ready(suite, keys, c) && Quiet(Start(c, p)) && Matched(c, p)
    ensures InStep(suite, keys, Start(c, p)) && Abstract(Start(c, p)) == NO_QUEUES
  {
    AdvanceNext(c.sendNonce, 0);
    AdvanceNext(c.recvNonce, 0);
    assert Rising(Start(c, p)) == [] && Falling(Start(c, p)) == [];
  }

  /**
    * From a matched start, over every list of events that is half-duplex at the queues: the bytes exchanged
    * behave as the two queues do, deliveries are in-order prefixes of what was sent, and whenever nothing is in
    * flight everything sent has been delivered and the two ends hold equal keys and nonces.
    */
  lemma OrderedRunDelivers(suite: Suite, keys: Keys, c: ClientState, p: MirrorPool, es: seq<Event>)
    requires Ready(suite, keys, c) && Quiet(Start(c, p)) && Matched(c, p)
    requires QueueOrdered(NO_QUEUES, es)
    ensures var w := Run(suite, keys, Start(c, p), es);
            && w.poolGot <= w.clientSent && w.clientGot <= Plain(w.poolSent)
            && Abstract(w) == QueueRun(NO_QUEUES, es)
            && (Quiet(w) ==> w.poolGot == w.clientSent && w.clientGot == Plain(w.poolSent) && Matched(w.client, w.pool))
  {
    MatchedStartIsInStep(suite, keys, c, p);
    OrderedIffQueueOrdered(suite, keys, Start(c, p), es);
    SessionRefinesQueues(suite, keys, Start(c, p), es);
    var w := Run(suite, keys, Start(c, p), es);
    if Quiet(w) {
      EnabledIffQueueEnabled(suite, keys, w, PoolReceives);
      assert Rising(w) == [] && Falling(w) == [];
      AdvanceNext(w.pool.recvNonce, 0);
      AdvanceNext(w.client.recvNonce, 0);
    }
  }
}
