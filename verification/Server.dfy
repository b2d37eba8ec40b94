/** The tasks that share one client: the receive loop and the callers, interleaved section by section. */
module Server {
  import opened Bytes
  import opened HeaderCodec
  import opened Crypto
  import opened Session
  import opened Client
  import opened Framing
  import opened Lockstep

  /** The loop spawned by `start` and `reconnect_pool`: receive until an error. */
  method RunReceiveLoop(client: DatumProtocolClient, handler: Handler) returns (seen: seq<Message>, e: Error)
    modifies client
    ensures (client.State(), seen, e) == ReceiveLoop(client.suite, old(client.State()))
  {
    seen := [];
    ghost var start := client.State();
    assert [] + ReceiveLoop(client.suite, start).1 == ReceiveLoop(client.suite, start).1;
    while true
      invariant ReceiveLoop(client.suite, start) == LoopAfter(client.suite, seen, client.State())
      decreases if client.stream.Some? then |client.stream.value.inbound| else 0
    {
      ghost var before := client.State();
      LoopUnfolds(client.suite, seen, before);
      DispatchIsIdle(client.suite, before, handler);
      ReceiveShrinks(client.suite, before);
      var r := client.ReceiveMessage(handler);
      match r
      case Err(error) =>
        return seen, error;
      case Ok(m) =>
        seen := seen + [m];
    }
  }

  /** The loop's result once it has seen `seen` and the client is in state `c`. */
  function LoopAfter(suite: Suite, seen: seq<Message>, c: ClientState): (ClientState, seq<Message>, Error) {
    var (last, later, e) := ReceiveLoop(suite, c);
    (last, seen + later, e)
  }

  lemma LoopUnfolds(suite: Suite, seen: seq<Message>, c: ClientState)
    ensures var (after, r) := Receive(suite, c);
            LoopAfter(suite, seen, c)
            == if r.Ok? then LoopAfter(suite, seen + [r.value], after) else (after, seen, r.error)
  {
    hide Receive;
    var (after, r) := Receive(suite, c);
    if r.Ok? {
      assert seen + ([r.value] + ReceiveLoop(suite, after).1) == seen + [r.value] + ReceiveLoop(suite, after).1;
    } else {
      assert seen + [] == seen;
    }
  }

  lemma ReceiveShrinks(suite: Suite, c: ClientState)
    ensures var (after, r) := Receive(suite, c);
            r.Ok? ==> c.stream.Some? && after.stream.Some?
                      && |after.stream.value.inbound| < |c.stream.value.inbound|
  {
  }

  // ----- any interleaving

  datatype Task = ReceiveLoopTask | Caller(id: nat)

  /** One critical section, and the task that runs it. */
  datatype Turn = SendTurn(sender: Task, message: Message, writes: nat) | ReceiveTurn(receiver: Task)

  /** What one receive took off the wire, who took it, and what it made of it. */
  datatype Taken = Taken(task: Task, octets: seq<Octet>, result: Result<Message>)

  function TakenBy(suite: Suite, c: ClientState, task: Task): Taken
    requires c.stream.Some?
  {
    var before := c.stream.value.inbound;
    var (after, r) := Receive(suite, c);
    var left := |after.stream.value.inbound|;
    Taken(task, if left <= |before| then before[..|before| - left] else [], r)
  }

  function Interleave(suite: Suite, c: ClientState, turns: seq<Turn>): (ClientState, seq<Taken>)
    requires c.stream.Some?
    decreases |turns|
  {
    if turns == [] then (c, []) else
      match turns[0]
      case SendTurn(_, m, writes) => Interleave(suite, Send(suite, c, m.command, m.data, writes).0, turns[1..])
      case ReceiveTurn(task) =>
        var (last, later) := Interleave(suite, Receive(suite, c).0, turns[1..]);
        (last, [TakenBy(suite, c, task)] + later)
  }

  function Octets(taken: seq<Taken>): seq<Octet> {
    if taken == [] then [] else taken[0].octets + Octets(taken[1..])
  }

  /** The receive turns of a schedule, in order, by task. */
  function Receivers(turns: seq<Turn>): seq<Task> {
    if turns == [] then []
    else (if turns[0].ReceiveTurn? then [turns[0].receiver] else []) + Receivers(turns[1..])
  }

  function Tasks(taken: seq<Taken>): (ts: seq<Task>)
    ensures |ts| == |taken|
  {
    seq(|taken|, i requires 0 <= i < |taken| => taken[i].task)
  }

  lemma ReceiveTakesAFront(suite: Suite, c: ClientState)
    requires c.stream.Some?
    ensures var after := Receive(suite, c).0;
            after.stream.Some? && c.stream.value.inbound
            == TakenBy(suite, c, ReceiveLoopTask).octets + after.stream.value.inbound
  {
    hide Unpack, Xor;
    var inbound := c.stream.value.inbound;
    var left := Receive(suite, c).0.stream.value.inbound;
    match ReadFrame(suite, c.headerKey, inbound, 0)
    case NoHeader => assert left == [];
    case Short(_) => assert left == [];
    case Complete(_, header, _, _, rest) =>
      assert left == rest == inbound[|inbound| - |rest|..];
  }

  /**
    * Conservation: under every interleaving of sends and receives, by whatever tasks, the octets taken are, in
    * the order of the receive turns, exactly the wire up to what is left, and each piece went to the one task
    * whose turn it was.
    */
  lemma {:induction false} WireIsConserved(suite: Suite, c: ClientState, turns: seq<Turn>)
    requires c.stream.Some?
    ensures var (last, taken) := Interleave(suite, c, turns);
            && last.stream.Some?
            && c.stream.value.inbound == Octets(taken) + last.stream.value.inbound
            && Tasks(taken) == Receivers(turns)
    decreases |turns|
  {
    hide *;
    if turns == [] {
      NoTurns(suite, c);
      assert c.stream.value.inbound == [] + c.stream.value.inbound;
    } else {
      TurnUnfolds(suite, c, turns);
      match turns[0]
      case SendTurn(_, m, writes) =>
        SendKeepsInbound(suite, c, m, writes);
        WireIsConserved(suite, Send(suite, c, m.command, m.data, writes).0, turns[1..]);
      case ReceiveTurn(task) =>
        ReceiveTakesAFront(suite, c);
        TakenByTask(suite, c, task);
        var after := Receive(suite, c).0;
        WireIsConserved(suite, after, turns[1..]);
        var piece, later := TakenBy(suite, c, task), Interleave(suite, after, turns[1..]).1;
        TakenUnfolds(piece, later);
        var left := Interleave(suite, after, turns[1..]).0.stream.value.inbound;
        assert piece.octets + (Octets(later) + left) == piece.octets + Octets(later) + left;
    }
  }

  lemma NoTurns(suite: Suite, c: ClientState)
    requires c.stream.Some?
    ensures Interleave(suite, c, []) == (c, []) && Octets([]) == [] && Tasks([]) == [] && Receivers([]) == []
  {
  }

  lemma TurnUnfolds(suite: Suite, c: ClientState, turns: seq<Turn>)
    requires c.stream.Some? && turns != []
    ensures var t := turns[0];
            if t.SendTurn? then
              var next := Send(suite, c, t.message.command, t.message.data, t.writes).0;
              && Interleave(suite, c, turns) == Interleave(suite, next, turns[1..])
              && Receivers(turns) == Receivers(turns[1..])
            else
              var (last, later) := Interleave(suite, Receive(suite, c).0, turns[1..]);
              && Interleave(suite, c, turns) == (last, [TakenBy(suite, c, t.receiver)] + later)
              && Receivers(turns) == [t.receiver] + Receivers(turns[1..])
  {
    hide Receive, Send, TakenBy;
  }

  lemma TakenUnfolds(piece: Taken, later: seq<Taken>)
    ensures Octets([piece] + later) == piece.octets + Octets(later)
    ensures Tasks([piece] + later) == [piece.task] + Tasks(later)
  {
    assert ([piece] + later)[1..] == later;
  }

  lemma TakenByTask(suite: Suite, c: ClientState, task: Task)
    requires c.stream.Some?
    ensures TakenBy(suite, c, task) == TakenBy(suite, c, ReceiveLoopTask).(task := task)
  {
  }

  lemma SendKeepsInbound(suite: Suite, c: ClientState, m: Message, writes: nat)
    requires c.stream.Some?
    ensures var after := Send(suite, c, m.command, m.data, writes).0;
            after.stream.Some? && after.stream.value.inbound == c.stream.value.inbound
  {
  }

  // ----- ordered interleavings against the mirror pool

  /** An event of the two-ended system and the client task it belongs to, if any. */
  datatype Labelled = Labelled(event: Event, task: Task)

  function Events(ls: seq<Labelled>): (es: seq<Event>)
    ensures |es| == |ls|
  {
    seq(|ls|, i requires 0 <= i < |ls| => ls[i].event)
  }

  /** The tasks that receive, in order. */
  function ReceivingTasks(ls: seq<Labelled>): seq<Task> {
    if ls == [] then []
    else (if ls[0].event.ClientReceives? then [ls[0].task] else []) + ReceivingTasks(ls[1..])
  }

  /** Who was handed which message, in order. */
  function Handed(suite: Suite, keys: Keys, w: World, ls: seq<Labelled>): seq<(Task, Message)>
    requires w.client.stream.Some?
    decreases |ls|
  {
    if ls == [] then [] else
      var next := Step(suite, keys, w, ls[0].event);
      (if ls[0].event.ClientReceives? && |next.clientGot| == |w.clientGot| + 1
       then [(ls[0].task, next.clientGot[|w.clientGot|])] else [])
      + Handed(suite, keys, next, ls[1..])
  }

  function Pair(ts: seq<Task>, ms: seq<Message>): (ps: seq<(Task, Message)>)
    requires |ts| == |ms|
  {
    seq(|ts|, i requires 0 <= i < |ts| => (ts[i], ms[i]))
  }

  lemma NoTurn(suite: Suite, keys: Keys, w: World)
    requires w.client.stream.Some?
    ensures Run(suite, keys, w, Events([])) == w && Handed(suite, keys, w, []) == [] && ReceivingTasks([]) == []
  {
  }

  /** The first event of an ordered run, taken off. */
  lemma OneTurn(suite: Suite, keys: Keys, w: World, ls: seq<Labelled>)
    requires InStep(suite, keys, w) && ls != [] && Ordered(suite, keys, w, Events(ls))
    ensures var next := Step(suite, keys, w, ls[0].event);
            var received := ls[0].event.ClientReceives?;
            && InStep(suite, keys, next) && Ordered(suite, keys, next, Events(ls[1..]))
            && Run(suite, keys, w, Events(ls)) == Run(suite, keys, next, Events(ls[1..]))
            && w.clientGot <= next.clientGot && |next.clientGot| == |w.clientGot| + (if received then 1 else 0)
            && Handed(suite, keys, w, ls)
               == (if received then [(ls[0].task, next.clientGot[|w.clientGot|])] else [])
                  + Handed(suite, keys, next, ls[1..])
            && ReceivingTasks(ls) == (if received then [ls[0].task] else []) + ReceivingTasks(ls[1..])
  {
    assert w.client.stream.Some?;
    hide InStep, Step, Enabled, Abstract, QueueStep;
    var e := ls[0].event;
    assert Events(ls)[0] == e && Events(ls)[1..] == Events(ls[1..]);
    StepInStep(suite, keys, w, e);
    OneDelivery(suite, keys, w, e);
  }

  /**
    * In every ordered run the j-th answer of the pool goes to the task of the j-th receive, whoever sent the j-th
    * request: a caller gets its own answer exactly when its receive has the same rank as its request.
    */
  lemma {:induction false} AnswersFollowReceives(suite: Suite, keys: Keys, w: World, ls: seq<Labelled>)
    requires InStep(suite, keys, w) && Ordered(suite, keys, w, Events(ls))
    ensures var v := Run(suite, keys, w, Events(ls));
            && w.clientGot <= v.clientGot <= Plain(v.poolSent)
            && |v.clientGot| == |w.clientGot| + |ReceivingTasks(ls)|
            && Handed(suite, keys, w, ls) == Pair(ReceivingTasks(ls), v.clientGot[|w.clientGot|..])
    decreases |ls|
  {
    hide *;
    InStepFacts(suite, keys, w);
    if ls == [] {
      NoTurn(suite, keys, w);
      PairNone(w.clientGot);
    } else {
      OneTurn(suite, keys, w, ls);
      var next := Step(suite, keys, w, ls[0].event);
      AnswersFollowReceives(suite, keys, next, ls[1..]);
      if ls[0].event.ClientReceives? {
        var v := Run(suite, keys, w, Events(ls));
        PairOne(ls[0].task, ReceivingTasks(ls[1..]), w.clientGot, next.clientGot, v.clientGot);
      } else {
        assert next.clientGot == w.clientGot;
        assert [] + Handed(suite, keys, next, ls[1..]) == Handed(suite, keys, next, ls[1..]);
        assert [] + ReceivingTasks(ls[1..]) == ReceivingTasks(ls[1..]);
      }
    }
  }

  lemma PairNone(got: seq<Message>)
    ensures Pair([], got[|got|..]) == []
  {
  }

  lemma PairOne(t: Task, ts: seq<Task>, before: seq<Message>, next: seq<Message>, last: seq<Message>)
    requires before <= next <= last && |next| == |before| + 1 && |last| == |next| + |ts|
    ensures Pair([t] + ts, last[|before|..]) == [(t, next[|before|])] + Pair(ts, last[|next|..])
  {
  }

  lemma InStepFacts(suite: Suite, keys: Keys, w: World)
    requires InStep(suite, keys, w)
    ensures w.client.stream.Some? && w.clientGot <= Plain(w.poolSent)
  {
  }

  /** A step hands over one message if it is a receive, and none otherwise. */
  lemma OneDelivery(suite: Suite, keys: Keys, w: World, e: Event)
    requires InStep(suite, keys, w) && Enabled(w, e)
    ensures var v := Step(suite, keys, w, e);
            && w.clientGot <= v.clientGot
            && |v.clientGot| == |w.clientGot| + (if e.ClientReceives? then 1 else 0)
  {
    StepInStep(suite, keys, w, e);
    if e.ClientReceives? {
      assert Plain(Falling(w)) != [];
      ReceiveDelivers(suite, keys, w);
    }
  }

  lemma ReceiveDelivers(suite: Suite, keys: Keys, w: World)
    requires InStep(suite, keys, w) && Enabled(w, ClientReceives)
    ensures Receive(suite, w.client).1.Ok?
  {
    var m, later := Falling(w)[0], Falling(w)[1..];
    assert FitsDown(m);
    DownFrameIsDelivered(suite, keys, w.client, m,
                         DownFrames(keys, Xor(DownHeader(m), w.client.headerKey), Next(w.client.recvNonce), later));
  }

  /** With the receive loop running, an answer can go to the loop and leave the caller that asked without one. */
  lemma LoopTakesTheAnswer(suite: Suite, keys: Keys, c: ClientState, p: MirrorPool, m: Message, d: PoolMessage, id: nat)
    requires Ready(suite, keys, c) && Quiet(Start(c, p)) && Matched(c, p) && FitsUp(m) && FitsDown(d)
    ensures var ls := [Labelled(ClientSends(m), Caller(id)), Labelled(PoolReceives, Caller(id)),
                       Labelled(PoolSends(d), Caller(id)), Labelled(ClientReceives, ReceiveLoopTask)];
            && Ordered(suite, keys, Start(c, p), Events(ls))
            && Handed(suite, keys, Start(c, p), ls) == [(ReceiveLoopTask, d.message)]
  {
    hide Step, Enabled, Ordered, Ready, FitsUp, FitsDown, InStep, Handed, Matched, Quiet;
    var ls := [Labelled(ClientSends(m), Caller(id)), Labelled(PoolReceives, Caller(id)),
               Labelled(PoolSends(d), Caller(id)), Labelled(ClientReceives, ReceiveLoopTask)];
    var es := [ClientSends(m), PoolReceives, PoolSends(d), ClientReceives];
    assert Events(ls) == es;
    MatchedStartIsInStep(suite, keys, c, p);
    FourEvents(m, d);
    OrderedIffQueueOrdered(suite, keys, Start(c, p), es);
    OrderedRunDelivers(suite, keys, c, p, es);
    AnswersFollowReceives(suite, keys, Start(c, p), ls);
    OneReceiver(ls);
    assert Run(suite, keys, Start(c, p), es).clientGot[0..] == [d.message];
  }

  lemma FourEvents(m: Message, d: PoolMessage)
    requires FitsUp(m) && FitsDown(d)
    ensures var es := [ClientSends(m), PoolReceives, PoolSends(d), ClientReceives];
            QueueOrdered(NO_QUEUES, es) && QueueRun(NO_QUEUES, es) == Queues([], [], [m], [d.message])
  {
    var es := [ClientSends(m), PoolReceives, PoolSends(d), ClientReceives];
    assert es[1..] == [PoolReceives, PoolSends(d), ClientReceives];
    assert es[1..][1..] == [PoolSends(d), ClientReceives];
    assert es[1..][1..][1..] == [ClientReceives];
    var q1 := QueueStep(NO_QUEUES, es[0]);
    var q2 := QueueStep(q1, PoolReceives);
    var q3 := QueueStep(q2, PoolSends(d));
    assert QueueOrdered(q3, [ClientReceives]) && QueueRun(q3, [ClientReceives]) == QueueStep(q3, ClientReceives);
    assert QueueOrdered(q2, es[1..][1..]) && QueueRun(q2, es[1..][1..]) == QueueStep(q3, ClientReceives);
    assert QueueOrdered(q1, es[1..]) && QueueRun(q1, es[1..]) == QueueStep(q3, ClientReceives);
  }

  lemma OneReceiver(ls: seq<Labelled>)
    requires |ls| == 4 && ls[3].event.ClientReceives?
    requires forall i :: 0 <= i < 3 ==> !ls[i].event.ClientReceives?
    ensures ReceivingTasks(ls) == [ls[3].task]
  {
    assert ls[1..][1..][1..] == [ls[3]];
    assert ReceivingTasks([ls[3]]) == [ls[3].task];
    assert ReceivingTasks(ls[1..][1..]) == [ls[3].task];
    assert ReceivingTasks(ls[1..]) == [ls[3].task];
  }

  // ----- serialised requests

  /** A request and the pool's answer to it. */
  datatype Exchange = Exchange(request: Message, answer: PoolMessage)

  predicate Fair(x: Exchange) {
    FitsUp(x.request) && FitsDown(x.answer) && x.answer.message.command == x.request.command
  }

  /** The inbound stream of a mirror pool that answers each request after taking it. */
  function AnswerStream(keys: Keys, recvNonce: u64, xs: seq<Exchange>): seq<Octet>
    decreases |xs|
  {
    if xs == [] then [] else
      DownFrame(keys, UpHeader(xs[0].request), recvNonce, xs[0].answer) + AnswerStream(keys, Next(recvNonce), xs[1..])
  }

  /** The outbound stream of a client that makes these requests, each after the answer to the one before. */
  function RequestStream(keys: Keys, key: Word, sendNonce: u64, xs: seq<Exchange>): seq<Octet>
    decreases |xs|
  {
    if xs == [] then [] else
      UpFrame(keys, key, sendNonce, xs[0].request)
      + RequestStream(keys, Xor(DownHeader(xs[0].answer), UpHeader(xs[0].request)), Next(sendNonce), xs[1..])
  }

  /** The header key both ends hold after these exchanges. */
  function KeyAfter(key: Word, xs: seq<Exchange>): Word {
    if xs == [] then key else
      var x := xs[|xs| - 1];
      Xor(DownHeader(x.answer), UpHeader(x.request))
  }

  lemma KeyAfterOne(key: Word, xs: seq<Exchange>)
    requires xs != []
    ensures KeyAfter(key, xs) == KeyAfter(Xor(DownHeader(xs[0].answer), UpHeader(xs[0].request)), xs[1..])
  {
    if |xs| > 1 {
      assert xs[1..][|xs| - 2] == xs[|xs| - 1];
    }
  }

  function Asked(xs: seq<Exchange>): (rs: seq<Result<Message>>)
    ensures |rs| == |xs|
  {
    seq(|xs|, i requires 0 <= i < |xs| => Ok(xs[i].request))
  }

  function Replies(xs: seq<Exchange>): (ms: seq<PoolMessage>)
    ensures |ms| == |xs|
  {
    seq(|xs|, i requires 0 <= i < |xs| => xs[i].answer)
  }

  /** A mirror pool that takes a request off the stream and then answers it, once for each answer it has. */
  function Serve(suite: Suite, keys: Keys, p: MirrorPool, octets: seq<Octet>, answers: seq<PoolMessage>)
    : (MirrorPool, seq<Result<Message>>, seq<Octet>)
    decreases |answers|
  {
    if answers == [] then (p, [], []) else
      var (taken, request, rest) := PoolReceive(suite, keys, p, octets);
      if request.Err? then (taken, [request], []) else
        var (next, frame) := PoolSend(keys, taken, answers[0]);
        var (last, requests, frames) := Serve(suite, keys, next, rest, answers[1..]);
        (last, [request] + requests, frame + frames)
  }

  /**
    * The pool's side of serialised requests: from the octets of these requests, whatever may follow them, a mirror
    * pool reads exactly the requests and writes exactly the answer stream.
    */
  lemma {:induction false} PoolServes(suite: Suite, keys: Keys, p: MirrorPool, xs: seq<Exchange>, later: seq<Octet>)
    requires forall x <- xs :: Fair(x)
    ensures Serve(suite, keys, p, RequestStream(keys, p.headerKey, p.recvNonce, xs) + later, Replies(xs))
         == (MirrorPool(KeyAfter(p.headerKey, xs), Advance(p.sendNonce, |xs|), Advance(p.recvNonce, |xs|)),
             Asked(xs), AnswerStream(keys, p.sendNonce, xs))
    decreases |xs|
  {
    hide PoolReceive, UpFrame, DownFrame, UpHeader, DownHeader, Xor, KeyAfter, FitsUp, FitsDown, Advance;
    var octets := RequestStream(keys, p.headerKey, p.recvNonce, xs) + later;
    if xs == [] {
      AdvanceNext(p.sendNonce, 0);
      AdvanceNext(p.recvNonce, 0);
      NoKey(p.headerKey);
    } else {
      var x := xs[0];
      assert Fair(x);
      var key := Xor(DownHeader(x.answer), UpHeader(x.request));
      var rest := RequestStream(keys, key, Next(p.recvNonce), xs[1..]) + later;
      assert octets == UpFrame(keys, p.headerKey, p.recvNonce, x.request) + rest;
      UpFrameIsDelivered(suite, keys, p, x.request, rest);
      var next := PoolSend(keys, PoolReceive(suite, keys, p, octets).0, x.answer).0;
      PoolServes(suite, keys, next, xs[1..], later);
      KeyAfterOne(p.headerKey, xs);
      AdvanceNext(p.sendNonce, |xs| - 1);
      AdvanceNext(p.recvNonce, |xs| - 1);
      assert Replies(xs)[1..] == Replies(xs[1..]);
      assert Asked(xs) == [Ok(x.request)] + Asked(xs[1..]);
    }
  }

  lemma NoKey(key: Word)
    ensures KeyAfter(key, []) == key
  {
  }

  /** Requests made one after the other by whatever callers, with no other receiver. */
  function RequestAll(suite: Suite, c: ClientState, xs: seq<Exchange>, handler: Handler)
    : (ClientState, seq<Result<seq<byte>>>)
    decreases |xs|
  {
    if xs == [] then (c, []) else
      var (next, r) := Request(suite, c, xs[0].request.command, xs[0].request.data, 3, handler);
      var (last, later) := RequestAll(suite, next, xs[1..], handler);
      (last, [r] + later)
  }

  function Answers(xs: seq<Exchange>): (rs: seq<Result<seq<byte>>>)
    ensures |rs| == |xs|
  {
    seq(|xs|, i requires 0 <= i < |xs| => Ok(xs[i].answer.message.data))
  }

  lemma OneExchange(suite: Suite, keys: Keys, c: ClientState, x: Exchange, rest: seq<Octet>, handler: Handler)
    requires Ready(suite, keys, c) && Fair(x)
    requires c.stream.value.inbound == DownFrame(keys, UpHeader(x.request), c.recvNonce, x.answer) + rest
    ensures var (after, r) := Request(suite, c, x.request.command, x.request.data, 3, handler);
            && r == Ok(x.answer.message.data)
            && Ready(suite, keys, after)
            && after.stream.value.inbound == rest
            && after.stream.value.outbound
               == c.stream.value.outbound + UpFrame(keys, c.headerKey, c.sendNonce, x.request)
            && after.headerKey == Xor(DownHeader(x.answer), UpHeader(x.request))
            && after.sendNonce == Next(c.sendNonce) && after.recvNonce == Next(c.recvNonce)
  {
    SendWritesUpFrame(suite, keys, c, x.request);
    var sent := Send(suite, c, x.request.command, x.request.data, 3).0;
    DownFrameIsDelivered(suite, keys, sent, x.answer, rest);
    DispatchIsIdle(suite, sent, handler);
  }

  /** The client's side: the k-th request gets the k-th answer, and what is written is the request stream. */
  lemma {:induction false} RequestsAreAnswered(suite: Suite, keys: Keys, c: ClientState, xs: seq<Exchange>,
                                               handler: Handler)
    requires Ready(suite, keys, c) && (forall x <- xs :: Fair(x))
    requires c.stream.value.inbound == AnswerStream(keys, c.recvNonce, xs)
    ensures var (last, rs) := RequestAll(suite, c, xs, handler);
            && rs == Answers(xs)
            && last.stream
               == Some(Socket([], c.stream.value.outbound + RequestStream(keys, c.headerKey, c.sendNonce, xs)))
            && last.headerKey == KeyAfter(c.headerKey, xs)
            && last.sendNonce == Advance(c.sendNonce, |xs|) && last.recvNonce == Advance(c.recvNonce, |xs|)
    decreases |xs|
  {
    hide Request, UpFrame, DownFrame, UpHeader, DownHeader, Xor, Ready, KeyAfter, FitsUp, FitsDown, Advance;
    assert c.stream.Some? by {
      ReadyHasStream(suite, keys, c);
    }
    if xs == [] {
      AdvanceNext(c.sendNonce, 0);
      AdvanceNext(c.recvNonce, 0);
      NoKey(c.headerKey);
      assert c.stream.value.outbound + [] == c.stream.value.outbound;
    } else {
      assert Fair(xs[0]);
      OneExchange(suite, keys, c, xs[0], AnswerStream(keys, Next(c.recvNonce), xs[1..]), handler);
      var next := Request(suite, c, xs[0].request.command, xs[0].request.data, 3, handler).0;
      assert next.stream.Some? by {
        ReadyHasStream(suite, keys, next);
      }
      RequestsAreAnswered(suite, keys, next, xs[1..], handler);
      var frame := UpFrame(keys, c.headerKey, c.sendNonce, xs[0].request);
      var more := RequestStream(keys, next.headerKey, next.sendNonce, xs[1..]);
      assert c.stream.value.outbound + frame + more == c.stream.value.outbound + (frame + more);
      KeyAfterOne(c.headerKey, xs);
      AdvanceNext(c.sendNonce, |xs| - 1);
      AdvanceNext(c.recvNonce, |xs| - 1);
      assert Answers(xs) == [Ok(xs[0].answer.message.data)] + Answers(xs[1..]);
    }
  }

  /**
    * Serialised requests against an in-order pool. The octets the client writes are served by the mirror pool with
    * exactly the octets the client has been reading: the pool reads the k-th request, the k-th request gets the
    * k-th answer, and the two ends are matched again.
    */
  lemma SerialRequestsAreAnswered(suite: Suite, keys: Keys, c: ClientState, p: MirrorPool, xs: seq<Exchange>,
                                  handler: Handler)
    requires Ready(suite, keys, c) && Matched(c, p) && (forall x <- xs :: Fair(x))
    requires c.stream.value.inbound == AnswerStream(keys, p.sendNonce, xs)
    ensures var (last, rs) := RequestAll(suite, c, xs, handler);
            var requests := RequestStream(keys, p.headerKey, p.recvNonce, xs);
            var (pool, asked, answers) := Serve(suite, keys, p, requests, Replies(xs));
            && rs == Answers(xs) && asked == Asked(xs)
            && last.stream == Some(Socket([], c.stream.value.outbound + requests))
            && answers == c.stream.value.inbound
            && Matched(last, pool)
  {
    hide RequestAll, RequestStream, Serve, AnswerStream, Fair;
    RequestsAreAnswered(suite, keys, c, xs, handler);
    PoolServes(suite, keys, p, xs, []);
    var requests := RequestStream(keys, p.headerKey, p.recvNonce, xs);
    assert requests + [] == requests;
  }
}
