/** The parts composed: from a first connect to the payouts a pool hands out. */
module EndToEnd {
  import opened Bytes
  import opened HeaderCodec
  import opened Crypto
  import opened Session
  import opened Framing
  import opened Lockstep
  import opened Handshake
  import opened Coinbaser
  import opened Pool
  import opened Server

  /** A fetch, and the payout the pool prints in answer: everything around the payout is the pool's choice. */
  datatype Offer = Offer(
    asked: u64, leading: u64, payout: CoinbasePayout, slack: seq<byte>, trailing: seq<byte>,
    signed: bool, reserved: byte)

  predicate Offerable(o: Offer) {
    && Printable(o.payout)
    && |PrintResponse(o.leading, o.payout, o.slack, o.trailing)| + TAG_LENGTH < LENGTH_LIMIT
  }

  /** The frames a fetch and its answer become. */
  function ExchangeOf(o: Offer): Exchange
    requires Printable(o.payout)
  {
    Exchange(Message(DatumCommand.FetchCoinbaser, LittleEndian(o.asked, 8)),
             PoolMessage(Message(DatumCommand.FetchCoinbaser, PrintResponse(o.leading, o.payout, o.slack, o.trailing)),
                         o.signed, o.reserved, false, true))
  }

  function Exchanges(os: seq<Offer>): (xs: seq<Exchange>)
    requires forall o <- os :: Offerable(o)
    ensures |xs| == |os|
  {
    if os == [] then [] else
      assert Offerable(os[0]);
      [ExchangeOf(os[0])] + Exchanges(os[1..])
  }

  /** Successive fetches through one pool object. */
  function FetchAll(suite: Suite, g: GatewayState, os: seq<Offer>, handler: Handler)
    : (GatewayState, seq<Result<CoinbasePayout>>)
    decreases |os|
  {
    if os == [] then (g, []) else
      var (next, r) := FetchPayout(suite, g, os[0].asked, Call(3, handler));
      var (last, later) := FetchAll(suite, next, os[1..], handler);
      (last, [r] + later)
  }

  function Payouts(os: seq<Offer>): (rs: seq<Result<CoinbasePayout>>)
    ensures |rs| == |os|
  {
    seq(|os|, i requires 0 <= i < |os| => Ok(os[i].payout))
  }

  lemma OfferIsFair(o: Offer)
    requires Offerable(o)
    ensures Fair(ExchangeOf(o))
    ensures |PrintPayout(o.payout) + o.slack| < TWO_TO_THE_32
  {
  }

  /** What a call has added to the outbound stream is one frame, and a mirror pool in step reads `m` from it. */
  predicate PoolReads(suite: Suite, keys: Keys, c: ClientState, after: ClientState, m: Message) {
    && c.stream.Some? && after.stream.Some? && c.stream.value.outbound <= after.stream.value.outbound
    && var p := MirrorPool(c.headerKey, c.recvNonce, c.sendNonce);
       PoolReceive(suite, keys, p, after.stream.value.outbound[|c.stream.value.outbound|..])
       == (p.(headerKey := UpHeader(m), recvNonce := Next(c.sendNonce)), Ok(m), [])
  }

  lemma UpFrameIsRead(suite: Suite, keys: Keys, c: ClientState, after: ClientState, m: Message)
    requires FitsUp(m) && c.stream.Some? && after.stream.Some?
    requires after.stream.value.outbound == c.stream.value.outbound + UpFrame(keys, c.headerKey, c.sendNonce, m)
    ensures PoolReads(suite, keys, c, after, m)
  {
    hide PoolReceive;
    var frame := UpFrame(keys, c.headerKey, c.sendNonce, m);
    assert after.stream.value.outbound[|c.stream.value.outbound|..] == frame + [];
    UpFrameIsDelivered(suite, keys, MirrorPool(c.headerKey, c.recvNonce, c.sendNonce), m, []);
  }

  /** One fetch: the pool reads the value asked for, and the payout it prints is returned and stored. */
  lemma OneFetch(suite: Suite, keys: Keys, g: GatewayState, o: Offer, rest: seq<Octet>, handler: Handler)
    requires g.client.Some? && Ready(suite, keys, g.client.value) && Offerable(o)
    requires var c := g.client.value;
             c.stream.value.inbound
             == DownFrame(keys, UpHeader(ExchangeOf(o).request), c.recvNonce, ExchangeOf(o).answer) + rest
    ensures var (after, r) := FetchPayout(suite, g, o.asked, Call(3, handler));
            && r == Ok(o.payout) && after.coinbase == Some(o.payout)
            && after.client.Some? && Ready(suite, keys, after.client.value)
            && after.client.value.stream.value.inbound == rest
            && after.client.value.recvNonce == Next(g.client.value.recvNonce)
            && PoolReads(suite, keys, g.client.value, after.client.value, ExchangeOf(o).request)
    ensures ExchangeOf(o).request.command.FetchCoinbaser? && U64(ExchangeOf(o).request.data) == o.asked
  {
    hide PoolReads;
    var c := g.client.value;
    OfferIsFair(o);
    OneExchange(suite, keys, c, ExchangeOf(o), rest, handler);
    RoundTrip(o.leading, o.payout, o.slack, o.trailing);
    UpFrameIsRead(suite, keys, c, FetchPayout(suite, g, o.asked, Call(3, handler)).0.client.value,
                  ExchangeOf(o).request);
    U64RoundTrip(o.asked);
  }

  /**
    * One template: the pool reads a request for the value of the first output, a negative one wrapped around 2^64,
    * and the payout it prints is stored next to the template.
    */
  lemma OneTemplate(suite: Suite, keys: Keys, g: GatewayState, block: Block, o: Offer, rest: seq<Octet>,
                    handler: Handler)
    requires g.client.Some? && Ready(suite, keys, g.client.value) && Offerable(o)
    requires block.transactions != [] && block.transactions[0] != []
    requires var v: int := block.transactions[0][0];
             o.asked == if v >= 0 then v else v + 0x1_0000_0000_0000_0000
    requires var c := g.client.value;
             c.stream.value.inbound
             == DownFrame(keys, UpHeader(ExchangeOf(o).request), c.recvNonce, ExchangeOf(o).answer) + rest
    ensures var (after, r) := StoreTemplate(suite, g, block, Call(3, handler));
            && r == Ok(()) && after.template == Some(block) && after.coinbase == Some(o.payout)
            && after.client.Some? && Ready(suite, keys, after.client.value)
            && after.client.value.stream.value.inbound == rest
            && PoolReads(suite, keys, g.client.value, after.client.value, ExchangeOf(o).request)
    ensures ExchangeOf(o).request.command.FetchCoinbaser? && U64(ExchangeOf(o).request.data) == o.asked
  {
    hide StoreTemplate, FetchPayout, PoolReads, DownFrame, UpHeader;
    var stored, call := g.(template := Some(block)), Call(3, handler);
    TemplateDecides(suite, g, block, call, o.asked);
    OneFetch(suite, keys, stored, o, rest, handler);
    FetchDecides(suite, stored, o.asked, call);
  }

  /**
    * One submission: the pool reads the proof of work, and its answer is accepted exactly if it starts with 0x50 or
    * 0x55, refused exactly for 0x66, and an error otherwise; the payout on record is untouched.
    */
  lemma OneSubmission(suite: Suite, keys: Keys, g: GatewayState, x: Exchange, rest: seq<Octet>, handler: Handler)
    requires g.client.Some? && Ready(suite, keys, g.client.value) && Fair(x) && x.request.command.SubmitPow?
    requires var c := g.client.value;
             c.stream.value.inbound == DownFrame(keys, UpHeader(x.request), c.recvNonce, x.answer) + rest
    ensures var (after, r) := SubmitToPool(suite, g, x.request.data, Call(3, handler));
            var answer := x.answer.message.data;
            && (r == Ok(true) <==> answer != [] && answer[0] in {0x50, 0x55})
            && (r == Ok(false) <==> answer != [] && answer[0] == 0x66)
            && after.coinbase == g.coinbase && after.client.Some? && Ready(suite, keys, after.client.value)
            && after.client.value.stream.value.inbound == rest
            && PoolReads(suite, keys, g.client.value, after.client.value, x.request)
  {
    hide PoolReads, Request;
    OneExchange(suite, keys, g.client.value, x, rest, handler);
    assert x.request == Message(DatumCommand.SubmitPow, x.request.data);
    UpFrameIsRead(suite, keys, g.client.value, SubmitToPool(suite, g, x.request.data, Call(3, handler)).0.client.value,
                  x.request);
  }

  /** Whatever else a pool may send in answer to a request: the frame is taken, and the request fails. */
  lemma OtherCommandIsRefused(suite: Suite, keys: Keys, c: ClientState, m: Message, d: PoolMessage, rest: seq<Octet>,
                              handler: Handler)
    requires Ready(suite, keys, c) && FitsUp(m) && FitsDown(d) && d.message.command != m.command
    requires c.stream.value.inbound == DownFrame(keys, UpHeader(m), c.recvNonce, d) + rest
    ensures var (after, r) := Request(suite, c, m.command, m.data, 3, handler);
            && r == Err(UnexpectedCommand)
            && Ready(suite, keys, after) && after.stream.value.inbound == rest
  {
    hide Send, Receive, Request, DownFrame, UpFrame, UpHeader, DownHeader, FitsUp, FitsDown;
    assert |m.data| <= PLAINTEXT_LIMIT by {
      UpIsShort(m);
    }
    SendWritesUpFrame(suite, keys, c, m);
    var sent := Send(suite, c, m.command, m.data, 3).0;
    DownFrameIsDelivered(suite, keys, sent, d, rest);
    AnswerDecides(suite, c, m.command, m.data, 3, handler);
  }

  lemma UpIsShort(m: Message)
    requires FitsUp(m)
    ensures |m.data| <= PLAINTEXT_LIMIT
  {
  }

  /** So no fetch makes a payout of a job update, a verdict or a handshake, however well its data would parse. */
  lemma FetchRefusesOthers(suite: Suite, keys: Keys, g: GatewayState, asked: u64, d: PoolMessage, rest: seq<Octet>,
                           handler: Handler)
    requires g.client.Some? && Ready(suite, keys, g.client.value) && FitsDown(d)
    requires d.message.command in {DatumCommand.Handshake, SubmitPow, JobUpdate}
    requires var c, request := g.client.value, Message(DatumCommand.FetchCoinbaser, LittleEndian(asked, 8));
             c.stream.value.inbound == DownFrame(keys, UpHeader(request), c.recvNonce, d) + rest
    ensures var (after, r) := FetchPayout(suite, g, asked, Call(3, handler));
            && r == Err(UnexpectedCommand) && after == g.(client := after.client)
            && after.client.Some? && Ready(suite, keys, after.client.value)
            && after.client.value.stream.value.inbound == rest
  {
    hide Request, DownFrame, UpHeader, LittleEndian;
    OtherCommandIsRefused(suite, keys, g.client.value, Message(DatumCommand.FetchCoinbaser, LittleEndian(asked, 8)), d,
                          rest, handler);
  }

  /** The k-th fetch returns the k-th payout, the pool object ends up holding the last one, and nothing else moves. */
  lemma {:induction false} FetchesReturnPayouts(suite: Suite, keys: Keys, g: GatewayState, os: seq<Offer>,
                                                handler: Handler)
    requires g.client.Some? && Ready(suite, keys, g.client.value) && (forall o <- os :: Offerable(o))
    requires g.client.value.stream.value.inbound == AnswerStream(keys, g.client.value.recvNonce, Exchanges(os))
    ensures var (last, rs) := FetchAll(suite, g, os, handler);
            && rs == Payouts(os)
            && last.coinbase == (if os == [] then g.coinbase else Some(os[|os| - 1].payout))
            && last.client == Some(RequestAll(suite, g.client.value, Exchanges(os), handler).0)
    decreases |os|
  {
    hide FetchPayout, Request, DownFrame, UpHeader, PrintResponse, Printable;
    if os == [] {
    } else {
      assert Offerable(os[0]);
      assert Exchanges(os)[1..] == Exchanges(os[1..]);
      var rest := AnswerStream(keys, Next(g.client.value.recvNonce), Exchanges(os[1..]));
      OneFetch(suite, keys, g, os[0], rest, handler);
      FetchesReturnPayouts(suite, keys, FetchPayout(suite, g, os[0].asked, Call(3, handler)).0, os[1..], handler);
      FetchIsRequest(suite, g, os[0], handler);
      assert Payouts(os) == [Ok(os[0].payout)] + Payouts(os[1..]);
    }
  }

  /** To the client a fetch is its request. */
  lemma FetchIsRequest(suite: Suite, g: GatewayState, o: Offer, handler: Handler)
    requires g.client.Some? && Printable(o.payout)
    ensures var x := ExchangeOf(o);
            FetchPayout(suite, g, o.asked, Call(3, handler)).0.client
            == Some(Request(suite, g.client.value, x.request.command, x.request.data, 3, handler).0)
  {
    hide Request, Parse, PrintResponse, Printable;
  }

  lemma ExchangesAreFair(os: seq<Offer>)
    requires forall o <- os :: Offerable(o)
    ensures forall x <- Exchanges(os) :: Fair(x)
  {
    if os == [] {
    } else {
      assert Offerable(os[0]);
      OfferIsFair(os[0]);
      ExchangesAreFair(os[1..]);
    }
  }

  /** The attempt is answered as documented, and then the pool has these answers ready on the wire. */
  predicate AnsweredAndServed(suite: Suite, key: Option<Key>, a: Attempt, reply: Reply, os: seq<Offer>)
    requires forall o <- os :: Offerable(o)
  {
    var keys := SessionKeys(suite, a, reply.poolEd25519, reply.poolSecret);
    Answered(suite, key, a, reply, AnswerStream(keys, InitialNonce(suite, a.headerKey), Exchanges(os)))
  }

  /**
    * Fetching through `g`, just connected, returns exactly the payouts that the pool printed, in order. What has been
    * written is a hello and the requests; a mirror pool that takes those reads the values asked for and writes, after
    * its reply, exactly the octets that have been read.
    */
  predicate FetchesAreServed(suite: Suite, key: Option<Key>, a: Attempt, reply: Reply, g: GatewayState,
                             os: seq<Offer>, handler: Handler)
    requires forall o <- os :: Offerable(o)
  {
    var (last, rs) := FetchAll(suite, g, os, handler);
    var keys := SessionKeys(suite, a, reply.poolEd25519, reply.poolSecret);
    var p := PoolEnd(suite, key, a, reply);
    var requests := RequestStream(keys, p.headerKey, p.recvNonce, Exchanges(os));
    var (pool, asked, answers) := Serve(suite, keys, p, requests, Replies(Exchanges(os)));
    && rs == Payouts(os) && asked == Asked(Exchanges(os))
    && a.inbound == ReplyFrame(suite, key, a, reply) + answers
    && last.client.Some?
    && last.client.value.stream == Some(Socket([], HelloOctets(suite, key, a) + requests))
    && Matched(last.client.value, pool)
  }

  lemma ConnectedIsServed(suite: Suite, key: Option<Key>, a: Attempt, reply: Reply, g: GatewayState, os: seq<Offer>,
                          handler: Handler)
    requires forall o <- os :: Offerable(o)
    requires AnsweredAndServed(suite, key, a, reply, os)
    requires g.client == Some(Connect(suite, Fresh(key), a).0)
    ensures FetchesAreServed(suite, key, a, reply, g, os, handler)
  {
    hide Session.Connect, FetchAll, RequestAll, RequestStream, Serve, AnswerStream, Exchanges, HelloOctets, ReplyFrame,
         Documented, InitialNonce, DeriveKey;
    var keys := SessionKeys(suite, a, reply.poolEd25519, reply.poolSecret);
    var p := PoolEnd(suite, key, a, reply);
    var xs := Exchanges(os);
    HandshakeMatchesEnds(suite, Fresh(key), a, reply, AnswerStream(keys, p.sendNonce, xs));
    FetchesReturnPayouts(suite, keys, g, os, handler);
    ExchangesAreFair(os);
    SerialRequestsAreAnswered(suite, keys, g.client.value, p, xs, handler);
  }

  /** End to end: connecting to a pool that answers as documented, and then fetching any number of times. */
  lemma ConnectThenFetch(suite: Suite, before: GatewayState, who: Credentials, a: Attempt, reply: Reply,
                         os: seq<Offer>, handler: Handler)
    requires forall o <- os :: Offerable(o)
    requires AnsweredAndServed(suite, before.publicKey, a, reply, os)
    ensures var (g, r) := ConnectPool(suite, before, who, a);
            r == Ok(()) && FetchesAreServed(suite, before.publicKey, a, reply, g, os, handler)
  {
    hide Session.Connect, AnswerStream, Exchanges, Answered, FetchesAreServed;
    var keys := SessionKeys(suite, a, reply.poolEd25519, reply.poolSecret);
    HandshakeMatchesEnds(suite, Fresh(before.publicKey), a, reply,
                         AnswerStream(keys, InitialNonce(suite, a.headerKey), Exchanges(os)));
    ConnectedIsServed(suite, before.publicKey, a, reply, ConnectPool(suite, before, who, a).0, os, handler);
  }

  /**
    * A reconnect of a configured pool object, under an answered attempt: it succeeds, the new client is ready and
    * matched to the pool under the key in force, and nothing else of the object has changed.
    */
  lemma AnsweredReconnect(suite: Suite, before: GatewayState, a: Attempt, reply: Reply, rest: seq<Octet>)
    requires before.url.Some? && before.username.Some? && before.password.Some?
    requires Answered(suite, before.publicKey, a, reply, rest)
    ensures var (g, r) := ReconnectPool(suite, before, a);
            && r == Ok(()) && g == before.(client := g.client) && g.client.Some?
            && var c := g.client.value;
            && c.stream == Some(Socket(rest, HelloOctets(suite, before.publicKey, a)))
            && Ready(suite, SessionKeys(suite, a, reply.poolEd25519, reply.poolSecret), HelloTaken(c))
            && Matched(HelloTaken(c), PoolEnd(suite, before.publicKey, a, reply))
  {
    hide Session.Connect, Answered, HelloOctets;
    HandshakeMatchesEnds(suite, Fresh(before.publicKey), a, reply, rest);
  }

  /** End to end once more, through a reconnect, whatever became of the client before. */
  lemma ReconnectThenFetch(suite: Suite, before: GatewayState, a: Attempt, reply: Reply, os: seq<Offer>,
                           handler: Handler)
    requires before.url.Some? && before.username.Some? && before.password.Some?
    requires forall o <- os :: Offerable(o)
    requires AnsweredAndServed(suite, before.publicKey, a, reply, os)
    ensures var (g, r) := ReconnectPool(suite, before, a);
            r == Ok(()) && FetchesAreServed(suite, before.publicKey, a, reply, g, os, handler)
  {
    hide Session.Connect, AnswerStream, Exchanges, Answered, FetchesAreServed;
    var keys := SessionKeys(suite, a, reply.poolEd25519, reply.poolSecret);
    HandshakeMatchesEnds(suite, Fresh(before.publicKey), a, reply,
                         AnswerStream(keys, InitialNonce(suite, a.headerKey), Exchanges(os)));
    ConnectedIsServed(suite, before.publicKey, a, reply, ReconnectPool(suite, before, a).0, os, handler);
  }

  /** The same connect, with nothing yet sent by the pool, starts a session in which every ordered run delivers. */
  lemma ConnectThenExchange(suite: Suite, before: ClientState, a: Attempt, reply: Reply, es: seq<Event>)
    requires !before.connected && Bare(before)
    requires Answered(suite, before.poolPublicKey, a, reply, []) && QueueOrdered(NO_QUEUES, es)
    ensures var (c, r) := Connect(suite, before, a);
            var keys := SessionKeys(suite, a, reply.poolEd25519, reply.poolSecret);
            && r == Ok(()) && c.stream.Some?
            && var w := Run(suite, keys, Start(HelloTaken(c), PoolEnd(suite, before.poolPublicKey, a, reply)), es);
            && w.poolGot <= w.clientSent && w.clientGot <= Plain(w.poolSent)
            && (Quiet(w) ==>
                  w.poolGot == w.clientSent && w.clientGot == Plain(w.poolSent) && Matched(w.client, w.pool))
  {
    hide Session.Connect, Run, QueueOrdered, HelloOctets, Answered;
    HandshakeMatchesEnds(suite, before, a, reply, []);
    var c := Connect(suite, before, a).0;
    OrderedRunDelivers(suite, SessionKeys(suite, a, reply.poolEd25519, reply.poolSecret), HelloTaken(c),
                       PoolEnd(suite, before.poolPublicKey, a, reply), es);
  }

  /** Such handshakes exist: one concrete suite, attempt and reply leave two ends ready, quiet and matched. */
  lemma SessionsExist() returns (suite: Suite, keys: Keys, c: ClientState, p: MirrorPool)
    ensures Ready(suite, keys, c) && Quiet(Start(c, p)) && Matched(c, p)
  {
    hide Session.Connect, WriteFrame;
    var zero: Key := seq(32, _ => 0);
    suite := Suite(_ => 0, _ => zero, k => k, k => k, (_, _) => zero, _ => true);
    var pair := EncryptionKeys(zero, zero);
    var silent := Attempt(true, [], pair, pair, ZERO, [0], zero, 3);
    var payload := ResponseBytes(Announced(suite, pair, pair), zero, zero, [], []);
    var reply := Reply(DatumMessageHeader(|payload|, 0, false, false, false, 0), [], zero, zero, [], []);
    var a := silent.(inbound := ReplyFrame(suite, None, silent, reply));
    assert a.inbound == ReplyFrame(suite, None, a, reply) + [];
    HandshakeMatchesEnds(suite, Fresh(None), a, reply, []);
    keys := SessionKeys(suite, a, zero, zero);
    c := HelloTaken(Connect(suite, Fresh(None), a).0);
    p := PoolEnd(suite, None, a, reply);
  }
}
