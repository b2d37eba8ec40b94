/** DatumPool: credentials, the protocol client, and the coinbaser it last fetched. */
module Pool {
  import opened Bytes
  import opened HeaderCodec
  import opened Crypto
  import opened Session
  import opened Client
  import opened Coinbaser
  import opened Handshake

  type i64 = n: int | -0x8000_0000_0000_0000 <= n < 0x8000_0000_0000_0000

  /** A block template, of which only the output values of the transactions matter here. */
  datatype Block = Block(transactions: seq<seq<i64>>)

  /** The coinbase transaction comes first and has an output. */
  predicate HasCoinbase(b: Block) {
    b.transactions != [] && b.transactions[0] != []
  }

  /** `value as u64`: two's complement, the one u64 congruent to the value. */
  function AsU64(n: i64): (u: u64)
    ensures (u - n) % TWO_TO_THE_64 == 0
  {
    if n < 0 then n + TWO_TO_THE_64 else n
  }

  datatype Credentials = Credentials(url: string, username: string, password: string)

  /** The fields of DatumPool, with the protocol client represented by its state. */
  datatype GatewayState = GatewayState(
    url: Option<string>,
    username: Option<string>,
    password: Option<string>,
    publicKey: Option<Key>,
    client: Option<ClientState>,
    coinbase: Option<CoinbasePayout>,
    template: Option<Block>,
    jobs: map<byte, Block>)

  const EMPTY: GatewayState := GatewayState(None, None, None, None, None, None, None, map[])

  datatype PoolInfo = PoolInfo(
    url: string, connected: bool, hasCoinbase: bool, jobCount: nat, hasTemplate: bool)

  /** connect: credentials are stored first, and only a successful attempt replaces the client. */
  function ConnectPool(suite: Suite, g: GatewayState, who: Credentials, a: Attempt): (GatewayState, Result<()>) {
    var named := g.(url := Some(who.url), username := Some(who.username), password := Some(who.password));
    var (client, r) := Connect(suite, Fresh(g.publicKey), a);
    (if r.Ok? then named.(client := Some(client)) else named, r)
  }

  /** reconnect: the old client is dropped before the new attempt. */
  function ReconnectPool(suite: Suite, g: GatewayState, a: Attempt): (GatewayState, Result<()>) {
    if g.url.None? || g.username.None? || g.password.None? then (g, Err(NotConfigured)) else
      ConnectPool(suite, g.(client := None),
                  Credentials(g.url.value, g.username.value, g.password.value), a)
  }

  /** The environment of one request: writes the connection accepts, and the message handler. */
  datatype Call = Call(writes: nat, handler: Handler)

  /** fetch_coinbase_payout. */
  function FetchPayout(suite: Suite, g: GatewayState, value: u64, call: Call): (GatewayState, Result<CoinbasePayout>) {
    if g.client.None? then (g, Err(NotConnected)) else
      var (client, answer) := Request(suite, g.client.value, DatumCommand.FetchCoinbaser, LittleEndian(value, 8),
                                      call.writes, call.handler);
      var after := g.(client := Some(client));
      match answer
      case Err(e) => (after, Err(e))
      case Ok(data) =>
        match Parse(data)
        case Rejected(_) => (after, Err(BadCoinbaser))
        case OutOfRange => (after, Err(Panicked))
        case Accepted(payout) => (after.(coinbase := Some(payout)), Ok(payout))
  }

  /**
    * set_template: the template is stored whatever becomes of the fetch. `Panicked` is the index out of range on a
    * block without a first transaction or output.
    */
  function StoreTemplate(suite: Suite, g: GatewayState, block: Block, call: Call): (GatewayState, Result<()>) {
    var stored := g.(template := Some(block));
    if stored.client.None? then (stored, Ok(()))
    else if !HasCoinbase(block) then (stored, Err(Panicked))
    else
      var (after, r) := FetchPayout(suite, stored, AsU64(block.transactions[0][0]), call);
      (after, if r.Ok? then Ok(()) else Err(r.error))
  }

  /** submit_pow. */
  function SubmitToPool(suite: Suite, g: GatewayState, pow: seq<byte>, call: Call): (GatewayState, Result<bool>) {
    if g.client.None? then (g, Err(NotConnected)) else
      var (client, answer) := Request(suite, g.client.value, DatumCommand.SubmitPow, pow, call.writes, call.handler);
      (g.(client := Some(client)), if answer.Err? then Err(answer.error) else Verdict(answer.value))
  }

  function Info(g: GatewayState): PoolInfo {
    PoolInfo(if g.url.Some? then g.url.value else "(not configured)",
             g.client.Some?, g.coinbase.Some?, |g.jobs|, g.template.Some?)
  }

  // ----- the object

  class DatumPool {
    const suite: Suite
    var url: Option<string>
    var username: Option<string>
    var password: Option<string>
    var publicKey: Option<Key>
    var client: DatumProtocolClient?
    var coinbase: Option<CoinbasePayout>
    var template: Option<Block>
    var jobs: map<byte, Block>

    ghost predicate Valid()
      reads this, client
    {
      client != null ==> client.suite == suite
    }

    function State(): GatewayState
      reads this, client
    {
      GatewayState(url, username, password, publicKey,
                if client == null then None else Some(client.State()), coinbase, template, jobs)
    }

    constructor (suite: Suite)
      ensures Valid() && State() == EMPTY && this.suite == suite
    {
      this.suite := suite;
      url, username, password, publicKey := None, None, None, None;
      client, coinbase, template, jobs := null, None, None, map[];
    }

    method SetPoolPublicKey(key: Key)
      requires Valid()
      modifies this`publicKey
      ensures Valid() && State() == old(State()).(publicKey := Some(key))
    {
      publicKey := Some(key);
    }

    method Connect(who: Credentials, a: Attempt) returns (r: Result<()>)
      requires Valid()
      modifies this
      ensures Valid() && (client == old(client) || fresh(client))
      ensures (State(), r) == ConnectPool(suite, old(State()), who, a)
    {
      url, username, password := Some(who.url), Some(who.username), Some(who.password);
      var attempt := new DatumProtocolClient(suite, publicKey);
      r := attempt.Connect(a);
      if r.Err? {
        return;
      }
      client := attempt;
    }

    method Reconnect(a: Attempt) returns (r: Result<()>)
      requires Valid()
      modifies this
      ensures Valid() && (client == old(client) || client == null || fresh(client))
      ensures (State(), r) == ReconnectPool(suite, old(State()), a)
    {
      if url.None? || username.None? || password.None? {
        return Err(NotConfigured);
      }
      client := null;
      r := Connect(Credentials(url.value, username.value, password.value), a);
    }

    method FetchCoinbasePayout(value: u64, call: Call) returns (r: Result<CoinbasePayout>)
      requires Valid()
      modifies this, client
      ensures Valid() && client == old(client)
      ensures (State(), r) == FetchPayout(suite, old(State()), value, call)
    {
      hide Request, Parse;
      if client == null {
        return Err(NotConnected);
      }
      var answer := client.FetchCoinbaser(value, call.writes, call.handler);
      if answer.Err? {
        return Err(answer.error);
      }
      var parsed := ParseCoinbaseResponse(answer.value);
      match parsed
      case Rejected(_) =>
        return Err(BadCoinbaser);
      case OutOfRange =>
        return Err(Panicked);
      case Accepted(payout) =>
        coinbase := Some(payout);
        return Ok(payout);
    }

    method SetTemplate(block: Block, call: Call) returns (r: Result<()>)
      requires Valid()
      modifies this, client
      ensures Valid() && client == old(client)
      ensures (State(), r) == StoreTemplate(suite, old(State()), block, call)
    {
      template := Some(block);
      if client == null {
        return Ok(());
      }
      if !HasCoinbase(block) {
        return Err(Panicked); // transactions[0].outputs[0]
      }
      var fetched := FetchCoinbasePayout(AsU64(block.transactions[0][0]), call);
      return if fetched.Ok? then Ok(()) else Err(fetched.error);
    }

    method SubmitPow(pow: seq<byte>, call: Call) returns (r: Result<bool>)
      requires Valid()
      modifies client
      ensures Valid() && client == old(client)
      ensures (State(), r) == SubmitToPool(suite, old(State()), pow, call)
    {
      if client == null {
        return Err(NotConnected);
      }
      r := client.SubmitPow(pow, call.writes, call.handler);
    }

    method GetPoolInfo() returns (info: PoolInfo)
      requires Valid()
      ensures info == Info(State())
    {
      info := PoolInfo(if url.Some? then url.value else "(not configured)",
                       client != null, coinbase.Some?, |jobs|, template.Some?);
    }
  }

  // ----- every run of one pool object

  /** What can happen to a pool object: its own operations, and one turn of the receive loop spawned on its client. */
  datatype PoolEvent =
    | SetsKey(key: Key)
    | ConnectsPool(who: Credentials, attempt: Attempt)
    | Reconnects(again: Attempt)
    | Fetches(value: u64, fetch: Call)
    | Templates(block: Block, template: Call)
    | Submits(pow: seq<byte>, submit: Call)
    | LoopReceives(handler: Handler)

  function AfterEvent(suite: Suite, g: GatewayState, e: PoolEvent): GatewayState {
    match e
    case SetsKey(key) => g.(publicKey := Some(key))
    case ConnectsPool(who, a) => ConnectPool(suite, g, who, a).0
    case Reconnects(a) => ReconnectPool(suite, g, a).0
    case Fetches(value, call) => FetchPayout(suite, g, value, call).0
    case Templates(block, call) => StoreTemplate(suite, g, block, call).0
    case Submits(pow, call) => SubmitToPool(suite, g, pow, call).0
    case LoopReceives(handler) =>
      if g.client.None? then g else g.(client := Some(ReceiveAndDispatch(suite, g.client.value, handler).0))
  }

  function PoolRun(suite: Suite, g: GatewayState, es: seq<PoolEvent>): GatewayState
    decreases |es|
  {
    if es == [] then g else PoolRun(suite, AfterEvent(suite, g, es[0]), es[1..])
  }

  /** The credentials of the last connect attempted, successful or not; a reconnect does not count. */
  function LastCredentials(before: Option<Credentials>, es: seq<PoolEvent>): Option<Credentials>
    decreases |es|
  {
    if es == [] then before else LastCredentials(if es[0].ConnectsPool? then Some(es[0].who) else before, es[1..])
  }

  /** The last template set. */
  function LastTemplate(before: Option<Block>, es: seq<PoolEvent>): Option<Block>
    decreases |es|
  {
    if es == [] then before else LastTemplate(if es[0].Templates? then Some(es[0].block) else before, es[1..])
  }

  /** The coinbaser responses the run received, in order. */
  function Responses(suite: Suite, g: GatewayState, es: seq<PoolEvent>): seq<seq<byte>>
    decreases |es|
  {
    if es == [] then [] else Received(suite, g, es[0]) + Responses(suite, AfterEvent(suite, g, es[0]), es[1..])
  }

  function Received(suite: Suite, g: GatewayState, e: PoolEvent): seq<seq<byte>> {
    if g.client.None? then [] else
      match e
      case Fetches(value, call) => CoinbaserData(suite, g.client.value, value, call.writes)
      case Templates(block, call) =>
        if HasCoinbase(block) then CoinbaserData(suite, g.client.value, AsU64(block.transactions[0][0]), call.writes)
        else []
      case _ => []
  }

  /** The data of the coinbaser answer, if the request for `value` goes out whole and the next frame is one. */
  function CoinbaserData(suite: Suite, c: ClientState, value: u64, writes: nat): (data: seq<seq<byte>>)
    ensures |data| <= 1
  {
    var (sent, s) := Send(suite, c, DatumCommand.FetchCoinbaser, LittleEndian(value, 8), writes);
    if s.Err? then [] else
      var r := Receive(suite, sent).1;
      if r.Ok? && r.value.command.FetchCoinbaser? then [r.value.data] else []
  }

  /** The payout of the last response that parses, or `before` if none does. */
  function LastAccepted(before: Option<CoinbasePayout>, responses: seq<seq<byte>>): Option<CoinbasePayout>
    decreases |responses|
  {
    if responses == [] then before else
      var parsed := Parse(responses[0]);
      LastAccepted(if parsed.Accepted? then Some(parsed.payout) else before, responses[1..])
  }

  /** The pool key set last. */
  function LastKey(before: Option<Key>, es: seq<PoolEvent>): Option<Key>
    decreases |es|
  {
    if es == [] then before else LastKey(if es[0].SetsKey? then Some(es[0].key) else before, es[1..])
  }

  /** Whether a client is present: the outcomes of the attempts decide, each made under the key set at the time. */
  function HasClient(suite: Suite, key: Option<Key>, configured: bool, present: bool, es: seq<PoolEvent>): bool
    decreases |es|
  {
    if es == [] then present else
      match es[0]
      case SetsKey(k) => HasClient(suite, Some(k), configured, present, es[1..])
      case ConnectsPool(_, a) =>
        HasClient(suite, key, true, present || Connect(suite, Fresh(key), a).1.Ok?, es[1..])
      case Reconnects(a) =>
        HasClient(suite, key, configured, if configured then Connect(suite, Fresh(key), a).1.Ok? else present, es[1..])
      case _ => HasClient(suite, key, configured, present, es[1..])
  }

  /** Credentials are stored together, jobs are never added, and a present client is a connected one. */
  function Stored(g: GatewayState): Option<Credentials> {
    if g.url.Some? && g.username.Some? && g.password.Some?
    then Some(Credentials(g.url.value, g.username.value, g.password.value))
    else None
  }

  predicate Sound(g: GatewayState) {
    && g.url.Some? == g.username.Some? == g.password.Some?
    && (g.client.Some? ==> g.url.Some? && g.client.value.connected && Established(g.client.value))
    && g.jobs == map[]
  }

  lemma RequestKeepsStanding(suite: Suite, c: ClientState, command: DatumCommand, data: seq<byte>, call: Call)
    requires c.connected && Established(c)
    ensures var d := Request(suite, c, command, data, call.writes, call.handler).0; d.connected && Established(d)
  {
    OtherEventsEffect(suite, c, Requests(command, data, call.writes, call.handler));
  }

  lemma LoopKeepsStanding(suite: Suite, c: ClientState, handler: Handler)
    requires c.connected && Established(c)
    ensures var d := ReceiveAndDispatch(suite, c, handler).0; d.connected && Established(d)
  {
    OtherEventsEffect(suite, c, Receives(handler));
  }

  lemma ConnectGivesStanding(suite: Suite, key: Option<Key>, a: Attempt)
    requires Connect(suite, Fresh(key), a).1.Ok?
    ensures var d := Connect(suite, Fresh(key), a).0; d.connected && Established(d)
  {
    ConnectEffect(suite, Fresh(key), a);
  }

  /** A fetch parses the data it received, and fails if there was none. */
  lemma FetchReceives(suite: Suite, g: GatewayState, value: u64, call: Call)
    requires g.client.Some?
    ensures var got := CoinbaserData(suite, g.client.value, value, call.writes);
            var (after, r) := FetchPayout(suite, g, value, call);
            && after == g.(client := after.client, coinbase := if r.Ok? then Some(r.value) else g.coinbase)
            && (got == [] ==> r.Err?)
            && (got != [] ==> r == match Parse(got[0])
                                   case Accepted(p) => Ok(p)
                                   case Rejected(_) => Err(BadCoinbaser)
                                   case OutOfRange => Err(Panicked))
  {
    hide Send, Receive, Request, Parse, LittleEndian;
    var request := LittleEndian(value, 8);
    AnswerDecides(suite, g.client.value, DatumCommand.FetchCoinbaser, request, call.writes, call.handler);
    var (sent, s) := Send(suite, g.client.value, DatumCommand.FetchCoinbaser, request, call.writes);
    var r := Receive(suite, sent).1;
    if s.Ok? && r.Ok? {
      assert r.value == Message(r.value.command, r.value.data);
    }
  }

  ghost predicate Pays(data: seq<byte>, p: CoinbasePayout) {
    exists value, slack, trailing :: Decomposes(data, value, p, slack, trailing)
  }

  /**
    * What a fetch comes to. It returns a payout exactly if its request went out whole and the next frame was a
    * coinbaser answer that is a printed response for that payout; then, and only then, it stores one. It panics
    * exactly on the answers that end where their terminator should stand.
    */
  lemma FetchDecides(suite: Suite, g: GatewayState, value: u64, call: Call)
    ensures var (after, r) := FetchPayout(suite, g, value, call);
            if g.client.None? then (after, r) == (g, Err(NotConnected)) else
              var got := CoinbaserData(suite, g.client.value, value, call.writes);
              && (forall p :: r == Ok(p) <==> got != [] && Pays(got[0], p))
              && after == g.(client := after.client, coinbase := if r.Ok? then Some(r.value) else g.coinbase)
              && (got != [] ==>
                    && (r == Err(Panicked) <==> |got[0]| >= 13 && 12 + U32(got[0][8..12]) == |got[0]|)
                    && (r.Err? ==> r == Err(Panicked) || r == Err(BadCoinbaser)))
  {
    hide Parse, FetchPayout, CoinbaserData, U32;
    if g.client.None? {
      NoClient(suite, g, value, call);
    } else {
      FetchReceives(suite, g, value, call);
      var got := CoinbaserData(suite, g.client.value, value, call.writes);
      if got != [] {
        OutOfRangeIff(got[0]);
        forall p
          ensures Parse(got[0]) == Accepted(p) <==> Pays(got[0], p)
        {
          AcceptedIffPrinted(got[0], p);
        }
      }
    }
  }

  lemma NoClient(suite: Suite, g: GatewayState, value: u64, call: Call)
    requires g.client.None?
    ensures FetchPayout(suite, g, value, call) == (g, Err(NotConnected))
  {
  }

  /**
    * What a submission comes to, told by its send and its receive: accepted exactly on a submission answer that
    * starts with 0x50 or 0x55, refused exactly on one that starts with 0x66, and every other course is its own error.
    */
  lemma SubmitDecides(suite: Suite, g: GatewayState, pow: seq<byte>, call: Call)
    ensures var (after, r) := SubmitToPool(suite, g, pow, call);
            if g.client.None? then (after, r) == (g, Err(NotConnected)) else
              var (sent, s) := Send(suite, g.client.value, DatumCommand.SubmitPow, pow, call.writes);
              if s.Err? then after == g.(client := Some(sent)) && r == Err(s.error) else
                var (received, m) := Receive(suite, sent);
                && after == g.(client := Some(received))
                && r == if m.Err? then Err(m.error)
                        else if !m.value.command.SubmitPow? then Err(UnexpectedCommand)
                        else if m.value.data == [] then Err(EmptyResponse)
                        else if m.value.data[0] in {0x50, 0x55} then Ok(true)
                        else if m.value.data[0] == 0x66 then Ok(false)
                        else Err(UnknownResponseCode(m.value.data[0]))
  {
    hide Send, Receive, Request;
    if g.client.Some? {
      AnswerDecides(suite, g.client.value, DatumCommand.SubmitPow, pow, call.writes, call.handler);
      var (sent, s) := Send(suite, g.client.value, DatumCommand.SubmitPow, pow, call.writes);
      var m := Receive(suite, sent).1;
      if s.Ok? && m.Ok? {
        assert m.value == Message(m.value.command, m.value.data);
      }
    }
  }

  /** A template asks for the u64 congruent to its first output, if there is a client to ask, and is kept anyway. */
  lemma TemplateDecides(suite: Suite, g: GatewayState, block: Block, call: Call, value: u64)
    requires HasCoinbase(block) ==> (value - block.transactions[0][0]) % TWO_TO_THE_64 == 0
    ensures var (after, r) := StoreTemplate(suite, g, block, call);
            var stored := g.(template := Some(block));
            var (fetched, payout) := FetchPayout(suite, stored, value, call);
            if g.client.None? then (after, r) == (stored, Ok(()))
            else if block.transactions == [] || block.transactions[0] == [] then (after, r) == (stored, Err(Panicked))
            else after == fetched && r == (if payout.Ok? then Ok(()) else Err(payout.error))
  {
    hide FetchPayout;
    if HasCoinbase(block) {
      CongruentIsEqual(value, AsU64(block.transactions[0][0]), block.transactions[0][0]);
    }
  }

  lemma CongruentIsEqual(a: u64, b: u64, n: int)
    requires (a - n) % TWO_TO_THE_64 == 0 && (b - n) % TWO_TO_THE_64 == 0
    ensures a == b
  {
    assert a - b == TWO_TO_THE_64 * ((a - n) / TWO_TO_THE_64 - (b - n) / TWO_TO_THE_64);
  }

  lemma EventKeepsSound(suite: Suite, g: GatewayState, e: PoolEvent)
    requires Sound(g)
    ensures var h := AfterEvent(suite, g, e);
            && Sound(h)
            && Stored(h) == (if e.ConnectsPool? then Some(e.who) else Stored(g))
            && h.template == (if e.Templates? then Some(e.block) else g.template)
            && h.coinbase == LastAccepted(g.coinbase, Received(suite, g, e))
            && h.publicKey == LastKey(g.publicKey, [e])
            && h.client.Some? == HasClient(suite, g.publicKey, Stored(g).Some?, g.client.Some?, [e])
  {
    hide Session.Connect, Send, Receive, Request, ReceiveAndDispatch, Parse, Established;
    match e
    case SetsKey(_) =>
    case ConnectsPool(_, a) =>
      if Connect(suite, Fresh(g.publicKey), a).1.Ok? {
        ConnectGivesStanding(suite, g.publicKey, a);
      }
    case Reconnects(a) =>
      if Connect(suite, Fresh(g.publicKey), a).1.Ok? {
        ConnectGivesStanding(suite, g.publicKey, a);
      }
    case Fetches(value, call) =>
      if g.client.Some? {
        RequestKeepsStanding(suite, g.client.value, DatumCommand.FetchCoinbaser, LittleEndian(value, 8), call);
        FetchReceives(suite, g, value, call);
      }
    case Templates(block, call) =>
      if g.client.Some? && HasCoinbase(block) {
        var value := AsU64(block.transactions[0][0]);
        RequestKeepsStanding(suite, g.client.value, DatumCommand.FetchCoinbaser, LittleEndian(value, 8), call);
        FetchReceives(suite, g.(template := Some(block)), value, call);
      }
    case Submits(pow, call) =>
      if g.client.Some? {
        RequestKeepsStanding(suite, g.client.value, DatumCommand.SubmitPow, pow, call);
      }
    case LoopReceives(handler) =>
      if g.client.Some? {
        LoopKeepsStanding(suite, g.client.value, handler);
      }
  }

  lemma {:induction false} LastAcceptedAppend(before: Option<CoinbasePayout>, a: seq<seq<byte>>, b: seq<seq<byte>>)
    ensures LastAccepted(before, a + b) == LastAccepted(LastAccepted(before, a), b)
    decreases |a|
  {
    if a == [] {
      assert [] + b == b;
    } else {
      assert (a + b)[1..] == a[1..] + b;
      var parsed := Parse(a[0]);
      LastAcceptedAppend(if parsed.Accepted? then Some(parsed.payout) else before, a[1..], b);
    }
  }

  lemma {:induction false} RunKeepsSound(suite: Suite, g: GatewayState, es: seq<PoolEvent>)
    requires Sound(g)
    ensures var h := PoolRun(suite, g, es);
            && Sound(h)
            && Stored(h) == LastCredentials(Stored(g), es)
            && h.template == LastTemplate(g.template, es)
            && h.coinbase == LastAccepted(g.coinbase, Responses(suite, g, es))
            && h.publicKey == LastKey(g.publicKey, es)
            && h.client.Some? == HasClient(suite, g.publicKey, Stored(g).Some?, g.client.Some?, es)
    decreases |es|
  {
    hide Session.Connect, AfterEvent, Sound, Received, LastAccepted;
    if es == [] {
      NoResponses(g.coinbase);
    } else {
      EventKeepsSound(suite, g, es[0]);
      var next := AfterEvent(suite, g, es[0]);
      RunKeepsSound(suite, next, es[1..]);
      LastAcceptedAppend(g.coinbase, Received(suite, g, es[0]), Responses(suite, next, es[1..]));
    }
  }

  lemma NoResponses(before: Option<CoinbasePayout>)
    ensures LastAccepted(before, []) == before
  {
  }

  /**
    * The pool over every run from a new one, turns of the receive loop in between included: a present client means
    * stored credentials and an established session; the credentials are those of the last connect attempted, and a
    * reconnect reports "not configured" exactly if there was none; there are never jobs; key and template are the
    * last ones set; the stored payout is the parse of the last received response that parses; and the information
    * reported is, field by field, what these say.
    */
  lemma EveryPoolRun(suite: Suite, es: seq<PoolEvent>, a: Attempt)
    ensures var g := PoolRun(suite, EMPTY, es);
            && (g.client.Some? ==>
                  && g.url.Some? && g.username.Some? && g.password.Some?
                  && g.client.value.connected && Established(g.client.value))
            && Stored(g) == LastCredentials(None, es)
            && (ReconnectPool(suite, g, a).1 == Err(NotConfigured) <==> LastCredentials(None, es).None?)
            && g.publicKey == LastKey(None, es)
            && Info(g) == PoolInfo(if LastCredentials(None, es).Some? then LastCredentials(None, es).value.url
                                   else "(not configured)",
                                   HasClient(suite, None, false, false, es),
                                   LastAccepted(None, Responses(suite, EMPTY, es)).Some?,
                                   0,
                                   LastTemplate(None, es).Some?)
            && g.template == LastTemplate(None, es)
            && g.coinbase == LastAccepted(None, Responses(suite, EMPTY, es))
  {
    assert Sound(EMPTY);
    RunKeepsSound(suite, EMPTY, es);
    var g := PoolRun(suite, EMPTY, es);
    ConnectIsNeverUnconfigured(suite, Fresh(g.publicKey), a);
  }

  /**
    * Attempts on a configured pool: connect and reconnect end as the connect of a new client under the key in force
    * ends; a failed connect keeps the client it found under the new credentials, a failed reconnect keeps the
    * credentials and leaves no client, and either leaves template and payout alone.
    */
  lemma FailedAttempts(suite: Suite, g: GatewayState, who: Credentials, a: Attempt)
    requires Stored(g).Some?
    ensures var (c, r) := ConnectPool(suite, g, who, a);
            && Stored(c) == Some(who) && c.template == g.template && c.coinbase == g.coinbase
            && r == Session.Connect(suite, Fresh(g.publicKey), a).1
            && c.client == (if r.Ok? then Some(Session.Connect(suite, Fresh(g.publicKey), a).0) else g.client)
            && (r.Ok? ==> c.client.value.connected)
    ensures var (c, r) := ReconnectPool(suite, g, a);
            && Stored(c) == Stored(g) && c.template == g.template && c.coinbase == g.coinbase
            && r == Session.Connect(suite, Fresh(g.publicKey), a).1
            && c.client == (if r.Ok? then Some(Session.Connect(suite, Fresh(g.publicKey), a).0) else None)
  {
    if Connect(suite, Fresh(g.publicKey), a).1.Ok? {
      ConnectGivesStanding(suite, g.publicKey, a);
    }
  }

  lemma ConnectIsNeverUnconfigured(suite: Suite, c: ClientState, a: Attempt)
    ensures Session.Connect(suite, c, a).1 != Err(NotConfigured)
  {
    hide Pack, Unpack, Xor, Hello, Written;
  }
}
