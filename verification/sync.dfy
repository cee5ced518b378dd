/** The synchronisation cycle (`updateSensors`, with the guards of
    `getAuthToken` and `fetchRenovasjonData`) as a state machine over the
    held token and a trace of the daemon's outward calls. The outcomes of
    the login and fetch requests and the clock reading are inputs. */
module Sync {
  import opened Wrappers
  import opened Text
  import opened Calendar
  import opened Instants
  import opened Resolver
  import opened Sensors

  /** The configuration the cycle reads: the property whose collections
      are fetched, and the waste-type table it reports on (the daemon's is
      `WasteTypes`). */
  datatype Config = Config(eiendomId: string, wasteTypes: seq<WasteType>)

  /** The daemon only starts with a property identifier configured, and
      its waste-type table is never empty. */
  predicate ValidConfig(cfg: Config) {
    cfg.eiendomId != "" && |cfg.wasteTypes| > 0
  }

  /** JavaScript truthiness of the token variable: set and not empty. */
  predicate HasToken(token: Option<string>) {
    token.Some? && token.value != ""
  }

  /** What the login request came back with: a status and the `token`
      response header, or a transport error. */
  datatype LoginOutcome = LoginReply(status: int, tokenHeader: Option<string>) | LoginNetworkError

  /** `getAuthToken`: the token, when the reply has status 200 and a
      non-empty `token` header; None otherwise. */
  function GetAuthToken(login: LoginOutcome): (r: Option<string>)
    ensures r.Some? <==> login.LoginReply? && login.status == 200 && HasToken(login.tokenHeader)
    ensures r.Some? ==> HasToken(r) && r == login.tokenHeader
  {
    match login
    case LoginReply(status, header) =>
      if status == 200 && header.Some? && header.value != "" then header else None
    case LoginNetworkError => None
  }

  /** One element of the fetched JSON array: `null`, or anything else, which
      the resolver reads as a record. */
  datatype Item = NullItem | Entry(record: Record)

  /** The parsed response body: an array, or some other JSON value. */
  datatype Body = NotAnArray | Items(items: seq<Item>)

  /** What the fetch request came back with: a transport error, a body
      `JSON.parse` rejects, or a parsed body. The response status is not
      inspected. */
  datatype FetchOutcome = FetchNetworkError | BadJson | Parsed(body: Body)

  /** The query of the fetch request: property, date window and token.
      The window is held as the two instants whose dates are sent; the
      query's `datoFra` and `datoTil` texts are `DatoFra` and `DatoTil`. */
  datatype FetchRequest = FetchRequest(eiendomId: string, from: Instant, to: Instant, token: string)

  /** `datoFra`: `toISOString().split('T')[0]` of the window's start. */
  function DatoFra(req: FetchRequest): string {
    BeforeFirst(IsoString(req.from), 'T')
  }

  /** `datoTil`: `toISOString().split('T')[0]` of the window's end. */
  function DatoTil(req: FetchRequest): string {
    BeforeFirst(IsoString(req.to), 'T')
  }

  /** The daemon's outward calls, in the order it makes them. */
  datatype Action = LoginCall | FetchCall(request: FetchRequest) | Publish(message: Message)

  /** The daemon's state: the held token and everything it has done. */
  datatype Daemon = Daemon(authToken: Option<string>, trace: seq<Action>)

  /** Length of the fetch window in days. */
  const WindowDays: int := 90

  /** The fetch window: now and now plus 90 days. None when the later
      instant is outside the range of `Date`, where its `toISOString`
      throws. */
  function FetchWindow(now: Instant): (r: Option<(Instant, Instant)>)
    ensures r.Some? <==> now + WindowDays * MsPerDay <= MaxTime
    ensures r.Some? ==> r.value.0 == now && Day(r.value.1) == Day(now) + WindowDays
  {
    var later := now + WindowDays * MsPerDay;
    if later > MaxTime then None
    else
      DayUnique(later, Day(now) + WindowDays);
      Some((now, later))
  }

  /** The query's date texts read back as the dates of the window's ends:
      the server is asked for today's date through the date 90 days on. */
  lemma QueryDatesReadBack(req: FetchRequest)
    ensures DatoFra(req) == DateText(DateOf(req.from)) && DatoTil(req) == DateText(DateOf(req.to))
    ensures ParseDateText(DatoFra(req)) == Some(DateOf(req.from))
    ensures ParseDateText(DatoTil(req)) == Some(DateOf(req.to))
    ensures 'T' !in DatoFra(req) && 'T' !in DatoTil(req)
  {
    IsoDatePart(req.from);
    IsoDatePart(req.to);
    DateTextRoundTrip(DateOf(req.from));
    DateTextRoundTrip(DateOf(req.to));
    DateTextHasNoT(DateOf(req.from));
    DateTextHasNoT(DateOf(req.to));
  }

  /** The calls a fetch made and the body it resolved with, if any. */
  datatype FetchStep = FetchStep(calls: seq<Action>, body: Option<Body>)

  /** `fetchRenovasjonData`: rejected without a request when no token is
      held; otherwise one request whose result is the parsed body or a
      rejection. */
  function FetchRenovasjonData(cfg: Config, token: Option<string>, now: Instant, fetch: FetchOutcome): (r: FetchStep)
    ensures !HasToken(token) ==> r == FetchStep([], None)
    ensures r.body.Some? <==> HasToken(token) && FetchWindow(now).Some? && fetch.Parsed?
    ensures r.body.Some? ==> r.body.value == fetch.body
    ensures |r.calls| <= 1
    ensures |r.calls| == 1 <==> HasToken(token) && FetchWindow(now).Some?
    ensures |r.calls| == 1 ==>
              r.calls[0].FetchCall? && r.calls[0].request.token == token.value
              && r.calls[0].request.eiendomId == cfg.eiendomId
  {
    if !HasToken(token) then FetchStep([], None)
    else match FetchWindow(now)
      case None => FetchStep([], None)
      case Some((from, to)) =>
        var call := FetchCall(FetchRequest(cfg.eiendomId, from, to, token.value));
        FetchStep([call], if fetch.Parsed? then Some(fetch.body) else None)
  }

  predicate IsRecordArray(body: Body) {
    body.Items? && forall i :: 0 <= i < |body.items| ==> body.items[i].Entry?
  }

  /** The records the update loop reads. None when reading them throws a
      TypeError: `data.filter` on a value that is not an array, or
      `item.fraksjon` on a `null` element. Either happens in the first
      waste type's filter, before anything is published; the table is
      non-empty (`ValidConfig`), so that filter always runs. */
  function RecordsOf(body: Body): (r: Option<seq<Record>>)
    ensures r.Some? <==> IsRecordArray(body)
    ensures r.Some? ==> |r.value| == |body.items|
                        && forall i :: 0 <= i < |r.value| ==> r.value[i] == body.items[i].record
  {
    match body
    case NotAnArray => None
    case Items(items) => EntriesOf(items)
  }

  function EntriesOf(items: seq<Item>): (r: Option<seq<Record>>)
    ensures r.Some? <==> forall i :: 0 <= i < |items| ==> items[i].Entry?
    ensures r.Some? ==> |r.value| == |items| && forall i :: 0 <= i < |items| ==> r.value[i] == items[i].record
  {
    if |items| == 0 then Some([])
    else if items[0].NullItem? then None
    else
      var rest := EntriesOf(items[1..]);
      if rest.None? then
        assert exists i :: 1 <= i < |items| && !items[i].Entry? by {
          var j :| 0 <= j < |items[1..]| && !items[1..][j].Entry?;
          assert !items[j + 1].Entry?;
        }
        None
      else Some([items[0].record] + rest.value)
  }

  function Publishes(ms: seq<Message>): (r: seq<Action>)
    ensures |r| == |ms|
    ensures forall i :: 0 <= i < |ms| ==> r[i] == Publish(ms[i])
  {
    if |ms| == 0 then [] else [Publish(ms[0])] + Publishes(ms[1..])
  }

  /** The publishes of a successful update over `data`. */
  function UpdateMessages(types: seq<WasteType>, data: seq<Record>, now: Instant): seq<Message> {
    SensorMessages(Readings(types, data, now))
  }

  lemma UpdateMessagesCount(types: seq<WasteType>, data: seq<Record>, now: Instant)
    ensures |UpdateMessages(types, data, now)| == 2 * |types|
  {
  }

  /** `updateSensors`: log in when no token is held, fetch, then publish
      every sensor; any rejection along the way is caught and clears the
      token. */
  function UpdateSensors(cfg: Config, s: Daemon, now: Instant, login: LoginOutcome, fetch: FetchOutcome): (s': Daemon)
    requires ValidConfig(cfg)
    ensures s.trace <= s'.trace
    ensures s'.authToken.None? || HasToken(s'.authToken)
  {
    var loginCalls := LoginCalls(s);
    var token := CycleToken(s, login);
    if !HasToken(token) then Daemon(None, s.trace + loginCalls)
    else
      var f := FetchRenovasjonData(cfg, token, now, fetch);
      var trace := s.trace + loginCalls + f.calls;
      if f.body.None? then Daemon(None, trace)
      else match RecordsOf(f.body.value)
        case None => Daemon(None, trace)
        case Some(data) => Daemon(token, trace + Publishes(UpdateMessages(cfg.wasteTypes, data, now)))
  }

  /** The token the cycle works with, when it has one: the held one, or the
      one a successful login returns. */
  function CycleToken(s: Daemon, login: LoginOutcome): Option<string> {
    if HasToken(s.authToken) then s.authToken else GetAuthToken(login)
  }

  /** A cycle succeeds when it has a token, the window can be written, the
      fetch yields a parsed body, and that body is an array of records. */
  predicate CycleSucceeds(s: Daemon, now: Instant, login: LoginOutcome, fetch: FetchOutcome) {
    HasToken(CycleToken(s, login)) && FetchWindow(now).Some? && fetch.Parsed? && IsRecordArray(fetch.body)
  }

  /** The part of the trace a step added. */
  function Added(s: Daemon, s': Daemon): seq<Action>
    requires s.trace <= s'.trace
  {
    s'.trace[|s.trace|..]
  }

  function CountFetches(t: seq<Action>): (n: nat)
    ensures n <= |t|
  {
    if |t| == 0 then 0 else (if t[0].FetchCall? then 1 else 0) + CountFetches(t[1..])
  }

  function CountPublishes(t: seq<Action>): (n: nat)
    ensures n <= |t|
  {
    if |t| == 0 then 0 else (if t[0].Publish? then 1 else 0) + CountPublishes(t[1..])
  }

  lemma {:induction false} CountsAdd(a: seq<Action>, b: seq<Action>)
    ensures CountFetches(a + b) == CountFetches(a) + CountFetches(b)
    ensures CountPublishes(a + b) == CountPublishes(a) + CountPublishes(b)
  {
    if |a| > 0 {
      CountsAdd(a[1..], b);
      assert (a + b)[1..] == a[1..] + b;
    } else {
      assert a + b == b;
    }
  }

  lemma {:induction false} PublishesCount(ms: seq<Message>)
    ensures CountPublishes(Publishes(ms)) == |ms|
    ensures CountFetches(Publishes(ms)) == 0
  {
    if |ms| > 0 {
      PublishesCount(ms[1..]);
      assert Publishes(ms)[1..] == Publishes(ms[1..]);
    }
  }

  /** The login call a cycle makes: one exactly when it holds no token. */
  function LoginCalls(s: Daemon): seq<Action> {
    if HasToken(s.authToken) then [] else [LoginCall]
  }

  /** The fetch call a cycle makes: one exactly when it has a token and the
      window can be written, for the window starting now. */
  function FetchCalls(cfg: Config, s: Daemon, now: Instant, login: LoginOutcome): seq<Action> {
    var token := CycleToken(s, login);
    if HasToken(token) && now + WindowDays * MsPerDay <= MaxTime
    then [FetchCall(FetchRequest(cfg.eiendomId, now, now + WindowDays * MsPerDay, token.value))]
    else []
  }

  /** A failed cycle makes its login and fetch calls, if any, publishes
      nothing and leaves no token, so the next cycle logs in again. */
  lemma UpdateSensorsFailure(cfg: Config, s: Daemon, now: Instant, login: LoginOutcome, fetch: FetchOutcome)
    requires ValidConfig(cfg)
    requires !CycleSucceeds(s, now, login, fetch)
    ensures var s' := UpdateSensors(cfg, s, now, login, fetch);
            s'.authToken == None
            && Added(s, s') == LoginCalls(s) + FetchCalls(cfg, s, now, login)
  {
    var s' := UpdateSensors(cfg, s, now, login, fetch);
    var token := CycleToken(s, login);
    if HasToken(token) {
      var f := FetchRenovasjonData(cfg, token, now, fetch);
      assert f.calls == FetchCalls(cfg, s, now, login);
      assert s'.trace == s.trace + (LoginCalls(s) + f.calls);
    } else {
      assert s'.trace == s.trace + LoginCalls(s);
    }
  }

  /** A successful cycle keeps its token and makes its login call if it
      needs one, then the one fetch, then publishes the update messages for
      the fetched records. */
  lemma UpdateSensorsSuccess(cfg: Config, s: Daemon, now: Instant, login: LoginOutcome, fetch: FetchOutcome)
    requires ValidConfig(cfg)
    requires CycleSucceeds(s, now, login, fetch)
    ensures var s' := UpdateSensors(cfg, s, now, login, fetch);
            s'.authToken == CycleToken(s, login)
            && Added(s, s') == LoginCalls(s) + FetchCalls(cfg, s, now, login)
                               + Publishes(UpdateMessages(cfg.wasteTypes, RecordsOf(fetch.body).value, now))
  {
    var s' := UpdateSensors(cfg, s, now, login, fetch);
    var f := FetchRenovasjonData(cfg, CycleToken(s, login), now, fetch);
    assert f.calls == FetchCalls(cfg, s, now, login);
    var ps := Publishes(UpdateMessages(cfg.wasteTypes, RecordsOf(fetch.body).value, now));
    assert s'.trace == s.trace + (LoginCalls(s) + f.calls + ps);
  }

  /** What a cycle added, counted: a login exactly when it held no token,
      a fetch exactly when it had a token and a window, publishes only when
      it succeeded, and a token afterwards exactly when it succeeded. */
  lemma {:induction false} UpdateSensorsOutcome(cfg: Config, s: Daemon, now: Instant, login: LoginOutcome, fetch: FetchOutcome)
    requires ValidConfig(cfg)
    ensures var s' := UpdateSensors(cfg, s, now, login, fetch);
            var added := Added(s, s');
            && (|added| > 0 && added[0] == LoginCall <==> !HasToken(s.authToken))
            && CountFetches(added) == (if HasToken(CycleToken(s, login)) && FetchWindow(now).Some? then 1 else 0)
            && (HasToken(s'.authToken) <==> CycleSucceeds(s, now, login, fetch))
            && CountPublishes(added) == (if CycleSucceeds(s, now, login, fetch) then 2 * |cfg.wasteTypes| else 0)
  {
    var s' := UpdateSensors(cfg, s, now, login, fetch);
    var calls := LoginCalls(s) + FetchCalls(cfg, s, now, login);
    CountsAdd(LoginCalls(s), FetchCalls(cfg, s, now, login));
    if CycleSucceeds(s, now, login, fetch) {
      UpdateSensorsSuccess(cfg, s, now, login, fetch);
      var ms := UpdateMessages(cfg.wasteTypes, RecordsOf(fetch.body).value, now);
      PublishesCount(ms);
      CountsAdd(calls, Publishes(ms));
      UpdateMessagesCount(cfg.wasteTypes, RecordsOf(fetch.body).value, now);
    } else {
      UpdateSensorsFailure(cfg, s, now, login, fetch);
    }
  }

  /** A cycle that holds no token and whose login fails makes one login
      call, fetches nothing, publishes nothing and leaves no token. */
  lemma AuthFailureSkipsFetchAndPublish(cfg: Config, s: Daemon, now: Instant, login: LoginOutcome, fetch: FetchOutcome)
    requires ValidConfig(cfg)
    requires !HasToken(s.authToken)
    requires !(login.LoginReply? && login.status == 200 && HasToken(login.tokenHeader))
    ensures UpdateSensors(cfg, s, now, login, fetch) == Daemon(None, s.trace + [LoginCall])
  {
    UpdateSensorsFailure(cfg, s, now, login, fetch);
  }

  /** On success the publishes are, per waste type in table order, its state
      message and then its attributes message, none retained. */
  lemma SuccessPublishesEachTypeInOrder(types: seq<WasteType>, data: seq<Record>, now: Instant)
    ensures var ms := UpdateMessages(types, data, now);
            && |ms| == 2 * |types|
            && (forall i :: 0 <= i < |types| ==>
                  ms[2 * i] == StateMessage(ReadingOf(types[i], data, now))
                  && ms[2 * i + 1] == AttributesMessage(ReadingOf(types[i], data, now)))
            && forall k :: 0 <= k < |ms| ==> !ms[k].retain
  {
    var rs := Readings(types, data, now);
    SensorMessagesInOrder(rs);
  }

  /** With the daemon's table, a successful cycle publishes to the state
      and then the attributes topic of `matavfall`, `papir` and
      `restavfall`, in that order. */
  lemma DaemonPublishOrder(data: seq<Record>, now: Instant)
    ensures var ms := UpdateMessages(WasteTypes, data, now);
            |ms| == 6
            && ms[0].topic == StateTopic("matavfall") && ms[1].topic == AttributesTopic("matavfall")
            && ms[2].topic == StateTopic("papir") && ms[3].topic == AttributesTopic("papir")
            && ms[4].topic == StateTopic("restavfall") && ms[5].topic == AttributesTopic("restavfall")
  {
    UpdateTopics(WasteTypes, data, now);
    ConfiguredSensorIds();
  }

  /** The topics of a successful update: per type, its state topic and then
      its attributes topic. */
  lemma UpdateTopics(types: seq<WasteType>, data: seq<Record>, now: Instant)
    ensures var ms := UpdateMessages(types, data, now);
            && |ms| == 2 * |types|
            && forall i :: 0 <= i < |types| ==>
                 ms[2 * i].topic == StateTopic(SensorId(types[i].key))
                 && ms[2 * i + 1].topic == AttributesTopic(SensorId(types[i].key))
  {
    SuccessPublishesEachTypeInOrder(types, data, now);
  }

  /** After a cycle whose fetch failed, the next cycle logs in again before
      it fetches. */
  lemma FetchFailureForcesRelogin(cfg: Config, s: Daemon, now: Instant, login: LoginOutcome, fetch: FetchOutcome,
                                  now': Instant, login': LoginOutcome, fetch': FetchOutcome)
    requires ValidConfig(cfg)
    requires !fetch.Parsed?
    ensures var s1 := UpdateSensors(cfg, s, now, login, fetch);
            var s2 := UpdateSensors(cfg, s1, now', login', fetch');
            s1.authToken == None && |Added(s1, s2)| > 0 && Added(s1, s2)[0] == LoginCall
  {
    UpdateSensorsOutcome(cfg, s, now, login, fetch);
    var s1 := UpdateSensors(cfg, s, now, login, fetch);
    UpdateSensorsOutcome(cfg, s1, now', login', fetch');
  }

  /** One timer tick's inputs: the clock and the two request outcomes. */
  datatype Tick = Tick(now: Instant, login: LoginOutcome, fetch: FetchOutcome)

  /** Cycles run one after another, one per tick. */
  function Run(cfg: Config, s: Daemon, ticks: seq<Tick>): (s': Daemon)
    requires ValidConfig(cfg)
    requires s.authToken.None? || HasToken(s.authToken)
    ensures s.trace <= s'.trace
    ensures s'.authToken.None? || HasToken(s'.authToken)
    decreases |ticks|
  {
    if |ticks| == 0 then s
    else
      var t := ticks[0];
      Run(cfg, UpdateSensors(cfg, s, t.now, t.login, t.fetch), ticks[1..])
  }

  /** Over any run, the number of fetches never exceeds the number of
      cycles. */
  lemma {:induction false} RunFetchesAtMostOncePerTick(cfg: Config, s: Daemon, ticks: seq<Tick>)
    requires ValidConfig(cfg)
    requires s.authToken.None? || HasToken(s.authToken)
    ensures CountFetches(Added(s, Run(cfg, s, ticks))) <= |ticks|
    decreases |ticks|
  {
    if |ticks| > 0 {
      var t := ticks[0];
      var s1 := UpdateSensors(cfg, s, t.now, t.login, t.fetch);
      var s2 := Run(cfg, s1, ticks[1..]);
      CycleFetchesAtMostOnce(cfg, s, t.now, t.login, t.fetch);
      RunFetchesAtMostOncePerTick(cfg, s1, ticks[1..]);
      SuffixSplit(s.trace, s1.trace, s2.trace);
      CountsAdd(Added(s, s1), Added(s1, s2));
    }
  }

  /** One cycle makes at most one fetch. */
  lemma CycleFetchesAtMostOnce(cfg: Config, s: Daemon, now: Instant, login: LoginOutcome, fetch: FetchOutcome)
    requires ValidConfig(cfg)
    ensures CountFetches(Added(s, UpdateSensors(cfg, s, now, login, fetch))) <= 1
  {
    UpdateSensorsOutcome(cfg, s, now, login, fetch);
  }

  lemma SuffixSplit(a: seq<Action>, b: seq<Action>, c: seq<Action>)
    requires a <= b <= c
    ensures c[|a|..] == b[|a|..] + c[|b|..]
  {
  }

  /** The `connect` handler: publish the discovery messages, then run one
      cycle. */
  function OnConnect(cfg: Config, s: Daemon, t: Tick): (s': Daemon)
    requires ValidConfig(cfg)
    ensures s.trace + Publishes(DiscoveryMessages(cfg.wasteTypes)) <= s'.trace
  {
    UpdateSensors(cfg, s.(trace := s.trace + Publishes(DiscoveryMessages(cfg.wasteTypes))), t.now, t.login, t.fetch)
  }

  /** Connecting again republishes identical discovery messages, all
      retained, whatever the daemon's state. */
  lemma DiscoveryIsIdempotent(cfg: Config, s1: Daemon, s2: Daemon, t1: Tick, t2: Tick)
    requires ValidConfig(cfg)
    ensures var n := |cfg.wasteTypes|;
            var a := OnConnect(cfg, s1, t1).trace[|s1.trace|..|s1.trace| + n];
            var b := OnConnect(cfg, s2, t2).trace[|s2.trace|..|s2.trace| + n];
            a == b && forall k :: 0 <= k < |a| ==> a[k].Publish? && a[k].message.retain
  {
    ConnectPublishesDiscovery(cfg, s1, t1);
    ConnectPublishesDiscovery(cfg, s2, t2);
    DiscoveryRetained(cfg.wasteTypes);
  }

  /** A connect's first publishes are the discovery messages. */
  lemma ConnectPublishesDiscovery(cfg: Config, s: Daemon, t: Tick)
    requires ValidConfig(cfg)
    ensures OnConnect(cfg, s, t).trace[|s.trace|..|s.trace| + |cfg.wasteTypes|]
            == Publishes(DiscoveryMessages(cfg.wasteTypes))
  {
    PrefixSlice(s.trace, Publishes(DiscoveryMessages(cfg.wasteTypes)), OnConnect(cfg, s, t).trace);
  }

  lemma DiscoveryRetained(types: seq<WasteType>)
    ensures forall k :: 0 <= k < |types| ==>
              Publishes(DiscoveryMessages(types))[k].Publish? && Publishes(DiscoveryMessages(types))[k].message.retain
  {
  }

  lemma PrefixSlice(a: seq<Action>, p: seq<Action>, x: seq<Action>)
    requires a + p <= x
    ensures x[|a|..|a| + |p|] == p
  {
    assert x[..|a| + |p|] == a + p;
  }
}
