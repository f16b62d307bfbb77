/**
  The message callbacks of the four mining workers:
  pubsub_workers_integrated/worker/worker.py, pubsub_workers_simon/worker/worker.py,
  pubsub_workers/worker/worker.py and rabbitmq_workers/worker/worker.py.

  Each callback turns the message into a status dict, stamps it
  "Started Mining" with this worker's id and appends it, looks up a miner,
  and then appends one of "Failed", "No results" or "Finished Mining"
  (after the data row, on success), settling the message with ack or nack.
  The pubsub_workers callback reads its message as raw bytes, which a
  Pub/Sub message is not, so it stops before the first row.
  The same dict is mutated for every status row, so the worker id set
  first is on every later row. Insert errors are only printed.
 */
module Workers {
  import opened Wrappers
  import opened Text
  import opened Values
  import opened Ledger
  import opened Tables
  import opened Sender
  import opened IntegratedSiteWorker

  const StartedMining: string := "Started Mining"
  const Failed: string := "Failed"
  const NoResults: string := "No results"
  const FinishedMining: string := "Finished Mining"

  /** How a callback leaves its message: acknowledged, negatively acknowledged, or neither. */
  datatype Decision = Ack | Nack | Unsettled

  /**
    What the miner step produced: no miner for the domain, a miner that
    found nothing (None), a data record, or an exception escaping the
    callback.
   */
  datatype Outcome<T> = NoMiner | NoResult | Mined(data: T) | Raised

  /** The four worker programs. */
  datatype Variant = Integrated | Simon | PubSubWorker | RabbitWorker

  /** What a worker does with the message when no miner is found. */
  function NoMinerDecision(v: Variant): Decision {
    match v
    case Integrated => Nack
    case Simon => Unsettled
    case PubSubWorker => Ack
    case RabbitWorker => Ack
  }

  /**
    The settling of the message, decided by the mining outcome alone; an
    exception leaves the message unsettled, to be redelivered by the bus.
   */
  function Decide<T>(v: Variant, o: Outcome<T>): Decision {
    match o
    case NoMiner => NoMinerDecision(v)
    case NoResult => Ack
    case Mined(_) => Ack
    case Raised => Unsettled
  }

  /** The statuses a callback writes, in order. */
  function Trail<T>(o: Outcome<T>): (statuses: seq<string>)
    ensures |statuses| >= 1 && statuses[0] == StartedMining
  {
    match o
    case NoMiner => [StartedMining, Failed]
    case NoResult => [StartedMining, NoResults]
    case Mined(_) => [StartedMining, FinishedMining]
    case Raised => [StartedMining]
  }

  /** The status dict after `status['status'] = s; status['timestamp'] = t; status['worker_id'] = self_id`. */
  function StatusRow(msg: Payload, selfId: string, s: string, t: int): Row {
    WithStatus(msg.(workerId := Some(selfId)), s, t)
  }

  /** The rows appended for the first `n` statuses, the k-th when its insert `ok(k)` succeeded. */
  function StatusRowsUpTo(msg: Payload, selfId: string, trail: seq<string>, times: seq<int>,
                          ok: nat -> bool, n: nat): seq<Row>
    requires n <= |trail| && n <= |times|
  {
    if n == 0 then []
    else
      StatusRowsUpTo(msg, selfId, trail, times, ok, n - 1)
        + (if ok(n - 1) then [StatusRow(msg, selfId, trail[n - 1], times[n - 1])] else [])
  }

  function StatusRows(msg: Payload, selfId: string, trail: seq<string>, times: seq<int>,
                      ok: nat -> bool): seq<Row>
    requires |trail| == |times|
  {
    StatusRowsUpTo(msg, selfId, trail, times, ok, |trail|)
  }

  /**
    The rows a callback appends are exactly its statuses whose insert
    succeeded, each for the message's URL and carrying this worker's id.
   */
  lemma {:induction false} StatusRowsSpec(msg: Payload, selfId: string, trail: seq<string>, times: seq<int>,
                                          ok: nat -> bool, n: nat)
    requires n <= |trail| && n <= |times|
    ensures forall k :: 0 <= k < n && ok(k) ==>
      StatusRow(msg, selfId, trail[k], times[k]) in StatusRowsUpTo(msg, selfId, trail, times, ok, n)
    ensures forall w :: w in StatusRowsUpTo(msg, selfId, trail, times, ok, n) ==>
      exists k :: 0 <= k < n && ok(k) && w == StatusRow(msg, selfId, trail[k], times[k])
    ensures forall w :: w in StatusRowsUpTo(msg, selfId, trail, times, ok, n) ==>
      w.articleUrl == msg.articleUrl && w.workerId == Some(selfId)
  {
    if n > 0 {
      StatusRowsSpec(msg, selfId, trail, times, ok, n - 1);
    }
  }

  /** The first row a callback appends, when its insert succeeds, is "Started Mining" with this worker's id. */
  lemma {:induction false} FirstRowStarted<T>(msg: Payload, selfId: string, o: Outcome<T>, times: seq<int>,
                                              ok: nat -> bool)
    requires |times| == |Trail(o)| && ok(0)
    ensures var w := StatusRows(msg, selfId, Trail(o), times, ok);
      w != [] && w[0].status == StartedMining && w[0].workerId == Some(selfId)
      && w[0].timestamp == times[0] && w[0].articleUrl == msg.articleUrl
  {
    var trail := Trail(o);
    assert StatusRowsUpTo(msg, selfId, trail, times, ok, 1) == [StatusRow(msg, selfId, StartedMining, times[0])];
    if |trail| == 2 {
      assert StatusRows(msg, selfId, trail, times, ok)
          == [StatusRow(msg, selfId, StartedMining, times[0])]
             + (if ok(1) then [StatusRow(msg, selfId, trail[1], times[1])] else []);
    }
  }

  /** Every status a callback writes takes the URL out of both undone-work queries. */
  lemma TrailStatusesTaken<T>(o: Outcome<T>, m: StatusMatch)
    ensures forall s :: s in Trail(o) ==> !StatusSelected(m, s)
  {
    TakenStatusesWithdraw(m);
    assert StartedMining in TakenStatuses && Failed in TakenStatuses;
    assert NoResults in TakenStatuses && FinishedMining in TakenStatuses;
  }

  /**
    Once any status row of a callback is stored later than every earlier
    row, the message's URL is returned by neither undone-work query,
    whatever the outcome, the LIMIT and the ranking of ties.
   */
  lemma CallbackWithdraws<T>(rows: seq<Row>, msg: Payload, selfId: string, o: Outcome<T>, times: seq<int>,
                             ok: nat -> bool, m: StatusMatch, tie: nat -> int, limit: nat, k: nat)
    requires |times| == |Trail(o)| && k < |times| && ok(k)
    requires forall r, j :: r in rows && 0 <= j < |times| ==> r.timestamp < times[j]
    ensures msg.articleUrl !in Urls(UndoneQuery(rows + StatusRows(msg, selfId, Trail(o), times, ok), m, tie, limit))
  {
    var trail := Trail(o);
    var ws := StatusRows(msg, selfId, trail, times, ok);
    StatusRowsSpec(msg, selfId, trail, times, ok, |trail|);
    TrailStatusesTaken(o, m);
    forall i, j | 0 <= i < |rows| && 0 <= j < |ws| ensures rows[i].timestamp < ws[j].timestamp {
      assert rows[i] in rows && ws[j] in ws;
    }
    forall j | 0 <= j < |ws| ensures !Undone(m, ws[j]) {
      assert ws[j] in ws;
    }
    AppendWithdraws(rows, ws, m, tie, limit);
    assert StatusRow(msg, selfId, trail[k], times[k]) in ws;
  }

  /** Adjacent increase gives increase between any two readings. */
  lemma {:induction false} IncreasingPairs(times: seq<int>, i: nat, j: nat)
    requires StrictlyIncreasing(times) && i < j < |times|
    ensures times[i] < times[j]
    decreases j - i
  {
    if i + 1 < j {
      IncreasingPairs(times, i + 1, j);
    }
  }

  /**
    Latest wins: when the callback's last status row is stored, and its
    rows are later than all earlier ones, the URL's latest row is that
    last status, for every ranking of ties. Processing a redelivered
    message again only appends later rows, so the URL's logical state is
    the last status of the last processing.
   */
  lemma LastStatusWins<T>(rows: seq<Row>, msg: Payload, selfId: string, o: Outcome<T>, times: seq<int>,
                          ok: nat -> bool, tie: nat -> int)
    requires |times| == |Trail(o)| && StrictlyIncreasing(times) && ok(|times| - 1)
    requires forall r :: r in rows ==> r.timestamp < times[0]
    ensures var all := rows + StatusRows(msg, selfId, Trail(o), times, ok);
      && all[|all| - 1] == StatusRow(msg, selfId, Trail(o)[|times| - 1], times[|times| - 1])
      && IsLatest(all, tie, |all| - 1)
      && forall i :: 0 <= i < |all| && all[i].articleUrl == msg.articleUrl && IsLatest(all, tie, i) ==>
           all[i].status == Trail(o)[|times| - 1]
  {
    var trail := Trail(o);
    var n := |times|;
    var ws := StatusRows(msg, selfId, trail, times, ok);
    var all := rows + ws;
    var last := StatusRow(msg, selfId, trail[n - 1], times[n - 1]);
    assert ws == StatusRowsUpTo(msg, selfId, trail, times, ok, n - 1) + [last];
    StatusRowsSpec(msg, selfId, trail, times, ok, n - 1);
    var before := StatusRowsUpTo(msg, selfId, trail, times, ok, n - 1);
    forall j | 0 <= j < |all| - 1 ensures all[j].timestamp < times[n - 1] {
      if j < |rows| {
        assert all[j] == rows[j] && rows[j] in rows;
        if n > 1 { IncreasingPairs(times, 0, n - 1); }
      } else {
        assert all[j] == before[j - |rows|] && before[j - |rows|] in before;
        var k :| 0 <= k < n - 1 && ok(k) && all[j] == StatusRow(msg, selfId, trail[k], times[k]);
        IncreasingPairs(times, k, n - 1);
      }
    }
    assert all[|all| - 1] == last;
    forall i | 0 <= i < |all| && all[i].articleUrl == msg.articleUrl && IsLatest(all, tie, i)
      ensures all[i].status == trail[n - 1]
    {
      if i != |all| - 1 {
        assert false;
      }
    }
  }

  /**
    The state machine every callback runs once the miner step is known:
    "Started Mining", then the outcome's status with the data row before
    "Finished Mining", and the variant's settling of the message. `ok(k)`
    says whether the k-th status insert succeeds and `dataOk` whether the
    data insert does; they never change what is written next or the
    decision.
   */
  method Process<T>(statusTable: BQTable<Row>, dataTable: BQTable<T>, clock: Clock, selfId: string,
                    v: Variant, msg: Payload, o: Outcome<T>, ok: nat -> bool, dataOk: bool)
    returns (d: Decision, times: seq<int>)
    requires statusTable as object != dataTable as object
    modifies statusTable, dataTable, clock
    ensures d == Decide(v, o)
    ensures |times| == |Trail(o)| && StrictlyIncreasing(times)
    ensures forall k :: 0 <= k < |times| ==> old(clock.now) < times[k] <= clock.now
    ensures statusTable.rows == old(statusTable.rows) + StatusRows(msg, selfId, Trail(o), times, ok)
    ensures dataTable.rows == old(dataTable.rows) + (if o.Mined? && dataOk then [o.data] else [])
  {
    var t0 := clock.Tick();
    var errors := statusTable.InsertRow(StatusRow(msg, selfId, StartedMining, t0), ok(0));
    times := [t0];
    ghost var first := StatusRowsUpTo(msg, selfId, Trail(o), times, ok, 1);
    assert Trail(o)[0] == StartedMining;
    assert StatusRowsUpTo(msg, selfId, Trail(o), times, ok, 0) == [];
    assert first == (if ok(0) then [StatusRow(msg, selfId, StartedMining, t0)] else []);
    if o.Raised? {
      return Unsettled, times;
    }
    if o.Mined? {
      errors := dataTable.InsertRow(o.data, dataOk);
    }
    var s := if o.NoMiner? then Failed else if o.NoResult? then NoResults else FinishedMining;
    var t1 := clock.Tick();
    errors := statusTable.InsertRow(StatusRow(msg, selfId, s, t1), ok(1));
    times := [t0, t1];
    assert StatusRowsUpTo(msg, selfId, Trail(o), times, ok, 1) == first;
    d := Decide(v, o);
  }

  /** `tldextract.extract(url).domain` or `get_fld(url)`: the Public Suffix lookup is not modelled. */
  datatype LookupError = HostIndexError

  /**
    `urlparse(url).netloc.split('.')[1].lower()`: the second dot-separated
    label of the host, lower-cased; a host with one label raises IndexError.
   */
  function NetlocLabel(netloc: string): (r: Result<string, LookupError>)
    ensures r.Err? <==> |Split(netloc, ".")| < 2
  {
    var parts := Split(netloc, ".");
    if |parts| < 2 then Err(HostIndexError) else Ok(Lower(parts[1]))
  }

  /** For a host `a.b.…` whose labels have no dot, the miner key is `b` lower-cased. */
  lemma NetlocLabelOfHost(labels: seq<string>)
    requires |labels| >= 2 && forall p :: p in labels ==> '.' !in p
    ensures NetlocLabel(Join(".", labels)) == Ok(Lower(labels[1]))
  {
    SplitJoin(labels, '.');
  }

  /** A host without a dot has one label, so the key lookup raises IndexError. */
  lemma NetlocOneLabel(netloc: string)
    requires '.' !in netloc
    ensures NetlocLabel(netloc) == Err(HostIndexError)
  {
    SplitJoin([netloc], '.');
  }

  /** `getattr(miners, key, None)`: `miners` names the miner modules the worker can import. */
  function FindMiner(miners: set<string>, key: string): Option<string> {
    if key in miners then Some(key) else None
  }

  /** The outcome of a miner lookup and `miner.GetArticle(url)`. */
  function LookupOutcome(miners: set<string>, key: Result<string, LookupError>, article: Option<Record>)
    : (o: Outcome<Record>)
    ensures key.Err? <==> o.Raised?
    ensures key.Ok? ==> (o.NoMiner? <==> key.value !in miners)
    ensures o.Mined? ==> article.Some? && o.data == article.value
  {
    if key.Err? then Raised
    else if FindMiner(miners, key.value).None? then NoMiner
    else if article.None? then NoResult
    else Mined(article.value)
  }

  /** `data['language'] = status['language']`: the message's language always replaces the miner's. */
  function OverwriteLanguage(data: Record, msg: Payload): (r: Record)
    ensures r.Keys == data.Keys + {"language"}
    ensures r["language"] == (if msg.language.Some? then Str(msg.language.value) else Null)
    ensures forall k :: k in data && k != "language" ==> r[k] == data[k]
  {
    data["language" := if msg.language.Some? then Str(msg.language.value) else Null]
  }

  function WithLanguage(o: Outcome<Record>, msg: Payload): Outcome<Record> {
    if o.Mined? then Mined(OverwriteLanguage(o.data, msg)) else o
  }

  /**
    pubsub_workers_simon: the miner key is the lower-cased registrable
    domain label of the catalog URL (`domainLabel`, from tldextract); with no
    miner it writes "Failed" and returns with neither ack nor nack.
   */
  method SimonCallback(statusTable: BQTable<Row>, dataTable: BQTable<Record>, clock: Clock, selfId: string,
                       msg: Payload, domainLabel: string, miners: set<string>, article: Option<Record>,
                       ok: nat -> bool, dataOk: bool)
    returns (d: Decision, times: seq<int>)
    modifies statusTable, dataTable, clock
    ensures var o := WithLanguage(LookupOutcome(miners, Ok(Lower(domainLabel)), article), msg);
      && d == Decide(Simon, o)
      && |times| == |Trail(o)| && StrictlyIncreasing(times)
      && (forall k :: 0 <= k < |times| ==> old(clock.now) < times[k] <= clock.now)
      && statusTable.rows == old(statusTable.rows) + StatusRows(msg, selfId, Trail(o), times, ok)
      && dataTable.rows == old(dataTable.rows) + (if o.Mined? && dataOk then [o.data] else [])
  {
    var o := WithLanguage(LookupOutcome(miners, Ok(Lower(domainLabel)), article), msg);
    d, times := Process(statusTable, dataTable, clock, selfId, Simon, msg, o, ok, dataOk);
  }

  /**
    What the bus hands a callback: a Pub/Sub message object, whose bytes
    are its `data` attribute, or the raw body bytes RabbitMQ passes.
   */
  datatype Delivery = PubSubMessage(data: Payload) | Body(bytes: Payload)

  /**
    `json.loads(message.decode("utf-8"))` and `json.loads(body)`: only raw
    bytes can be read this way; a Pub/Sub message object has no `decode`,
    so the call raises AttributeError and no status is read.
   */
  function ReadBody(x: Delivery): Option<Payload> {
    if x.Body? then Some(x.bytes) else None
  }

  /** `json.loads(message.data.decode("utf-8"))`, as the Simon and integrated workers read a Pub/Sub message. */
  function ReadData(x: Delivery): Option<Payload> {
    if x.PubSubMessage? then Some(x.data) else None
  }

  /**
    Reading the body of a Pub/Sub message yields no status whatever the
    message carries, while reading its `data` yields the status it carries.
   */
  lemma PubSubBodyUnread(m: Delivery, status: Payload)
    requires m.PubSubMessage?
    ensures ReadBody(m) != Some(status)
    ensures ReadData(m) == Some(m.data)
  {
  }

  /**
    pubsub_workers and rabbitmq_workers as written: the status is read with
    `message.decode` or `json.loads(body)`; the miner key is then the
    second label of the article URL's host (`netloc`, from urlparse),
    lower-cased; with no miner it writes "Failed" and acknowledges, so the
    message is not redelivered. The Pub/Sub subscriber delivers a message
    object, so there the read raises before any row is written and the
    message is never settled; the RabbitMQ worker runs the state machine.
   */
  method NetlocCallback(statusTable: BQTable<Row>, dataTable: BQTable<Record>, clock: Clock, selfId: string,
                        v: Variant, message: Delivery, netloc: string, miners: set<string>,
                        article: Option<Record>, ok: nat -> bool, dataOk: bool)
    returns (d: Decision, times: seq<int>)
    requires (v == PubSubWorker && message.PubSubMessage?) || (v == RabbitWorker && message.Body?)
    modifies statusTable, dataTable, clock
    ensures v == PubSubWorker ==>
      && d == Unsettled && times == [] && clock.now == old(clock.now)
      && statusTable.rows == old(statusTable.rows) && dataTable.rows == old(dataTable.rows)
    ensures v == RabbitWorker ==>
      var msg := message.bytes;
      var o := WithLanguage(LookupOutcome(miners, NetlocLabel(netloc), article), msg);
      && d == Decide(RabbitWorker, o)
      && |times| == |Trail(o)| && StrictlyIncreasing(times)
      && (forall k :: 0 <= k < |times| ==> old(clock.now) < times[k] <= clock.now)
      && statusTable.rows == old(statusTable.rows) + StatusRows(msg, selfId, Trail(o), times, ok)
      && dataTable.rows == old(dataTable.rows) + (if o.Mined? && dataOk then [o.data] else [])
  {
    var status := ReadBody(message);
    if status.None? {
      return Unsettled, [];
    }
    var msg := status.value;
    var o := WithLanguage(LookupOutcome(miners, NetlocLabel(netloc), article), msg);
    d, times := Process(statusTable, dataTable, clock, selfId, v, msg, o, ok, dataOk);
  }

  /**
    The pubsub_workers callback reading the status from `message.data`, as
    the other Pub/Sub workers do: the netloc state machine runs on the
    status the message carries, and a message with no miner is acknowledged.
   */
  method PubSubDataCallback(statusTable: BQTable<Row>, dataTable: BQTable<Record>, clock: Clock, selfId: string,
                            message: Delivery, netloc: string, miners: set<string>,
                            article: Option<Record>, ok: nat -> bool, dataOk: bool)
    returns (d: Decision, times: seq<int>)
    requires message.PubSubMessage?
    modifies statusTable, dataTable, clock
    ensures var msg := message.data;
      var o := WithLanguage(LookupOutcome(miners, NetlocLabel(netloc), article), msg);
      && d == Decide(PubSubWorker, o)
      && |times| == |Trail(o)| && StrictlyIncreasing(times)
      && (forall k :: 0 <= k < |times| ==> old(clock.now) < times[k] <= clock.now)
      && statusTable.rows == old(statusTable.rows) + StatusRows(msg, selfId, Trail(o), times, ok)
      && dataTable.rows == old(dataTable.rows) + (if o.Mined? && dataOk then [o.data] else [])
  {
    var status := ReadData(message);
    var msg := status.value;
    var o := WithLanguage(LookupOutcome(miners, NetlocLabel(netloc), article), msg);
    d, times := Process(statusTable, dataTable, clock, selfId, PubSubWorker, msg, o, ok, dataOk);
  }

  /** The message's language as a data-table value. */
  function LanguageValue(msg: Payload): Value {
    if msg.language.Some? then Str(msg.language.value) else Null
  }

  /** `if 'language' not in data: data['language'] = status['language']`. */
  function FillMissingLanguage(data: Scraped, msg: Payload): (r: Scraped)
    ensures Language in data.fields ==> r == data
    ensures Language !in data.fields ==> r.fields == data.fields[Language := LanguageValue(msg)]
  {
    if Language !in data.fields then data.(fields := data.fields[Language := LanguageValue(msg)]) else data
  }

  /** The outcome of `send_request` as the integrated callback sees it. */
  function IntegratedOutcome(sent: Result<Scraped, ScrapeError>, msg: Payload): (o: Outcome<Scraped>)
    ensures !o.NoResult?
    ensures o.NoMiner? <==> sent.Err? && sent.error.MinerNotFound?
    ensures o.Raised? <==> sent.Err? && !sent.error.MinerNotFound?
  {
    match sent
    case Err(MinerNotFound(_)) => NoMiner
    case Err(_) => Raised
    case Ok(data) => Mined(FillMissingLanguage(data, msg))
  }

  /**
    pubsub_workers_integrated: mining is `send_request(article_url)`, which
    routes the registrable domain `domain` (get_fld) through the site-worker
    factory and projects the miner's `results`. MinerNotFoundError writes
    "Failed" and nacks; any other exception escapes with the message
    unsettled. `send_request` always returns a dict, so its "No results"
    branch is never taken.
   */
  method IntegratedCallback(statusTable: BQTable<Row>, dataTable: BQTable<Scraped>, clock: Clock,
                            selfId: string, msg: Payload, domain: string, results: Record,
                            ok: nat -> bool, dataOk: bool)
    returns (d: Decision, times: seq<int>)
    modifies statusTable, dataTable, clock
    ensures domain !in Domains ==>
      && d == Nack && |times| == 2
      && statusTable.rows == old(statusTable.rows) + StatusRows(msg, selfId, [StartedMining, Failed], times, ok)
      && dataTable.rows == old(dataTable.rows)
    ensures domain in Domains && AcquisitionDateOf(Get(results, ResultKey(AcquisitionDate))).Err? ==>
      && d == Unsettled && |times| == 1 && dataTable.rows == old(dataTable.rows)
      && statusTable.rows == old(statusTable.rows) + StatusRows(msg, selfId, [StartedMining], times, ok)
    ensures domain in Domains && AcquisitionDateOf(Get(results, ResultKey(AcquisitionDate))).Ok? ==>
      && d == Ack && |times| == 2
      && statusTable.rows == old(statusTable.rows) + StatusRows(msg, selfId, [StartedMining, FinishedMining], times, ok)
      && exists data :: IsProjection(results, data)
           && dataTable.rows == old(dataTable.rows) + (if dataOk then [FillMissingLanguage(data, msg)] else [])
    ensures StrictlyIncreasing(times) && forall k :: 0 <= k < |times| ==> old(clock.now) < times[k] <= clock.now
  {
    var sent := SendRequest(domain, results);
    var o := IntegratedOutcome(sent, msg);
    d, times := Process(statusTable, dataTable, clock, selfId, Integrated, msg, o, ok, dataOk);
  }

  /**
    The integrated callback's language fallback never fires on what
    `scrape_data` returns: the projection always has a language column,
    None when the miner found none, so the message's language is never
    used.
   */
  lemma IntegratedLanguageKept(results: Record, data: Scraped, msg: Payload)
    requires IsProjection(results, data)
    ensures FillMissingLanguage(data, msg).fields[Language] == Get(results, "language")
  {
    assert ResultKey(Language) == "language";
  }
}
