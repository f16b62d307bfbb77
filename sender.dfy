/**
  The dispatch loops of pubsub_workers_integrated/sender/send.py and
  rabbitmq_workers/sender/send.py, and the push endpoint of the former.

  Each round reads the undone rows once, and for each of them in query
  order publishes it without its timestamp and status, then appends a
  "Sent to queue" row with a fresh timestamp; an insert error is only
  reported.
 */
module Sender {
  import opened Wrappers
  import opened Ledger
  import opened Tables

  /** The message body: a ledger row without its `timestamp` and `status` keys. */
  datatype Payload = Payload(
    articleUrl: string,
    catalogUrl: string,
    isPdf: int,
    language: Option<string>,
    workerId: Option<string>,
    metaInfo: Option<string>)

  /** Where a message goes: a Pub/Sub topic, or a RabbitMQ queue and whether it is durable. */
  datatype Destination = PubSubTopic(path: string) | RabbitQueue(name: string, durable: bool)

  /** A published message; `deliveryMode` 2 makes a RabbitMQ message persistent. */
  datatype Message = Message(dest: Destination, body: Payload, deliveryMode: Option<int>)

  const SentToQueue: string := "Sent to queue"

  /** The durable queue the RabbitMQ sender declares and publishes to. */
  const TaskQueue: Destination := RabbitQueue("task_queue", true)

  /** `row.pop('timestamp'); row.pop('status')`. */
  function PayloadOf(r: Row): Payload {
    Payload(r.articleUrl, r.catalogUrl, r.isPdf, r.language, r.workerId, r.metaInfo)
  }

  /** Putting a status and a timestamp back on a payload. */
  function WithStatus(p: Payload, status: string, timestamp: int): Row {
    Row(p.articleUrl, p.catalogUrl, p.isPdf, p.language, status, timestamp, p.workerId, p.metaInfo)
  }

  /** The payload loses exactly the two popped keys: restoring them gives back the row. */
  lemma PayloadKeepsOtherKeys(r: Row)
    ensures WithStatus(PayloadOf(r), r.status, r.timestamp) == r
  {
  }

  /** The row appended after publishing `r`. */
  function SentRow(r: Row, t: int): Row {
    WithStatus(PayloadOf(r), SentToQueue, t)
  }

  /** The messages for the first `n` rows, in query order. */
  function PublicationsUpTo(rows: seq<Row>, dest: Destination, mode: Option<int>, n: nat): seq<Message>
    requires n <= |rows|
  {
    if n == 0 then []
    else PublicationsUpTo(rows, dest, mode, n - 1) + [Message(dest, PayloadOf(rows[n - 1]), mode)]
  }

  /** The messages one round publishes. */
  function Publications(rows: seq<Row>, dest: Destination, mode: Option<int>): seq<Message> {
    PublicationsUpTo(rows, dest, mode, |rows|)
  }

  /** A round publishes one message per returned row, the k-th carrying the k-th row's payload. */
  lemma {:induction false} PublicationsSpec(rows: seq<Row>, dest: Destination, mode: Option<int>, n: nat)
    requires n <= |rows|
    ensures |PublicationsUpTo(rows, dest, mode, n)| == n
    ensures forall k :: 0 <= k < n ==>
      PublicationsUpTo(rows, dest, mode, n)[k] == Message(dest, PayloadOf(rows[k]), mode)
  {
    if n > 0 {
      PublicationsSpec(rows, dest, mode, n - 1);
    }
  }

  /** The Sent rows for the first `n` rows, stamped with the first `n` readings. */
  function SentRowsUpTo(rows: seq<Row>, times: seq<int>, accept: nat -> bool, n: nat): seq<Row>
    requires n <= |rows| && n <= |times|
  {
    if n == 0 then []
    else
      SentRowsUpTo(rows, times, accept, n - 1)
        + (if accept(n - 1) then [SentRow(rows[n - 1], times[n - 1])] else [])
  }

  /** The ledger rows one round appends: a Sent row for each row whose insert was accepted. */
  function SentRows(rows: seq<Row>, times: seq<int>, accept: nat -> bool): seq<Row>
    requires |times| == |rows|
  {
    SentRowsUpTo(rows, times, accept, |rows|)
  }

  /** Later readings do not change the rows already appended. */
  lemma {:induction false} SentRowsUpToExtend(rows: seq<Row>, times: seq<int>, t: int, accept: nat -> bool, n: nat)
    requires n <= |rows| && n <= |times|
    ensures SentRowsUpTo(rows, times + [t], accept, n) == SentRowsUpTo(rows, times, accept, n)
  {
    if n > 0 {
      SentRowsUpToExtend(rows, times, t, accept, n - 1);
      assert (times + [t])[n - 1] == times[n - 1];
    }
  }

  /**
    What a round appends: a Sent row carrying the k-th reading for each
    accepted k, and nothing else.
   */
  lemma {:induction false} SentRowsSpec(rows: seq<Row>, times: seq<int>, accept: nat -> bool, n: nat)
    requires n <= |rows| && n <= |times|
    ensures forall k :: 0 <= k < n && accept(k) ==> SentRow(rows[k], times[k]) in SentRowsUpTo(rows, times, accept, n)
    ensures forall w :: w in SentRowsUpTo(rows, times, accept, n) ==>
      exists k :: 0 <= k < n && accept(k) && w == SentRow(rows[k], times[k])
  {
    if n > 0 {
      SentRowsSpec(rows, times, accept, n - 1);
    }
  }

  /** Each reading is later than the one before it. */
  predicate StrictlyIncreasing(times: seq<int>) {
    forall j :: 0 < j < |times| ==> times[j - 1] < times[j]
  }

  /** The message queue: everything ever published, in order. */
  class Bus {
    var log: seq<Message>

    constructor()
      ensures log == []
    {
      log := [];
    }

    method Publish(m: Message)
      modifies this
      ensures log == old(log) + [m]
    {
      log := log + [m];
    }
  }

  /**
    The body of the loop for one row: publish its payload, then append
    its Sent row stamped with a fresh reading of the clock.
   */
  method SendOne(ledger: BQTable<Row>, bus: Bus, clock: Clock, dest: Destination,
                 mode: Option<int>, row: Row, accepted: bool) returns (t: int)
    modifies ledger, bus, clock
    ensures bus.log == old(bus.log) + [Message(dest, PayloadOf(row), mode)]
    ensures t == clock.now && t > old(clock.now)
    ensures ledger.rows == old(ledger.rows) + (if accepted then [SentRow(row, t)] else [])
    ensures ledger.tableId == old(ledger.tableId) && ledger.handle == old(ledger.handle)
  {
    bus.Publish(Message(dest, PayloadOf(row), mode));
    t := clock.Tick();
    var errors := ledger.InsertRow(SentRow(row, t), accepted);
  }

  /**
    The loop over the rows the query returned: each is published, then
    its Sent row stamped with a fresh clock reading is inserted, when
    `accept` says the insert succeeds.
   */
  method SendAll(ledger: BQTable<Row>, bus: Bus, clock: Clock, dest: Destination,
                 mode: Option<int>, sent: seq<Row>, accept: nat -> bool)
    returns (times: seq<int>)
    modifies ledger, bus, clock
    ensures bus.log == old(bus.log) + Publications(sent, dest, mode)
    ensures |times| == |sent| && StrictlyIncreasing(times)
    ensures forall k :: 0 <= k < |times| ==> old(clock.now) < times[k] <= clock.now
    ensures clock.now >= old(clock.now)
    ensures ledger.rows == old(ledger.rows) + SentRows(sent, times, accept)
    ensures ledger.tableId == old(ledger.tableId) && ledger.handle == old(ledger.handle)
  {
    ghost var rows0 := ledger.rows;
    ghost var start := clock.now;
    times := [];
    for k := 0 to |sent|
      invariant |times| == k && StrictlyIncreasing(times)
      invariant k > 0 ==> start < times[0] && times[k - 1] == clock.now
      invariant clock.now >= start
      invariant bus.log == old(bus.log) + PublicationsUpTo(sent, dest, mode, k)
      invariant ledger.rows == rows0 + SentRowsUpTo(sent, times, accept, k)
      invariant ledger.tableId == old(ledger.tableId) && ledger.handle == old(ledger.handle)
    {
      times := SendNext(ledger, bus, clock, dest, mode, sent, accept, times, k, old(bus.log), rows0);
    }
    IncreasingBetween(times, start, clock.now);
  }

  /** One pass of the send loop, taking the published messages and the appended rows from `k` rows to `k + 1`. */
  method SendNext(ledger: BQTable<Row>, bus: Bus, clock: Clock, dest: Destination, mode: Option<int>,
                  sent: seq<Row>, accept: nat -> bool, times: seq<int>, k: nat,
                  ghost log0: seq<Message>, ghost rows0: seq<Row>)
    returns (next: seq<int>)
    requires k < |sent| && |times| == k
    requires bus.log == log0 + PublicationsUpTo(sent, dest, mode, k)
    requires ledger.rows == rows0 + SentRowsUpTo(sent, times, accept, k)
    modifies ledger, bus, clock
    ensures next == times + [clock.now] && clock.now > old(clock.now)
    ensures bus.log == log0 + PublicationsUpTo(sent, dest, mode, k + 1)
    ensures ledger.rows == rows0 + SentRowsUpTo(sent, next, accept, k + 1)
    ensures ledger.tableId == old(ledger.tableId) && ledger.handle == old(ledger.handle)
  {
    var t := SendOne(ledger, bus, clock, dest, mode, sent[k], accept(k));
    SentRowsUpToExtend(sent, times, t, accept, k);
    next := times + [t];
    assert next[k] == t;
  }

  /** A strictly increasing sequence lies between its first and its last element. */
  lemma {:induction false} IncreasingBetween(times: seq<int>, lo: int, hi: int)
    requires StrictlyIncreasing(times)
    requires times != [] ==> lo < times[0] && times[|times| - 1] <= hi
    ensures forall j :: 0 <= j < |times| ==> lo < times[j] <= hi
  {
    if |times| > 1 {
      var init := times[..|times| - 1];
      IncreasingBetween(init, lo, times[|times| - 1]);
    }
  }

  /**
    One round of the dispatch loop. `tie` is the warehouse's choice among
    equal timestamps for this query, and `accept(k)` says whether the
    insert after the k-th publication succeeds.
   */
  method DispatchRound(ledger: BQTable<Row>, bus: Bus, clock: Clock, dest: Destination,
                       mode: Option<int>, tie: nat -> int, accept: nat -> bool)
    returns (sent: seq<Row>, times: seq<int>)
    modifies ledger, bus, clock
    ensures sent == GetNewUrls(old(ledger.rows), tie)
    ensures bus.log == old(bus.log) + Publications(sent, dest, mode)
    ensures |times| == |sent| && StrictlyIncreasing(times)
    ensures forall k :: 0 <= k < |times| ==> old(clock.now) < times[k] <= clock.now
    ensures clock.now >= old(clock.now)
    ensures ledger.rows == old(ledger.rows) + SentRows(sent, times, accept)
    ensures ledger.tableId == old(ledger.tableId) && ledger.handle == old(ledger.handle)
  {
    sent := GetNewUrls(ledger.rows, tie);
    times := SendAll(ledger, bus, clock, dest, mode, sent, accept);
  }

  /** pubsub_workers_integrated/sender/send.py: publish to the configured topic. */
  method PubSubRound(ledger: BQTable<Row>, bus: Bus, clock: Clock, topic: string,
                     tie: nat -> int, accept: nat -> bool)
    returns (sent: seq<Row>, times: seq<int>)
    modifies ledger, bus, clock
    ensures sent == GetNewUrls(old(ledger.rows), tie)
    ensures bus.log == old(bus.log) + Publications(sent, PubSubTopic(topic), None)
    ensures |times| == |sent| && StrictlyIncreasing(times)
    ensures forall k :: 0 <= k < |times| ==> old(clock.now) < times[k] <= clock.now
    ensures ledger.rows == old(ledger.rows) + SentRows(sent, times, accept)
  {
    sent, times := DispatchRound(ledger, bus, clock, PubSubTopic(topic), None, tie, accept);
  }

  /** rabbitmq_workers/sender/send.py: persistent messages on the durable task queue. */
  method RabbitRound(ledger: BQTable<Row>, bus: Bus, clock: Clock, tie: nat -> int, accept: nat -> bool)
    returns (sent: seq<Row>, times: seq<int>)
    modifies ledger, bus, clock
    ensures sent == GetNewUrls(old(ledger.rows), tie)
    ensures bus.log == old(bus.log) + Publications(sent, TaskQueue, Some(2))
    ensures |times| == |sent| && StrictlyIncreasing(times)
    ensures forall k :: 0 <= k < |times| ==> old(clock.now) < times[k] <= clock.now
    ensures ledger.rows == old(ledger.rows) + SentRows(sent, times, accept)
  {
    sent, times := DispatchRound(ledger, bus, clock, TaskQueue, Some(2), tie, accept);
  }

  /**
    The effect of one round on the next: when the clock was ahead of
    every ledger row, each URL whose Sent row was stored is not returned
    by the next query, whatever the ranking of ties.
   */
  lemma SentUrlsWithdrawn(rows: seq<Row>, sent: seq<Row>, times: seq<int>, accept: nat -> bool,
                          tie: nat -> int, now: int, k: nat)
    requires |times| == |sent| && k < |sent| && accept(k)
    requires forall r :: r in rows ==> r.timestamp <= now
    requires forall j :: 0 <= j < |times| ==> now < times[j]
    ensures sent[k].articleUrl !in Urls(GetNewUrls(rows + SentRows(sent, times, accept), tie))
  {
    var ws := SentRows(sent, times, accept);
    SentRowsSpec(sent, times, accept, |sent|);
    forall i, j | 0 <= i < |rows| && 0 <= j < |ws| ensures rows[i].timestamp < ws[j].timestamp {
      assert rows[i] in rows;
      assert ws[j] in ws;
    }
    forall j | 0 <= j < |ws| ensures !Undone(Exact, ws[j]) {
      assert ws[j] in ws;
    }
    AppendWithdraws(rows, ws, Exact, tie, PageSize);
    assert SentRow(sent[k], times[k]) in ws;
  }

  /**
    A URL none of whose Sent rows was stored keeps its standing in the
    ledger: each of its rows is the latest one exactly when it was before,
    so its row can be returned, and published, again.
   */
  lemma RejectedUrlKept(rows: seq<Row>, sent: seq<Row>, times: seq<int>, accept: nat -> bool,
                        tie: nat -> int, i: nat)
    requires |times| == |sent| && i < |rows|
    requires forall k :: 0 <= k < |sent| && sent[k].articleUrl == rows[i].articleUrl ==> !accept(k)
    ensures IsLatest(rows + SentRows(sent, times, accept), tie, i) <==> IsLatest(rows, tie, i)
  {
    SentRowsSpec(sent, times, accept, |sent|);
    var ws := SentRows(sent, times, accept);
    assert rows[i].articleUrl !in Urls(ws);
    AppendKeepsOthers(rows, ws, tie, i);
  }

  /**
    The sender's main loop run for `rounds` rounds. The ledger and the bus
    only grow, and the clock stays ahead of every ledger row, which is what
    makes each round withdraw the URLs it sent from the next.
   */
  method DispatchLoop(ledger: BQTable<Row>, bus: Bus, clock: Clock, dest: Destination,
                      mode: Option<int>, rounds: nat, tie: nat -> nat -> int,
                      accept: nat -> nat -> bool)
    modifies ledger, bus, clock
    requires forall r :: r in ledger.rows ==> r.timestamp <= clock.now
    ensures old(ledger.rows) <= ledger.rows && old(bus.log) <= bus.log
    ensures forall r :: r in ledger.rows ==> r.timestamp <= clock.now
  {
    var n := 0;
    while n < rounds
      invariant n <= rounds
      invariant old(ledger.rows) <= ledger.rows && old(bus.log) <= bus.log
      invariant forall r :: r in ledger.rows ==> r.timestamp <= clock.now
    {
      ghost var rows0 := ledger.rows;
      ghost var now0 := clock.now;
      var sent, times := DispatchRound(ledger, bus, clock, dest, mode, tie(n), accept(n));
      forall r | r in ledger.rows ensures r.timestamp <= clock.now {
        if r !in rows0 {
          SentRowsSpec(sent, times, accept(n), |sent|);
          assert r in SentRows(sent, times, accept(n));
        }
      }
      n := n + 1;
    }
  }

  /**
    The push endpoint: a request whose `token` argument (empty when
    absent) differs from the configured one is refused with 400 and
    stores nothing; otherwise the decoded message data is stored and 200
    returned. `data` is None when the envelope cannot be decoded, which
    the server's error handler answers with 500.
   */
  class PushEndpoint {
    const verificationToken: string
    var messages: seq<string>

    constructor(verificationToken: string)
      ensures this.verificationToken == verificationToken && messages == []
    {
      this.verificationToken := verificationToken;
      messages := [];
    }

    method Push(token: Option<string>, data: Option<string>) returns (body: string, code: int)
      modifies this
      ensures var given := if token.Some? then token.value else "";
        && (given != verificationToken ==> body == "Invalid request" && code == 400)
        && (given == verificationToken && data.Some? ==>
              body == "OK" && code == 200 && messages == old(messages) + [data.value])
        && (given == verificationToken && data.None? ==> code == 500)
      ensures code != 200 ==> messages == old(messages)
    {
      var given := if token.Some? then token.value else "";
      if given != verificationToken {
        return "Invalid request", 400;
      }
      if data.None? {
        return "An internal error occurred", 500;
      }
      messages := messages + [data.value];
      return "OK", 200;
    }
  }
}
