# A verified model of the crawl-and-dispatch pipeline

This project is a Dafny model of the data pipeline that gathers COVID-19
articles. URL builders page through journal searches and record each
article link as a "Not Mined" row of a status ledger. Dispatchers read
the undone rows and publish them to a queue, then record "Sent to queue".
Mining workers take a message, record "Started Mining", run a site miner,
and record "Failed", "No results" or "Finished Mining", with the article
row on success. Site workers scrape claimed batches and mark them "done".

The ledger is append-only. Its "undone work" query is latest-wins: only
each URL's newest row counts, and that row is returned when its status
still says the URL has to be mined and it is not a PDF. Every stage
changes the pipeline's state by appending rows. The model's central facts
follow from that:

- a URL is returned at most once, with its newest row;
- appending a newer row with another status withdraws the URL;
- so a URL sent in one dispatch round, or claimed by one worker, is not
  handed out again.

Each module follows one component of the repository:

- `Ledger` holds rows, the latest-wins query and the clock.
- `Tables` holds `BQTable.GetOrCreate` and the inserts.
- `JobDispatch` holds the claim and "done" writes.
- `Sender` holds the two dispatch loops and the push endpoint.
- `Workers` holds the four message callbacks.
- `IntegratedSiteWorker` and `SiteWorkers` hold the site-worker factories, `scrape_data` and batch flushing.
- `CatalogCollector` and `ScieloSearch` hold the Scielo page count and search addresses.
- `ScieloUrlBuilder`, `IntegratedUrlBuilder`, `ArxivNotebook`, `ArxivBuilder` and `Builders` hold the URL builders.
- `ScieloMiners` and `ArxivMiner` hold the miners' text helpers and result projections.
- `Text`, `Values` and `Dates` hold the Python string, dict and date operations they rely on.

Objects whose methods update fields are classes:

- the ledger table, warehouse and clock;
- the job dispatcher;
- the message bus and the push endpoint;
- the site worker;
- the URL builders;
- the Scielo engine.

Their loops are methods proved against specification functions.

Choices where the code is the authority:

- The dispatched payload is the row without `timestamp` and `status`. It keeps `worker_id`.
- The status spellings differ between components.
  - The ledger tables compare against 'Not Mined' exactly.
  - The job dispatcher compares the lower-cased status.
  - The integrated URL builder writes "Not mined" and the arXiv notebook writes 'not mined'. The first query therefore never returns those rows, while the second does.
- The threshold that flushes a site worker's batch (`count == 50`) fires once, not every fifty items. An empty URL list never flushes and ends in an unbound `articles_df`. Both are modelled as written.
- The `ArxivBuilder.collect` loop reads the same page's elements again without navigating. Every page therefore yields the same links, and the loop ends only at the limit.
- SQL `ROW_NUMBER()` leaves the winner among equal timestamps unspecified. The query takes the tie order as a parameter. Its uniqueness facts hold for every injective order, and its withdrawal facts need a strictly later row.

## Model

| member | source | states |
|---|---|---|
| Text.Lower | updated_urlbuilder/urlbuilder/builders/__init__.py:9 | `str.lower` maps every character by itself and keeps the length |
| Text.LowerIdempotent | updated_urlbuilder/urlbuilder/builders/__init__.py:9-11 | lower-casing twice is lower-casing once |
| Text.Title | pubsub_workers/worker/miners/scielo.py:61 | `str.title` keeps the length, keeps every non-letter and changes letters only into letters |
| Text.JoinSplit | updated_urlbuilder/urlbuilder/builders/ArxivBuilder.py:21 | joining the pieces `str.split` gives with the separator restores the text |
| Text.SplitJoin | rabbitmq_workers/worker/miners/arxiv.py:52 | parts free of a one-character separator, joined by it, split back into those parts |
| Text.SplitJoinSep | updated_urlbuilder/urlbuilder/builders/ArxivBuilder.py:21 | parts that each end before the separator's first occurrence, joined by it, split back into those parts |
| Text.StripWithSpec | pubsub_workers/worker/miners/scielo.py:157 | `str.strip(chars)` removes the longest run of those characters at each end and no more |
| Text.StripNoEdgeSpace | pubsub_workers/worker/miners/scielo.py:54 | text with no white space at either end is left alone by `strip()` |
| Text.Reverse | pubsub_workers/worker/miners/scielo.py:60 | `[::-1]` gives the elements in the opposite order |
| Text.DedupSpec | pubsub_workers/worker/miners/scielo.py:163 | `list(dict.fromkeys(xs))` has the same elements, each once, in the order of first appearance |
| Text.ParseIntToString | catalog_collector/collector.py:64 | `int(str(i))` is i |
| Text.ParseDigits | rabbitmq_workers/worker/miners/arxiv.py:52 | `int` of a string of digits is its decimal value |
| Text.SliceTo | Integrated_URL_builder/url_builder_integration.py:199 | Python's `s[:k]` is a prefix of `s` of length `min(k, len(s))`, or for a negative `k` of length `max(0, len(s) + k)` |
| Values.Get | pubsub_workers/worker/miners/scielo.py:196 | `dict.get(key)` is the stored value, or None for a missing key |
| Ledger.LatestUnique | pubsub_workers_integrated/tables/__init__.py:101-105 | with an injective ranking of equal timestamps, `ROW_NUMBER() ... rn = 1` picks at most one row per article_url |
| Ledger.CandidatesUpTo | pubsub_workers_integrated/tables/__init__.py:100-105 | the rows kept by the inner query and the WHERE clause are exactly the picked rows (latest of their URL, undone), in table order |
| Ledger.CandidatesDistinct | pubsub_workers_integrated/tables/__init__.py:101-105 | the kept rows carry pairwise distinct article URLs |
| Ledger.InsertByTime | pubsub_workers_integrated/tables/__init__.py:106 | inserting a row for ORDER BY adds exactly that row (multiset) |
| Ledger.SortByTime | pubsub_workers_integrated/tables/__init__.py:106 | ORDER BY timestamp ASC returns a permutation of its input |
| Ledger.InsertSorted | pubsub_workers_integrated/tables/__init__.py:106 | inserting into a time-sorted sequence keeps it sorted |
| Ledger.InsertDistinct | pubsub_workers_integrated/tables/__init__.py:106 | inserting a row with a new URL keeps URLs distinct |
| Ledger.SortSpec | pubsub_workers_integrated/tables/__init__.py:106 | the ordered result is sorted by ascending timestamp and keeps URL distinctness |
| Ledger.Take | pubsub_workers_integrated/tables/__init__.py:107 | LIMIT n returns the first min(n, length) rows |
| Ledger.QueryMembers | pubsub_workers_integrated/tables/__init__.py:98-109 | every returned row is a table row that is its URL's latest row and passes the WHERE clause |
| Ledger.QuerySound | pubsub_workers_integrated/tables/__init__.py:98-109 | the result has at most LIMIT rows, distinct URLs, ascending timestamps, only undone rows from the table, each with the greatest timestamp of its URL |
| Ledger.QueryComplete | pubsub_workers_integrated/tables/__init__.py:98-109 | a picked row is returned unless the LIMIT is reached with rows no later than it |
| Ledger.WithdrawnNotReturned | pubsub_workers_integrated/tables/__init__.py:101-105 | a URL whose latest row is not undone is never returned, whatever its older rows say |
| Ledger.AppendWithdraws | pubsub_workers_integrated/tables/__init__.py:71-81 | appending later rows that are not "Not Mined" removes their URLs from the next query |
| Ledger.AppendKeepsOthers | pubsub_workers_integrated/tables/__init__.py:71-81 | appending rows for other URLs leaves which row is a URL's latest unchanged |
| Ledger.StatusSpellings | site_workers/job_dispatcher.py:56 | the exact comparison accepts only "Not Mined"; `lower(status) = "not mined"` also accepts "Not mined" and "not mined" |
| Ledger.TakenStatusesWithdraw | pubsub_workers_integrated/sender/send.py:149-152 | the statuses written once a URL is taken up ("Sent to queue", "working on", "done", the mining statuses) pass neither comparison |
| Ledger.Clock.constructor | pubsub_workers_integrated/sender/send.py:149 | the clock starts at the given reading |
| Ledger.Clock.Tick | pubsub_workers_integrated/sender/send.py:149 | each `utcnow()` reading is strictly later than the previous one |
| Tables.ResolveTableId | pubsub_workers_integrated/tables/__init__.py:18-31 | each non-None argument replaces its component of the dotted id and the others are kept; an id that does not split into exactly three parts fails, with IndexError exactly when an argument is written past the end and ValueError (the unpacking) otherwise |
| Tables.ResolveStable | pubsub_workers_integrated/tables/__init__.py:31-32 | the stored `table_id` re-resolves with no arguments to the same table when the arguments hold no dot |
| Tables.ResolveTableParts | updated_urlbuilder/urlbuilder/builders/tables/__init__.py:19-31 | the split id keeps its length and every component past the third; components 0-2 are overwritten by the non-None arguments (project defaults to component 0); IndexError exactly when a dataset or table argument is written past the end |
| Tables.Warehouse.constructor | pubsub_workers_integrated/tables/__init__.py:38-51 | the catalogue starts with the given datasets and tables |
| Tables.BQTable.constructor | pubsub_workers_integrated/tables/__init__.py:5-10 | a table starts with its id, no client handle and the given rows |
| Tables.BQTable.GetOrCreate | pubsub_workers_integrated/tables/__init__.py:12-60 | the result is the resolved table; on success `table_id` is the dotted join, the handle is set, the dataset and the table are created only when not listed (so a second call creates nothing), rows are untouched; on failure nothing changes |
| Tables.BQTable.GetOrCreateLookup | updated_urlbuilder/urlbuilder/builders/tables/__init__.py:12-42 | `table_id` becomes the re-joined parts (extra parts survive); the Table reference needs exactly three parts, else ValueError; a listed table is fetched, an unlisted one is created in its dataset, and when the dataset does not exist the creation raises NotFound after the id was stored, with handle and tables unchanged; rows and datasets are untouched |
| Tables.BQTable.InsertRows | pubsub_workers_integrated/tables/__init__.py:77-81 | the batch is appended in order when accepted, nothing otherwise, and the error list is empty exactly when accepted; existing rows are never altered |
| Tables.BQTable.InsertRow | pubsub_workers_integrated/tables/__init__.py:71-75 | appends exactly the one row when accepted, with the same error report |
| JobDispatch.Claimed | site_workers/job_dispatcher.py:64-66 | every selected row is copied with status "working on", the one shared timestamp and the worker's id, other columns kept |
| JobDispatch.MarkedDone | site_workers/job_dispatcher.py:83-84 | every row is copied with status "done" and the one shared timestamp, other columns kept |
| JobDispatch.ClaimedUrls | site_workers/job_dispatcher.py:64-66 | claiming keeps the set of article URLs |
| JobDispatch.ClaimExclusive | site_workers/job_dispatcher.py:50-71 | when the fresh timestamp is later than every row, a URL claimed by register_job is not returned by the next register_job, whatever its tie-break and limit |
| JobDispatch.DoneWithdrawn | site_workers/job_dispatcher.py:83-89 | rows marked done are not returned by a later register_job |
| JobDispatch.JobDispatcher.constructor | site_workers/job_dispatcher.py:18-21 | the dispatcher works on the given URL table and clock |
| JobDispatch.JobDispatcher.RegisterJob | site_workers/job_dispatcher.py:36-72 | the result is the case-insensitive latest-wins query with LIMIT `limit`, claimed with a fresh timestamp; exactly those rows are appended (when the upload succeeds) and nothing else changes |
| JobDispatch.JobDispatcher.UpdateJobStatus | site_workers/job_dispatcher.py:74-90 | appends one "done" row per input row, all with one fresh timestamp; only appends |
| Sender.PayloadKeepsOtherKeys | pubsub_workers_integrated/sender/send.py:127-128 | popping `timestamp` and `status` loses nothing else: putting them back rebuilds the row |
| Sender.PublicationsSpec | pubsub_workers_integrated/sender/send.py:125-138 | the k-th message published carries the k-th row's payload, one message per row, in query order |
| Sender.SentRowsUpToExtend | pubsub_workers_integrated/sender/send.py:149-152 | later timestamps do not change the ledger rows already appended |
| Sender.SentRowsSpec | pubsub_workers_integrated/sender/send.py:149-154 | the appended ledger rows are exactly the "Sent to queue" copies of the accepted rows, with their timestamps |
| Sender.Bus.constructor | rabbitmq_workers/sender/send.py:22-26 | the message bus starts empty |
| Sender.Bus.Publish | rabbitmq_workers/sender/send.py:43-49 | publishing appends exactly that message to the bus |
| Sender.SendOne | pubsub_workers_integrated/sender/send.py:126-154 | one row: its payload is published first, then a fresh later timestamp is read and, when the insert is accepted, one "Sent to queue" row is appended; a rejected insert changes nothing else |
| Sender.SendAll | pubsub_workers_integrated/sender/send.py:125-154 | every row is published once in order; the timestamps are fresh and strictly increasing; the ledger gains exactly the accepted "Sent to queue" rows |
| Sender.SendNext | pubsub_workers_integrated/sender/send.py:126-154 | one loop iteration extends the published messages and the appended rows by exactly the next row's |
| Sender.IncreasingBetween | pubsub_workers_integrated/sender/send.py:149 | strictly increasing readings between two bounds all lie between them |
| Sender.DispatchRound | pubsub_workers_integrated/sender/send.py:122-158 | one loop iteration: the rows sent are GetNewURLs of the ledger before the round, each published once in order, each followed by its own "Sent to queue" row when the insert is accepted; insert errors do not stop the loop |
| Sender.PubSubRound | pubsub_workers_integrated/sender/send.py:122-158 | the Pub/Sub sender's round publishes to the topic, with no delivery mode |
| Sender.RabbitRound | rabbitmq_workers/sender/send.py:32-62 | the RabbitMQ sender's round publishes persistent messages (delivery_mode 2) to the durable task_queue |
| Sender.SentUrlsWithdrawn | pubsub_workers_integrated/sender/send.py:123-152 | a URL whose "Sent to queue" row was accepted is not returned by the next GetNewURLs |
| Sender.RejectedUrlKept | pubsub_workers_integrated/sender/send.py:152-154 | a URL whose insert was rejected keeps its latest row, so it is sent again next round |
| Sender.DispatchLoop | pubsub_workers_integrated/sender/send.py:121-158 | any number of rounds only appends to the ledger and to the bus, and every ledger row stays no later than the clock |
| Sender.PushEndpoint.constructor | pubsub_workers_integrated/sender/send.py:60-67 | the endpoint starts with its verification token and no messages |
| Sender.PushEndpoint.Push | pubsub_workers_integrated/sender/send.py:56-70 | a token other than the configured one (missing counts as "") gives ("Invalid request", 400) and leaves MESSAGES unchanged; otherwise the payload is appended and ("OK", 200) returned; an undecodable body raises (500) and appends nothing |
| Workers.Trail | pubsub_workers_integrated/worker/worker.py:22-25 | every callback writes "Started Mining" first, before anything else |
| Workers.StatusRowsSpec | pubsub_workers_integrated/worker/worker.py:22-73 | the status rows appended are exactly the statuses whose insert succeeded, each for the message's URL and carrying this worker's id (the same mutated dict) |
| Workers.FirstRowStarted | pubsub_workers_integrated/worker/worker.py:22-25 | the first ledger write is the "Started Mining" row with this worker's id and the first timestamp |
| Workers.TrailStatusesTaken | pubsub_workers_integrated/worker/worker.py:22-73 | none of the statuses a callback writes is selected by the undone query, in either comparison |
| Workers.CallbackWithdraws | pubsub_workers_integrated/worker/worker.py:22-25 | once any status row of the callback is accepted (with a later timestamp), the URL leaves the undone query |
| Workers.IncreasingPairs | pubsub_workers_integrated/worker/worker.py:23 | successive `now()` readings are ordered |
| Workers.LastStatusWins | pubsub_workers_integrated/worker/worker.py:68-73 | when the last insert succeeds, the callback's final status is the URL's latest row |
| Workers.Process | pubsub_workers_integrated/worker/worker.py:14-77 | the shared state machine: the decision depends on the outcome alone (no miner: per variant; None or data: ack; exception: neither), the status rows are the outcome's trail with fresh increasing timestamps, and exactly one data row is written, only on success |
| Workers.NetlocLabel | pubsub_workers/worker/worker.py:28 | `netloc.split('.')[1]` raises IndexError exactly when the host has fewer than two labels |
| Workers.NetlocLabelOfHost | pubsub_workers/worker/worker.py:28-30 | for a host of two or more labels the miner key is the lower-cased second label (www.scielo.br gives scielo) |
| Workers.NetlocOneLabel | pubsub_workers/worker/worker.py:28 | a one-label host raises IndexError |
| Workers.LookupOutcome | pubsub_workers/worker/worker.py:28-42 | a raising key lookup escapes the callback; otherwise no miner exactly when the key names none; data exactly when the miner returned a record |
| Workers.OverwriteLanguage | pubsub_workers/worker/worker.py:50 | `data['language'] = status['language']` sets the language from the message and keeps every other field |
| Workers.SimonCallback | pubsub_workers_simon/worker/worker.py:15-70 | the lower-cased registrable domain label picks the miner; with no miner a "Failed" row is written and the message is neither acked nor nacked; otherwise as Process, with the language overwritten |
| Workers.NetlocCallback | rabbitmq_workers/worker/worker.py:39-101 | the RabbitMQ worker reads the body bytes; the second netloc label picks the miner; with no miner a "Failed" row is written and the message is acknowledged with basic_ack; otherwise as Process, with the language overwritten. In the Pub/Sub worker the read of the message object raises first: no row, no tick of the clock, the message left unsettled |
| Workers.PubSubBodyUnread | pubsub_workers/worker/worker.py:13-14 | `message.decode` reads no status from a Pub/Sub message, whatever it carries, while `message.data` reads the status it carries |
| Workers.PubSubDataCallback | pubsub_workers/worker/worker.py:13-68 | the callback reading `message.data`: the netloc state machine runs on the carried status, and with no miner the "Failed" row is written and the message acked |
| Workers.FillMissingLanguage | pubsub_workers_integrated/worker/worker.py:57-58 | the language is copied from the message only when the data has none |
| Workers.IntegratedOutcome | pubsub_workers_integrated/worker/worker.py:34-56 | MinerNotFoundError becomes no-miner, any other exception escapes, and the integrated worker never sees a None result |
| Workers.IntegratedCallback | pubsub_workers_integrated/worker/worker.py:14-77 | unknown domain: "Failed" row, nack, no data row; an acquisition date that raises: only "Started Mining" and no settling; otherwise the projected record (language filled when missing) is inserted, "Finished Mining" is written and the message is acked |
| Workers.IntegratedLanguageKept | pubsub_workers_integrated/worker/worker.py:57-58 | the projection always holds a language key (None when mining found none), so the message's language is never copied in |
| IntegratedSiteWorker.Factory | pubsub_workers_integrated/worker/site_worker_integrated.py:99-118 | a domain in the table gets its site worker; any other raises MinerNotFoundError whose message names the domain |
| IntegratedSiteWorker.FactoryDomains | pubsub_workers_integrated/worker/site_worker_integrated.py:107-114 | the factory maps exactly seven domains |
| IntegratedSiteWorker.FactoryRouting | pubsub_workers_integrated/worker/site_worker_integrated.py:107-118 | exactly scielo.br and sld.cu go to the Scielo worker, no other two domains share a worker, and the error message holds the domain name |
| IntegratedSiteWorker.DataMapTable | pubsub_workers_integrated/worker/site_worker_integrated.py:67-78 | data_map has ten distinct output columns, every column appears, and its values are exactly the result keys the columns read |
| IntegratedSiteWorker.AcquisitionDateOf | pubsub_workers_integrated/worker/site_worker_integrated.py:86-87 | a converted acquisition date is a valid day at midnight, wrapped by the trailing comma in a one-element tuple; a non-string (None) raises AttributeError |
| IntegratedSiteWorker.AcquisitionDateOfDay | pubsub_workers_integrated/worker/site_worker_integrated.py:86-87 | "Y-M-D" of a valid day becomes `(datetime(Y, M, D, 0, 0),)` |
| IntegratedSiteWorker.MetaInfo | pubsub_workers_integrated/worker/site_worker_integrated.py:90-93 | meta_info holds exactly the result entries whose key is not a data_map value, with their values, so no key lands in both |
| IntegratedSiteWorker.ResultsPartition | pubsub_workers_integrated/worker/site_worker_integrated.py:80-95 | every result key goes either to a column (its value copied, except the converted acquisition date) or to meta_info, never both |
| IntegratedSiteWorker.SelectColumns | pubsub_workers_integrated/worker/site_worker_integrated.py:80-82 | every column receives `results.get(mapped name)`, None when absent |
| IntegratedSiteWorker.CollectMetaInfo | pubsub_workers_integrated/worker/site_worker_integrated.py:90-93 | the loop collects exactly the meta_info entries |
| IntegratedSiteWorker.ScrapeData | pubsub_workers_integrated/worker/site_worker_integrated.py:52-96 | scrape_data fails exactly when the acquisition date does not convert, with that error; otherwise it returns the ten columns plus meta_info as specified by the projection |
| IntegratedSiteWorker.SendRequest | pubsub_workers_integrated/worker/site_worker_integrated.py:36-49 | an unknown domain raises MinerNotFoundError; a known one returns the projection of the miner's results or the date error |
| SiteWorkers.Factory | site_workers/site_worker_integrated.py:128-144 | a domain in the six-entry table gets its site worker; any other domain is a KeyError (None here) |
| SiteWorkers.FactoriesAgree | site_workers/site_worker_integrated.py:137-143 | this factory agrees with the Pub/Sub worker's factory on every domain except sld.cu, which only the latter routes (to Scielo) |
| SiteWorkers.FlushPointsShape | site_workers/site_worker_integrated.py:87-90 | a flush happens after the 1-based item `count` exactly when count == 50, count == limit or count == len(urls); the flush points are ascending |
| SiteWorkers.RangeSnoc | site_workers/site_worker_integrated.py:91-103 | a new flush point adds the range [prev_count, count) and leaves earlier ranges unchanged |
| SiteWorkers.FlushPointsAscending | site_workers/site_worker_integrated.py:103 | the flush points strictly ascend and stay within the items processed so far |
| SiteWorkers.FlushPointsCount | site_workers/site_worker_integrated.py:90 | the number of flushes is the number of counts meeting the rule, so the 50-item threshold fires once, not every 50 items |
| SiteWorkers.FlushPointsFew | site_workers/site_worker_integrated.py:87-90 | at most three flushes happen in a run, and a non-empty run always flushes at its last item |
| SiteWorkers.FlushPointsPrefix | site_workers/site_worker_integrated.py:87-103 | the flushes made up to an earlier item are a prefix of the flushes made later |
| SiteWorkers.Keep | site_workers/site_worker_integrated.py:91-92 | a result is kept exactly when its authors, date_publication and title are truthy; a missing key raises KeyError |
| SiteWorkers.FilterArticles | site_workers/site_worker_integrated.py:91-93 | the filter never grows the batch and fails only with a KeyError |
| SiteWorkers.FilterArticlesSpec | site_workers/site_worker_integrated.py:91-93 | the filter succeeds exactly when every result has the three keys, and then keeps exactly the qualified results |
| SiteWorkers.RangesTile | site_workers/site_worker_integrated.py:91-103 | the flushed ranges are consecutive, disjoint and together cover the processed items |
| SiteWorkers.MarkedDoneAt | site_workers/site_worker_integrated.py:100-102 | the job marked done at position i of a range is the job at i, with status "done" |
| SiteWorkers.DoneCoversBatch | site_workers/site_worker_integrated.py:100-103 | the rows marked done so far are the jobs up to the last flush point, in order, all "done" |
| SiteWorkers.AllJobsDone | site_workers/site_worker_integrated.py:87-104 | after a complete run every job has been marked done exactly once, in order, including jobs beyond `limit` |
| SiteWorkers.StoppedPrefix | site_workers/site_worker_integrated.py:87-103 | a run stopped by an exception has made a prefix of the complete run's flushes |
| SiteWorkers.BatchesAgreeSnoc | site_workers/site_worker_integrated.py:91-99 | uploading the filtered next range extends the uploaded batches by that range's qualified results |
| SiteWorkers.MarksAgreeSnoc | site_workers/site_worker_integrated.py:100-102 | marking the next range done extends the marked rows by that range |
| SiteWorkers.MarksAgreeGrow | site_workers/site_worker_integrated.py:99-102 | a flush whose update_job_status raised keeps the earlier marks valid |
| SiteWorkers.SiteWorker.constructor | site_workers/site_worker_integrated.py:108-125 | a site worker works on the given dispatcher and article table |
| SiteWorkers.SiteWorker.Flush | site_workers/site_worker_integrated.py:91-103 | one flush: the filtered range is appended to the article table and then the range's jobs are marked done; an exception in either stops there and is reported |
| SiteWorkers.SiteWorker.Step | site_workers/site_worker_integrated.py:87-104 | one item: flush exactly at the flush points; the uploaded batches and marked rows track the flush points |
| SiteWorkers.SiteWorker.ScrapeData | site_workers/site_worker_integrated.py:72-105 | the article table gains the filtered batches and the URL table the done rows, at the flush points only; the result is the last batch; an empty URL list ends with the unbound `articles_df` (UnboundLocalError) |
| SiteWorkers.SiteWorker.SendRequest | site_workers/site_worker_integrated.py:52-70 | an empty dataframe or unknown domain raises KeyError, caught and reported, with nothing written; otherwise scrape_data runs, and on completion every job is marked done in order |
| CatalogCollector.JoinDigits | catalog_collector/collector.py:64 | removing the spaces from digit groups leaves only digits |
| CatalogCollector.DigitsNoSpace | catalog_collector/collector.py:64 | digit groups hold no space |
| CatalogCollector.HitCountGroups | catalog_collector/collector.py:64 | a hit count shown as space-separated digit groups ("1 234") reads as the number the groups spell together |
| CatalogCollector.JoinFirst | catalog_collector/collector.py:64 | the joined groups are at least as long as the first group |
| CatalogCollector.HitCountOf | catalog_collector/collector.py:64 | text that is a digit string once spaces are removed reads as that number |
| CatalogCollector.Total | catalog_collector/collector.py:65 | the total is the hit count, or the limit when one is given and is smaller; never above either |
| CatalogCollector.PageCount | catalog_collector/collector.py:66 | `ceil(total / 15)`: the fewest 15-URL pages holding the total; none for a non-positive total |
| CatalogCollector.PageCountExamples | catalog_collector/collector.py:64-66 | 37 hits make 3 pages, 2 with limit 25, 3 with limit 100 |
| CatalogCollector.Collect | catalog_collector/collector.py:58-70 | a hit text that int() refuses raises ValueError; otherwise one search URL per page, the i-th for page i+1 |
| CatalogCollector.CollectDistinct | catalog_collector/collector.py:70 | the collected search URLs are pairwise distinct |
| CatalogCollector.ParseArgs | catalog_collector/main.py:10-23 | no arguments exit with status 0; a last argument int() accepts is the limit and is popped off the terms, otherwise all arguments are terms and the limit is None; an empty argv or a lone numeric argument raises IndexError |
| CatalogCollector.ParseArgsPartition | catalog_collector/main.py:16-22 | the terms and the popped limit together are exactly the arguments after the program name |
| ScieloSearch.Parenthesized | catalog_collector/collector.py:88 | every term is wrapped in parentheses, in order |
| ScieloSearch.SearchQuery | catalog_collector/collector.py:87-97 | the query has the ten fields in order: q as the terms joined by " OR ", lang "en", count, from = urls_per_page * (page_index - 1) + 1, ..., page, filter[in][] "scl" |
| ScieloSearch.SearchUrlHead | catalog_collector/collector.py:100 | the address up to the page number ends in "=" |
| ScieloSearch.TrailingDigits | catalog_collector/collector.py:100 | two addresses that agree up to a final "=" and end in digits end in the same digits |
| ScieloSearch.SearchUrlPages | catalog_collector/collector.py:74-100 | different page indexes give different search addresses |
| ScieloSearch.SearchUrlsDistinct | catalog_collector/collector.py:70-100 | the search addresses for pages 1..n are pairwise distinct |
| ScieloUrlBuilder.ArticleLinks | updated_urlbuilder/urlbuilder/urlbuilder.py:137 | exactly the links containing "sci_arttext" or "sci_pdf" are kept, in order |
| ScieloUrlBuilder.ArticleLinksAppend | updated_urlbuilder/urlbuilder/urlbuilder.py:137 | the link filter distributes over concatenation |
| ScieloUrlBuilder.IsPdf | updated_urlbuilder/urlbuilder/urlbuilder.py:135 | is_pdf is 1 exactly when the URL contains "sci_pdf", 0 otherwise |
| ScieloUrlBuilder.RowsOf | updated_urlbuilder/urlbuilder/urlbuilder.py:134-148 | one row per URL in order, each built from the URL; a URL without a `tlng` parameter raises KeyError |
| ScieloUrlBuilder.UrlRows | updated_urlbuilder/urlbuilder/urlbuilder.py:122-148 | one row per kept link: the link as article_url, the source page as catalog_url, is_pdf from "sci_pdf", the `tlng` language, status "Not Mined", the one timestamp, the given worker_id and meta_info; KeyError exactly when a kept link has no `tlng` |
| ScieloUrlBuilder.GenerateIntended | updated_urlbuilder/urlbuilder/urlbuilder.py:89-95 | with the slice the code means, the generator yields exactly the first `limit` rows on offer (all of them when fewer) |
| ScieloUrlBuilder.GenerateAsWritten | updated_urlbuilder/urlbuilder/urlbuilder.py:89-95 | as written, the generator yields a prefix of the intended rows, in as many chunks |
| ScieloUrlBuilder.GenerateWithinLimit | updated_urlbuilder/urlbuilder/urlbuilder.py:89-95 | the generator never yields more than `limit` rows |
| ScieloUrlBuilder.ExactHitDropsPage | updated_urlbuilder/urlbuilder/urlbuilder.py:90-94 | when a page brings the count exactly to the limit, `df.iloc[:limit - count]` is `df.iloc[:0]` and the whole page is dropped, where the intended slice keeps it |
| ScieloUrlBuilder.DataframeGenerator | updated_urlbuilder/urlbuilder/urlbuilder.py:50-95 | the generator reads the hit count (ValueError when int() refuses), takes ceil(hits / 15) pages and a missing limit as the hit count, and yields the chunks of the page walk |
| ScieloUrlBuilder.WalkPages | updated_urlbuilder/urlbuilder/urlbuilder.py:76-95 | the loop stops at the "finish" marker, passes an error on, yields every frame below the limit and the sliced frame that reaches it |
| ScieloUrlBuilder.Collect | updated_urlbuilder/urlbuilder/urlbuilder.py:98-119 | every yielded chunk, empty ones included, is appended to the table in order until an upload fails; the result is the total of the chunk lengths, or the generator's error, or the upload error |
| ScieloUrlBuilder.UploadChunks | updated_urlbuilder/urlbuilder/urlbuilder.py:111-118 | the chunks uploaded are a prefix of those given, the table gains exactly their rows, and the total counts them |
| ScieloUrlBuilder.Lengths | updated_urlbuilder/urlbuilder/urlbuilder.py:115 | one length per chunk |
| ScieloUrlBuilder.InsertIntoGbq | urlbuilder/urlbuilder.py:47-93 | the older builder appends one "Not Mined" row per kept link of the page, with one uuid as worker_id and "{}" as meta_info, and returns their number; a link without `tlng` raises KeyError and nothing is written; a failed load raises |
| IntegratedUrlBuilder.FactoryNames | Integrated_URL_builder/url_builder_integration.py:110-128 | `urlbuilderfactory` returns a journal's builder exactly for that journal's name; any other name raises KeyError |
| IntegratedUrlBuilder.UrlBases | Integrated_URL_builder/url_builder_integration.py:58-64 | `_url_base` has an entry for exactly the six scraped journals, none for Scielo |
| IntegratedUrlBuilder.PageUrlInjective | Integrated_URL_builder/url_builder_integration.py:137-138 | different page numbers give different page addresses |
| IntegratedUrlBuilder.PageCount | Integrated_URL_builder/url_builder_integration.py:192 | every journal's `get_urls` visits at least one page |
| IntegratedUrlBuilder.KeptFilter | Integrated_URL_builder/url_builder_integration.py:244 | a journal keeps exactly the links its filter accepts (arxiv: no "format"; pbmc: "article-ru"; the others: all) |
| IntegratedUrlBuilder.SchemaRows | Integrated_URL_builder/url_builder_integration.py:147-171 | one row per URL in order, with the page as catalog_url, is_pdf 1 exactly for an arxiv URL containing "pdf", the journal's language, status "Not mined", one timestamp, no worker_id or meta_info |
| IntegratedUrlBuilder.NotMinedLowerCase | Integrated_URL_builder/url_builder_integration.py:167 | the "Not mined" these rows carry is missed by the ledger tables' exact 'Not Mined' and matched by the dispatcher's lower-cased comparison |
| IntegratedUrlBuilder.RunCons | Integrated_URL_builder/url_builder_integration.py:193-206 | the run from a page is that page's lists, then the rest of the run unless `len(total_urls) == limit` broke the loop |
| IntegratedUrlBuilder.StepWithinLimit | Integrated_URL_builder/url_builder_integration.py:198-199 | a page never takes `total_urls` beyond the limit, and never shrinks it |
| IntegratedUrlBuilder.ResendAsWritten | Integrated_URL_builder/url_builder_integration.py:197-203 | as written, `valid_urls` is never cleared: with links [a] then [b] and a limit of at least 3, the second page uploads [a, b], re-sending a, and `total_urls` becomes [a, a, b] |
| IntegratedUrlBuilder.RunIntended | Integrated_URL_builder/url_builder_integration.py:197-206 | with `valid_urls` started afresh on each page, `total_urls` ends as exactly the first kept links in page order, `min(limit, len(total_urls) + all kept links)` of them |
| IntegratedUrlBuilder.RunIntendedSent | Integrated_URL_builder/url_builder_integration.py:197-204 | with `valid_urls` started afresh on each page, the frames sent page after page carry exactly the links added to `total_urls`, in order, so each counted link is uploaded once (pbmc starting from an empty `_url_list`) |
| IntegratedUrlBuilder.CountsBeforeLimit | Integrated_URL_builder/url_builder_integration.py:198-206 | a page below the limit adds all its links and the rest of the run keeps counting the first links |
| IntegratedUrlBuilder.CountsAtLimit | Integrated_URL_builder/url_builder_integration.py:198-206 | the page that reaches the limit ends the run with the first `limit` links |
| IntegratedUrlBuilder.RunIntendedStep | Integrated_URL_builder/url_builder_integration.py:199 | one page's links followed by the rest compose into the first links of the whole |
| IntegratedUrlBuilder.StepIntended | Integrated_URL_builder/url_builder_integration.py:198-199 | the intended step takes `nums = min(limit - len(total_urls), len(page))` links of the page, and all of them while the limit is not reached |
| IntegratedUrlBuilder.FinalCons | Integrated_URL_builder/url_builder_integration.py:193-206 | the lists after the run are those after its last page |
| IntegratedUrlBuilder.ExtendCounted | Integrated_URL_builder/url_builder_integration.py:199 | the counted prefix of the remaining links grows by the page's links |
| IntegratedUrlBuilder.TakeWithin | Integrated_URL_builder/url_builder_integration.py:199 | taking no more than a page's links from the page followed by the rest takes from the page only |
| IntegratedUrlBuilder.UrlBuilder.constructor | Integrated_URL_builder/url_builder_integration.py:42-64 | a builder starts with its journal, word and limit, empty lists and `_url_base` built from the search word |
| IntegratedUrlBuilder.UrlBuilder.UrlCollector | Integrated_URL_builder/url_builder_integration.py:133-142 | the page address is the base followed by the page number (the base alone when it is None), and the links are what the page yields; the lists are untouched |
| IntegratedUrlBuilder.UrlBuilder.SendToBigquery | Integrated_URL_builder/url_builder_integration.py:177-183 | the current schema is appended to the table when the upload succeeds |
| IntegratedUrlBuilder.UrlBuilder.Count | Integrated_URL_builder/url_builder_integration.py:197-202 | the lists move by exactly one as-written step on the kept links |
| IntegratedUrlBuilder.UrlBuilder.Page | Integrated_URL_builder/url_builder_integration.py:193-204 | one page: page number and address as the journal forms them, the lists stepped on the kept links, the schema built from `_url_list`, and its rows appended when the upload succeeds |
| IntegratedUrlBuilder.UrlBuilder.NextPage | Integrated_URL_builder/url_builder_integration.py:193-206 | the loop body keeps the builder's lists on the as-written run and the table equal to the frames sent so far; it stops at the limit or at a failed upload |
| IntegratedUrlBuilder.UrlBuilder.GetUrls | Integrated_URL_builder/url_builder_integration.py:187-208 | `get_urls`: the lists follow the as-written run page by page; the table gains exactly the frames of the pages uploaded, up to the limit, the last page, or the failed upload that escapes |
| IntegratedUrlBuilder.RunDone | Integrated_URL_builder/url_builder_integration.py:193 | past the last page index nothing more happens |
| IntegratedUrlBuilder.FramesSnoc | Integrated_URL_builder/url_builder_integration.py:203-204 | one more page adds exactly its schema rows, stamped with that page's time |
| ArxivBuilder.Interleaved | updated_urlbuilder/urlbuilder/builders/ArxivBuilder.py:21 | the pieces between the keywords are "+AND+" before each keyword after the first |
| ArxivBuilder.JoinInterleaved | updated_urlbuilder/urlbuilder/builders/ArxivBuilder.py:21 | joining the keywords with "tEmP+AND+tEmP" equals joining the head and the interleaved pieces with "tEmP" |
| ArxivBuilder.ConcatInterleaved | updated_urlbuilder/urlbuilder/builders/ArxivBuilder.py:25 | concatenating the interleaved pieces gives "+AND+k" for each keyword in order |
| ArxivBuilder.PlaceholderUnbordered | updated_urlbuilder/urlbuilder/builders/ArxivBuilder.py:21 | no proper prefix of "tEmP" is also its suffix, so splitting on it finds each occurrence |
| ArxivBuilder.InterleavedMembers | updated_urlbuilder/urlbuilder/builders/ArxivBuilder.py:21 | every piece is "+AND+" or a keyword |
| ArxivBuilder.PiecesSeparable | updated_urlbuilder/urlbuilder/builders/ArxivBuilder.py:21 | with no keyword containing "tEmP", the joined text splits back at exactly the joins |
| ArxivBuilder.PiecesOfKeywords | updated_urlbuilder/urlbuilder/builders/ArxivBuilder.py:21 | the split gives the first keyword, then "+AND+" before each further keyword |
| ArxivBuilder.KeywordStringOf | updated_urlbuilder/urlbuilder/builders/ArxivBuilder.py:21-25 | `keyword_string` is "+AND+k" for each keyword after the first, then "+" and the first keyword |
| ArxivBuilder.KeywordStringShort | updated_urlbuilder/urlbuilder/builders/ArxivBuilder.py:21-25 | one keyword k gives "+k"; no keyword gives "+" |
| ArxivBuilder.LinkRow | updated_urlbuilder/urlbuilder/builders/ArxivBuilder.py:42-51 | a link's row: the link, the page address, is_pdf 0, language "en", status "Not Mined", the time, no worker, the keywords' meta_info |
| ArxivBuilder.StoredSnoc | updated_urlbuilder/urlbuilder/builders/ArxivBuilder.py:52 | one more `insert_row` adds the row to the table exactly when the warehouse accepts it |
| ArxivBuilder.PageIndex | updated_urlbuilder/urlbuilder/builders/ArxivBuilder.py:39-64 | row j of page p is row p*n+j of the run |
| ArxivBuilder.PageStartIsProduct | updated_urlbuilder/urlbuilder/builders/ArxivBuilder.py:39-64 | page p starts after p full pages |
| ArxivBuilder.Slot | updated_urlbuilder/urlbuilder/builders/ArxivBuilder.py:41 | a row's position on its page lies within the page |
| ArxivBuilder.RowsShapedAppend | updated_urlbuilder/urlbuilder/builders/ArxivBuilder.py:41-52 | appending the next link's row keeps every row the row of its page's link |
| ArxivBuilder.RowsStampedAppend | updated_urlbuilder/urlbuilder/builders/ArxivBuilder.py:48 | a later time stamp keeps the rows' times increasing within the run |
| ArxivBuilder.RowsOfPagesAppend | updated_urlbuilder/urlbuilder/builders/ArxivBuilder.py:41-54 | the next row keeps the run a sequence of pages of link rows |
| ArxivBuilder.RowsOfPagesSnoc | updated_urlbuilder/urlbuilder/builders/ArxivBuilder.py:41-54 | the row of link j of page p, inserted after row p*n+j-1, keeps that shape |
| ArxivBuilder.CollectPage | updated_urlbuilder/urlbuilder/builders/ArxivBuilder.py:41-60 | one page: rows for the page's links in order until `total_inserted == limit`; the table gains exactly the rows the warehouse accepts |
| ArxivBuilder.Collect | updated_urlbuilder/urlbuilder/builders/ArxivBuilder.py:19-64 | `collect`: fails exactly when the table id does not resolve to three parts, or when neither the table nor its dataset exists (NotFound); otherwise no row for an empty first page, else exactly `limit` rows, the same links page after page (the loop never loads the next page), with increasing times; the table gains the accepted rows. The source's `collect` returns None; the model returns the number of rows inserted |
| ArxivBuilder.CollectedRowsFields | updated_urlbuilder/urlbuilder/builders/ArxivBuilder.py:42-51 | every collected row is a "Not Mined", English, non-PDF row without a worker for one of the links, from a page of the search |
| ArxivBuilder.ConnectToGbq | updated_urlbuilder/urlbuilder/builders/ArxivBuilder.py:87-96 | `connect_to_gbq` raises IndexError exactly when the id has no dot; otherwise dataset and table are its first two parts and the status table is "project.id" |
| ArxivBuilder.SplitSingle | updated_urlbuilder/urlbuilder/builders/ArxivBuilder.py:94-95 | an id that splits into fewer than two parts has no dot |
| ArxivBuilder.SplitHasDot | updated_urlbuilder/urlbuilder/builders/ArxivBuilder.py:94-95 | an id that splits into two or more parts has a dot |
| ArxivBuilder.SplitAfterDot | updated_urlbuilder/urlbuilder/builders/ArxivBuilder.py:94-95 | splitting "a.b" with a dot-free a gives a, then b's parts |
| ArxivBuilder.ConnectedTableParts | updated_urlbuilder/urlbuilder/builders/ArxivBuilder.py:93-96 | the status table the connection names resolves to the project followed by the id's parts |
| ArxivBuilder.ResolveOwnParts | updated_urlbuilder/urlbuilder/builders/ArxivBuilder.py:37 | a three-part id resolves, with its own parts as defaults, to those parts |
| ArxivBuilder.MetaInfoUnquoted | updated_urlbuilder/urlbuilder/builders/ArxivBuilder.py:50 | as written, the keywords are not quoted: ["a,b"] and ["a","b"] give the same meta_info, and ["covid"] does not give the JSON text |
| ArxivBuilder.Quoted | updated_urlbuilder/urlbuilder/builders/ArxivBuilder.py:50 | each keyword in double quotes, in order |
| ArxivBuilder.QuotedJoin | updated_urlbuilder/urlbuilder/builders/ArxivBuilder.py:50 | joining the quoted keywords with ", " is a quote, the keywords joined by `", "`, and a quote |
| ArxivBuilder.QuotedJoinSplits | updated_urlbuilder/urlbuilder/builders/ArxivBuilder.py:50 | keywords without quotes are recovered by splitting that join |
| ArxivBuilder.NoQuoteNoSep | updated_urlbuilder/urlbuilder/builders/ArxivBuilder.py:50 | text without a quote does not contain the separator |
| ArxivBuilder.MetaInfoJsonInjective | updated_urlbuilder/urlbuilder/builders/ArxivBuilder.py:50 | with the keywords quoted as JSON strings, two meta_info texts are equal only for equal keyword lists |
| Builders.Get | updated_urlbuilder/urlbuilder/builders/__init__.py:5-14 | `get(name)` gives the Scielo builder iff the lower-cased name is "scielo", the arXiv builder iff it is "arxiv", and None otherwise |
| Builders.GetIgnoresCase | updated_urlbuilder/urlbuilder/builders/__init__.py:9-11 | names that differ only in letter case get the same builder, and lower-casing the name first changes nothing |
| Builders.GetExamples | updated_urlbuilder/urlbuilder/builders/__init__.py:9-14 | "SciELO" and "ARXIV" select their builders; "scielo.org" selects none |
| ArxivNotebook.PageUrlsDistinct | Arxiv_URLBuilder.py:244-250 | two pages of one search (offsets 0, 25, 50, …) have different addresses |
| ArxivNotebook.Kept | Arxiv_URLBuilder.py:253 | the kept links are no more than the page's links |
| ArxivNotebook.KeptMembers | Arxiv_URLBuilder.py:253 | a link is kept exactly when it is on the page and contains "abs" |
| ArxivNotebook.Cells | Arxiv_URLBuilder.py:254 | the column holds one string cell per URL, in order |
| ArxivNotebook.SetColumn | Arxiv_URLBuilder.py:254 | assigning a list to a column of a non-empty DataFrame of another length raises ValueError; otherwise the frame takes the list's length and gains the column |
| ArxivNotebook.Broadcast | Arxiv_URLBuilder.py:255-262 | assigning a scalar keeps the frame's length and adds the column |
| ArxivNotebook.SetColumnRectangular | Arxiv_URLBuilder.py:254 | a successful list assignment keeps every column the frame's length |
| ArxivNotebook.BroadcastFills | Arxiv_URLBuilder.py:255-262 | a scalar assignment fills every row of the column with the value and leaves the other columns alone |
| ArxivNotebook.ElemsAppend | Arxiv_URLBuilder.py:256 | the set of links of two lists is the union of their sets |
| ArxivNotebook.Visits | Arxiv_URLBuilder.py:248-252 | page p is visited at its own address and yields what the browser collects there |
| ArxivNotebook.AllKeptEmpty | Arxiv_URLBuilder.py:253 | no link is kept from the first n pages iff no page among them keeps one |
| ArxivNotebook.PageStepConsistent | Arxiv_URLBuilder.py:253-256 | one page raises ValueError exactly when links were kept before and this page keeps some; otherwise `url1` grows by the kept links and the frame stays in step with `url1` and `article_set` |
| ArxivNotebook.PagesContents | Arxiv_URLBuilder.py:248-256 | after a run without error, `url1` is every kept link of every page in order |
| ArxivNotebook.CatalogIsLastPage | Arxiv_URLBuilder.py:255 | after the run every row's catalog_url is the last page's address |
| ArxivNotebook.PagesOkStep | Arxiv_URLBuilder.py:248-256 | the run over n pages succeeds iff the run over n-1 does and the last page keeps nothing or nothing was kept before |
| ArxivNotebook.NoSecondIsAtMostOne | Arxiv_URLBuilder.py:253-254 | "no page keeps links after an earlier one did" is "at most one page keeps links" |
| ArxivNotebook.PagesOkNoSecond | Arxiv_URLBuilder.py:248-256 | the run succeeds iff no page keeps links after an earlier one did |
| ArxivNotebook.PagesFailIff | Arxiv_URLBuilder.py:248-256 | as written, the run succeeds iff at most one page keeps any link |
| ArxivNotebook.PagesErrStays | Arxiv_URLBuilder.py:248-256 | once a page raises, the longer runs raise too |
| ArxivNotebook.TwoPagesFail | Arxiv_URLBuilder.py:248-256 | two pages that each show an "abs" link make `__init__` raise ValueError |
| ArxivNotebook.NotebookUrlBuilder.constructor | Arxiv_URLBuilder.py:246-247 | the builder starts with no URL and an empty DataFrame |
| ArxivNotebook.NotebookUrlBuilder.AddPage | Arxiv_URLBuilder.py:253-256 | the loop body does exactly one page step: it fails when that step raises, and otherwise leaves `url1`, the frame and the seen set as the step gives them |
| ArxivNotebook.NotebookUrlBuilder.ReadPages | Arxiv_URLBuilder.py:245-256 | the loop over `pages` pages (none for a negative count) fails iff the run raises, and otherwise leaves the run's `url1`, frame and seen set |
| ArxivNotebook.NotebookUrlBuilder.Init | Arxiv_URLBuilder.py:228-263 | `__init__` raises iff the page run raises; otherwise `url1` is the run's, the frame gains is_pdf 0, 'en', 'not mined', the time, no worker, no meta_info, and the count printed is the number of distinct kept links |
| ArxivNotebook.NotebookUrlBuilder.Bigquery | Arxiv_URLBuilder.py:266-278 | `bigquery` reads `self.new_urls`, which nothing assigns, so it always raises AttributeError |
| ArxivNotebook.PageRows | Arxiv_URLBuilder.py:254-255 | the intended rows of one page: each kept link with that page's address |
| ArxivNotebook.IntendedRowsLinks | Arxiv_URLBuilder.py:253-255 | with rows appended page by page, the article column is every kept link in order |
| ArxivNotebook.IntendedRowsPrefix | Arxiv_URLBuilder.py:248-255 | a shorter run's rows are a prefix of a longer run's rows |
| ArxivNotebook.IntendedRowsOfPage | Arxiv_URLBuilder.py:248-255 | in the intended frame the rows of page p are its kept links, each with page p's own address |
| ScieloMiners.TagList | pubsub_workers/worker/miners/scielo.py:41-55 | `TagList` gives None exactly for a missing or empty list |
| ScieloMiners.Stripped | pubsub_workers/worker/miners/scielo.py:54 | one stripped string per element |
| ScieloMiners.StripKeepsAbsent | pubsub_workers/worker/miners/scielo.py:54 | stripping adds no character |
| ScieloMiners.UntagStep | pubsub_workers/worker/miners/scielo.py:54 | one tagged element followed by more tagged text reads back as that element followed by the rest |
| ScieloMiners.UntagTagAll | pubsub_workers/worker/miners/scielo.py:54 | elements without '<', tagged and joined, read back as the stripped elements |
| ScieloMiners.TagListRoundTrip | pubsub_workers/worker/miners/scielo.py:41-55 | a non-empty list without '<' gives a tag list that reads back as the stripped elements, in order |
| ScieloMiners.TitleKeepsAbsent | pubsub_workers/worker/miners/scielo.py:61 | title-casing adds no non-letter character |
| ScieloMiners.FormatAuthorNoComma | pubsub_workers/worker/miners/scielo.py:57-61 | a formatted author name has no comma |
| ScieloMiners.FormatAuthorSwap | pubsub_workers/worker/miners/scielo.py:57-61 | "Last,First" becomes "First Last", title-cased and stripped |
| ScieloMiners.DropLabel | pubsub_workers/worker/miners/scielo.py:76-78 | removing one label leaves a suffix of the keywords line |
| ScieloMiners.DropLabels | pubsub_workers/worker/miners/scielo.py:76-78 | removing the labels in turn leaves a suffix of the keywords line |
| ScieloMiners.DropLabelsSnoc | pubsub_workers/worker/miners/scielo.py:76-78 | one more label is tried on what the earlier labels left |
| ScieloMiners.KeywordsClean | pubsub_workers/worker/miners/scielo.py:79 | no parsed keyword holds ',', ';' or ':' |
| ScieloMiners.KeywordsRejoin | pubsub_workers/worker/miners/scielo.py:79 | the keywords joined by commas are the line with ':' made a space and ';' made a comma |
| ScieloMiners.DropAll | pubsub_workers/worker/miners/scielo.py:76-78 | the loop removes the labels in order, each when the lower-cased line starts with it |
| ScieloMiners.DropLabelsWithout | pubsub_workers/worker/miners/scielo.py:76-78 | removing labels adds no character |
| ScieloMiners.SplitKeysWithout | pubsub_workers/worker/miners/scielo.py:79 | splitting adds no character other than a space |
| ScieloMiners.ParseKeywords | pubsub_workers/worker/miners/scielo.py:63-79 | `__parse_keywords`: None exactly for a missing or empty line; otherwise the line without its leading labels, split at ',' and ';' with ':' made a space |
| ScieloMiners.GetKeywords | pubsub_workers/worker/miners/scielo.py:165-173 | `get_keywords`: None exactly for a missing or empty line; otherwise the `keyword` tag list of the parsed keywords, for every line; for a line without '<' that list reads back as the stripped parsed keywords |
| ScieloMiners.GetKeywordsIntegrated | pubsub_workers_integrated/worker/miners/scielo_miner.py:171-181 | the integrated `get_keywords`: None exactly for a missing or empty line, otherwise the non-empty parsed keywords it tags |
| ScieloMiners.LastHeader | pubsub_workers/worker/miners/scielo.py:108-110 | `abstract_index` is the last paragraph whose lower-cased text is "resumo", "abstract" or "resumen"; None when there is none |
| ScieloMiners.KeptWith | pubsub_workers/worker/miners/scielo.py:112-116 | the kept paragraphs are no more than the paragraphs |
| ScieloMiners.Cleaned | pubsub_workers/worker/miners/scielo.py:112-116 | the cleaned paragraphs are no more than the paragraphs |
| ScieloMiners.GetBody | pubsub_workers/worker/miners/scielo.py:91-121 | `get_body` computes the body text: the single paragraph as it is, else the cleaned paragraphs before the last header joined by newlines, None when there is none |
| ScieloMiners.KeptWithEmpty | pubsub_workers/worker/miners/scielo.py:112-116 | nothing is kept iff every cleaned paragraph is blank |
| ScieloMiners.KeptWithFrom | pubsub_workers/worker/miners/scielo.py:112-116 | every kept text is a non-blank cleaned paragraph |
| ScieloMiners.CleanedEmpty | pubsub_workers/worker/miners/scielo.py:112-120 | no cleaned paragraph iff every paragraph is blank once "&nbsp;" is a space and it is stripped |
| ScieloMiners.CleanParagraphTrimmed | pubsub_workers/worker/miners/scielo.py:113 | a non-blank cleaned paragraph has no space at either end |
| ScieloMiners.KeptWithTrimmed | pubsub_workers/worker/miners/scielo.py:112-116 | kept texts are trimmed when every non-blank cleaned one is |
| ScieloMiners.CleanedFrom | pubsub_workers/worker/miners/scielo.py:112-116 | every cleaned paragraph comes from a paragraph of the body |
| ScieloMiners.CleanedTrimmed | pubsub_workers/worker/miners/scielo.py:112-116 | every cleaned paragraph is trimmed |
| ScieloMiners.CleanedWithout | pubsub_workers/worker/miners/scielo.py:112-116 | cleaning adds no character other than a space |
| ScieloMiners.BodyTextNone | pubsub_workers/worker/miners/scielo.py:104-120 | the body is None iff there is more than one paragraph and either no header (the NameError the bare except swallows) or only blank paragraphs before it |
| ScieloMiners.CleanedSplits | pubsub_workers/worker/miners/scielo.py:121 | the joined paragraphs split back at the newlines into the paragraphs |
| ScieloMiners.BodyTextSplits | pubsub_workers/worker/miners/scielo.py:104-121 | a body text of several paragraphs splits back into the cleaned paragraphs before the last header |
| ScieloMiners.References | pubsub_workers/worker/miners/scielo.py:157 | one cleaned reference per entry |
| ScieloMiners.ReferencesTagged | pubsub_workers/worker/miners/scielo.py:154-158 | `get_references` gives None exactly for an empty list |
| ScieloMiners.ReferenceEdges | pubsub_workers/worker/miners/scielo.py:157 | a cleaned reference starts and ends with none of the digits, '.' or ' ' |
| ScieloMiners.ReferenceOfMarked | pubsub_workers/worker/miners/scielo.py:157 | the "[ Links ]" marker is removed before the edges are stripped |
| ScieloMiners.LastPieceFree | pubsub_workers/worker/miners/scielo.py:151 | the text after the last "</sup>" holds no "</sup>" |
| ScieloMiners.LastPieceWhole | pubsub_workers/worker/miners/scielo.py:151 | an entry without "</sup>" is kept whole |
| ScieloMiners.LastPieceStep | pubsub_workers/worker/miners/scielo.py:151 | the last piece is the last piece of the text after the first separator |
| ScieloMiners.SuffixOfSuffix | pubsub_workers/worker/miners/scielo.py:151 | a suffix of a suffix is a suffix |
| ScieloMiners.LastPieceEnds | pubsub_workers/worker/miners/scielo.py:151 | the last piece, preceded by the separator, ends the entry |
| ScieloMiners.OrganizationSpec | pubsub_workers/worker/miners/scielo.py:151 | an affiliation is what follows the last "</sup>": free of it, the whole entry when it has none, and a suffix right after one otherwise |
| ScieloMiners.Organizations | pubsub_workers/worker/miners/scielo.py:151 | one affiliation per entry |
| ScieloMiners.OrganizationsTagged | pubsub_workers/worker/miners/scielo.py:149-152 | `get_organization_affiliated` gives None exactly for an empty list |
| ScieloMiners.FormattedAuthors | pubsub_workers/worker/miners/scielo.py:162 | one formatted name per author |
| ScieloMiners.AuthorsMembers | pubsub_workers/worker/miners/scielo.py:162-163 | the authors listed are exactly the formatted names |
| ScieloMiners.AuthorsOrder | pubsub_workers/worker/miners/scielo.py:163 | `dict.fromkeys` lists each name once, in the order of first appearance |
| ScieloMiners.AuthorsNoComma | pubsub_workers/worker/miners/scielo.py:162-163 | no listed author name has a comma |
| ScieloMiners.AuthorsTagged | pubsub_workers/worker/miners/scielo.py:160-163 | `get_authors` gives None exactly for an empty list |
| ScieloMiners.DatePublication | pubsub_workers/worker/miners/scielo.py:124-143 | a text with an "Epub " part gives None, since the `strptime` line raises NameError (`datetime` is not imported) and the bare except catches it; otherwise the `citation_date` value with no '/' left, from which turning '-' back into '/' restores a value without dashes; a missing value raises AttributeError |
| ScieloMiners.SlashesBack | pubsub_workers/worker/miners/scielo.py:141 | `.replace('/', '-')` is undone by `.replace('-', '/')` on a value without dashes |
| ScieloMiners.AbstractSplits | pubsub_workers/worker/miners/scielo.py:86-88 | `get_abstract` joins the paragraphs by newlines, which split back into them |
| ScieloMiners.Renamed | pubsub_workers/worker/miners/scielo.py:178-181 | popping a key into a new name moves its value there and removes the old key |
| ScieloMiners.GatheredSpec | pubsub_workers/worker/miners/scielo.py:175-186 | `gather` renames the acquisition date, the publication date and the URL, and leaves a non-empty abstract: the mined one, or the body together with a non-empty title |
| ScieloMiners.GatheredNone | pubsub_workers/worker/miners/scielo.py:182-185 | with the keys present, `gather` empties the results iff the abstract is empty and so is the body or the title |
| ScieloMiners.ScieloEngine.constructor | pubsub_workers/worker/miners/scielo.py:175-177 | the engine starts with empty results |
| ScieloMiners.ScieloEngine.Gather | pubsub_workers/worker/miners/scielo.py:175-186 | `gather` raises KeyError exactly when the renaming does, and otherwise leaves the gathered results |
| ScieloMiners.PopMetaSnoc | pubsub_workers/worker/miners/scielo.py:195-197 | the meta_info loop one key further is one more step |
| ScieloMiners.GetArticle | pubsub_workers/worker/miners/scielo.py:188-226 | `GetArticle`: raises KeyError when `gather` does and AttributeError when it emptied the results; otherwise the loop pops each meta key with a value and meta_info is the last value popped (an empty dict when none), stored as JSON text |
| ScieloMiners.MetaKeysInOrder | pubsub_workers/worker/miners/scielo.py:194 | the loop visits references, organization_affiliated, keywords, license and extra_link in that order |
| ScieloMiners.MetaOverwrite | pubsub_workers/worker/miners/scielo.py:195-197 | with references and license set and no extra link, the loop removes references and leaves the license as meta_info |
| ScieloMiners.MetaInfoOverwritten | pubsub_workers/worker/miners/scielo.py:193-224 | as written, such an article has no references anywhere: meta_info is the license alone |
| ScieloMiners.IntendedMeta | pubsub_workers/worker/miners/scielo.py:193-197 | the intended meta_info holds exactly the meta keys with a value, each with its value |
| ScieloMiners.IntendedKeepsMeta | pubsub_workers/worker/miners/scielo.py:193-224 | with the values gathered into one dict, every meta value is in meta_info and no longer at the top level, and every other result is kept |
| Dates.ParseAll | rabbitmq_workers/worker/miners/arxiv.py:52 | `[int(x) for x in ...]` succeeds iff every part parses, and then gives each part's number in order |
| Dates.Midnight | rabbitmq_workers/worker/miners/arxiv.py:52 | `datetime.combine(date(*ints), midnight)`: a value that is not a string raises AttributeError; a result is a valid calendar day at second 0 |
| Dates.ParseAllDigits | rabbitmq_workers/worker/miners/arxiv.py:52 | parts made of digits parse to their decimal values |
| Dates.SplitDay | rabbitmq_workers/worker/miners/arxiv.py:52 | a day written with a non-digit separator splits back into its three parts |
| Dates.MidnightOfDay | rabbitmq_workers/worker/miners/arxiv.py:52 | "Y-M-D" (or "Y/M/D") of a valid day converts to that day at midnight |
| ArxivMiner.FirstMissing | rabbitmq_workers/worker/miners/arxiv.py:43-52 | the dict display reads the keys in order and raises for the first one missing; None iff all are present |
| ArxivMiner.PublicationDate | rabbitmq_workers/worker/miners/arxiv.py:54-55 | a None publication date adds nothing; any other value is converted from "Y/M/D" at midnight |
| ArxivMiner.GetArticle | rabbitmq_workers/worker/miners/arxiv.py:35-66 | a KeyError names a key the results lack; a date failure comes from the acquisition date or the publication date |
| ArxivMiner.GetArticleOk | rabbitmq_workers/worker/miners/arxiv.py:42-66 | `GetArticle` succeeds iff every key is present, the acquisition date converts and the publication date is None or converts; the row is then built from those dates |
| ArxivMiner.GetArticleFirstMissing | rabbitmq_workers/worker/miners/arxiv.py:42-53 | a missing data key raises KeyError for the first missing one in reading order |
| ArxivMiner.RowKeys | rabbitmq_workers/worker/miners/arxiv.py:42-65 | the row has exactly the eight copied fields, acquisition_date, meta_info, and publication_date iff there is a publication date |
| ArxivMiner.DataCopies | rabbitmq_workers/worker/miners/arxiv.py:42-50 | the copied fields keep their names and values, the URL under "link" |
| ArxivMiner.RowCopies | rabbitmq_workers/worker/miners/arxiv.py:54-65 | neither the publication date nor meta_info overwrites a copied field |
| ArxivMiner.RowDates | rabbitmq_workers/worker/miners/arxiv.py:52-55 | the row holds the acquisition date, and the publication date exactly when there is one |
| ArxivMiner.RowMeta | rabbitmq_workers/worker/miners/arxiv.py:58-65 | meta_info is the JSON text of a dict of exactly four keys, the first spelt "references:", holding references, search keyword, license and extra link |
| ArxivMiner.GetArticleDays | rabbitmq_workers/worker/miners/arxiv.py:35-66 | results dated "Y-M-D" and "Y/M/D" give the row with those days at midnight |

## Left out

- Browser sessions and the mining library are not modelled. Page visits, element reads, `gather`, `CollectURLs` and the base miner's results are inputs to the model: link lists, result maps and hit-count strings.
- BigQuery, pandas, Pub/Sub, RabbitMQ and Redis clients are not modelled. They become a row sequence per table, a message log and an acceptance oracle for each insert or upload.
- Delays are not modelled: `time.sleep`, the site worker's random floating-point delay, and the subscriber's 60-second timeout.
- Flow control is not modelled: at most one message in flight, and RabbitMQ prefetch 1.
- Concurrency between workers is not modelled. Every lemma is about one sequence of appends.
- `json.dumps`, `base64` and `uuid` are opaque. The model keeps the encoded value as a value, not as text.
- The URL library calls are not modelled: `urlparse`, `urlencode`, `quote_plus` and `parse_qsl`. Search addresses are built from the query's fields and values as strings, and the `tlng` language is an input.
- `tldextract` and `get_fld` are not modelled. They need the Public Suffix List, so the registrable domain is an input.
- `str.lower` and `str.title` are modelled on ASCII letters only. Unicode case mapping is not.
- The `strptime` formats of the Scielo `get_date_publication` are not modelled. In pubsub_workers/worker/miners/scielo.py that line is never reached without raising NameError, because `datetime` is not imported there.
- The Flask index page of pubsub_workers_integrated/sender/send.py is not modelled.
- The selector-only miners, the bootstrap scripts, the `__main__` subscriber set-up and the configuration setters are not modelled.
- `mining.TagList` is not modelled: the integrated Scielo miner's `get_keywords`, `get_organization_affiliated` and `get_authors` hand over the list they would tag. For `get_authors` (pubsub_workers_integrated/worker/miners/scielo_miner.py:166-169) that list is `ScieloMiners.Authors` of the names, the same formatting and de-duplication as in scielo.py.
- The arXiv miner's `get_authors` is not modelled, for the same reason.
- IntegratedUrlBuilder.UrlBases: the second `.format(search_word)` pass over each interpolated address is taken as the identity, which it is for a search word without `{` or `}`. For a word with braces the source substitutes, unescapes or raises, and the model does not capture this.
- IntegratedUrlBuilder.UrlBuilder.constructor: its `_url_base` is UrlBases, with the same limit on search words that contain `{` or `}`.
- ArxivNotebook.SearchPrefix: the `.format(search_word)` pass of Arxiv_URLBuilder.py is taken as the identity, as for UrlBases. A word with `{` or `}` is not modelled.
- ArxivNotebook.NotebookUrlBuilder.Init: its page addresses come from SearchPrefix, with the same limit on search words that contain `{` or `}`.
- `print` output is not modelled. The one exception is the notebook builder's article count, which `NotebookUrlBuilder.Init` returns.
- Text.ParseInt accepts surrounding white space, an optional sign and ASCII digits. It does not accept the underscores between digits or the non-ASCII digits that Python's `int()` accepts.
- CatalogCollector.PageCount states `ceil(total / 15)` on integers. The float division and the rounding of very large totals are not modelled.
- ArxivBuilder.Collect requires `limit >= 1` when the first page shows links. With a smaller limit the source loop never ends.
- ScieloMiners.ScieloEngine.Gather does not state the partly renamed results it leaves when it raises KeyError.

## Findings

| source | as written | input that shows it | evidently intended | confidence | as-written member | corrected member |
|---|---|---|---|---|---|---|
| updated_urlbuilder/urlbuilder/urlbuilder.py:90-94 | `count += len(df)`, then `df.iloc[:limit - count]` once the count reaches the limit | limit 10 and a first page of 10 links: the count becomes exactly 10 and the chunk yielded is `df.iloc[:0]`, empty | yield the page's rows up to the limit, here all 10 | not executed | ScieloUrlBuilder.ExactHitDropsPage | ScieloUrlBuilder.GenerateIntended |
| Integrated_URL_builder/url_builder_integration.py:197-202 | `valid_urls` is extended on every page and never cleared | limit 3 and pages showing [a] then [b]: the second page uploads [a, b] and `total_urls` becomes [a, a, b] | start `valid_urls` afresh on each page, so each link is uploaded and counted once | not executed | IntegratedUrlBuilder.ResendAsWritten | IntegratedUrlBuilder.RunIntendedSent |
| updated_urlbuilder/urlbuilder/builders/ArxivBuilder.py:50 | the keywords are joined by commas without quotes | keywords ["covid"] give `{"search_terms": [covid]}`, which is not JSON; ["a,b"] and ["a", "b"] give the same text | the keywords as JSON strings, so the text parses and tells keyword lists apart | not executed | ArxivBuilder.MetaInfoUnquoted | ArxivBuilder.MetaInfoJsonInjective |
| Arxiv_URLBuilder.py:254-255 | each page assigns the whole `url1` list to a frame that already has rows, and overwrites `catalog_url` | two pages that each show one "abs" link: the second assignment gives 2 values to a 1-row frame and raises ValueError | rows appended page by page, each with its own page's address | not executed | ArxivNotebook.TwoPagesFail | ArxivNotebook.IntendedRowsOfPage |
| pubsub_workers/worker/miners/scielo.py:195-197 | `meta_info = miner.results.pop(key)` replaces meta_info with each value found | results with references and a license but no extra link: meta_info is the license alone and the references are lost | `meta_info[key] = miner.results.pop(key)`, as the commented-out code after the loop does | not executed | ScieloMiners.MetaInfoOverwritten | ScieloMiners.IntendedKeepsMeta |
| pubsub_workers/worker/worker.py:14 | `json.loads(message.decode("utf-8"))` on the message the Pub/Sub subscriber delivers | any Pub/Sub message: the message object has no `decode`, so the callback raises AttributeError before its first row and neither acks nor nacks the message | `json.loads(message.data.decode("utf-8"))`, as the Simon and integrated workers read it | not executed | Workers.PubSubBodyUnread | Workers.PubSubDataCallback |
