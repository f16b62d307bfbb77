/**
  site_workers/site_worker_integrated.py: a worker that has claimed a batch
  of URLs through the job dispatcher scrapes them one by one and, at
  certain item counts, uploads the scraped records gathered since the last
  upload and marks the same range of jobs "done".
 */
module SiteWorkers {
  import opened Wrappers
  import opened Values
  import opened Ledger
  import opened Tables
  import opened JobDispatch
  import opened Text
  import IntegratedSiteWorker

  /** `max_threshold`. */
  const MaxThreshold: nat := 50

  /** The factory's domains; unlike the integrated worker it has no 'sld.cu'. */
  const SiteDomains: set<string> :=
    {"ibmc.msk.ru", "arxiv.org", "biorxiv.org", "medrxiv.org", "scielo.br", "preprints.org"}

  /** The site worker subclasses, named by the miner each one runs. */
  type SiteKind = IntegratedSiteWorker.SiteKind

  /** site_worker_factory's dictionary from domain to site worker. */
  const Workers: map<string, SiteKind> := map[
    "ibmc.msk.ru" := IntegratedSiteWorker.IbmcRu,
    "arxiv.org" := IntegratedSiteWorker.Arxiv,
    "biorxiv.org" := IntegratedSiteWorker.Biorxiv,
    "medrxiv.org" := IntegratedSiteWorker.Medrxiv,
    "scielo.br" := IntegratedSiteWorker.Scielo,
    "preprints.org" := IntegratedSiteWorker.Preprints]

  /** site_worker_factory: the site worker for a domain; `None` is the KeyError of the lookup. */
  function Factory(domain: string): (r: Option<SiteKind>)
    ensures r.Some? <==> domain in SiteDomains
    ensures r.Some? ==> r.value == Workers[domain]
  {
    if domain in Workers then Some(Workers[domain]) else None
  }

  /**
    The two factories send every domain to the same site worker, except
    'sld.cu', which only the integrated worker routes (to Scielo).
   */
  lemma FactoriesAgree(domain: string)
    ensures domain != "sld.cu" ==>
      (Factory(domain).Some? <==> IntegratedSiteWorker.Factory(domain).Ok?)
      && (Factory(domain).Some? ==> Factory(domain).value == IntegratedSiteWorker.Factory(domain).value)
    ensures Factory("sld.cu").None? && IntegratedSiteWorker.Factory("sld.cu") == Ok(IntegratedSiteWorker.Scielo)
  {
    assert "sld.cu"[0] != "ibmc.msk.ru"[0] && "sld.cu"[0] != "arxiv.org"[0] && "sld.cu"[0] != "biorxiv.org"[0];
    assert "sld.cu"[0] != "medrxiv.org"[0] && "sld.cu"[0] != "preprints.org"[0] && |"sld.cu"| != |"scielo.br"|;
  }

  /** How send_request ends when nothing escapes it. */
  datatype Sent =
    /** The site worker scraped every job. */
    | Scraped
    /** A KeyError was caught and reported as an empty urls dataframe. */
    | Reported

  /** What escapes `scrape_data`. */
  datatype SiteError =
    /** A scraped record without one of the filtered keys. */
    | KeyError(key: string)
    /** `to_gbq` of the articles or of the "done" rows raised. */
    | UploadError
    /** `return articles_df` before any flush assigned it. */
    | UnboundLocal

  /** The flush test after the 1-based item `count` of `n`. */
  predicate FlushesAt(count: nat, limit: int, n: nat) {
    count == MaxThreshold || count == limit || count == n
  }

  /** The item counts among 1..k after which a flush happens, in order. */
  function FlushPoints(n: nat, limit: int, k: nat): seq<nat>
    requires k <= n
  {
    if k == 0 then []
    else FlushPoints(n, limit, k - 1) + (if FlushesAt(k, limit, n) then [k] else [])
  }

  /** Flush points strictly increase and lie in 1..n. */
  predicate Ascending(ps: seq<nat>, n: nat) {
    && (forall i :: 0 <= i < |ps| ==> 1 <= ps[i] <= n)
    && (forall i :: 0 < i < |ps| ==> ps[i - 1] < ps[i])
  }

  /** Where the f-th flushed range starts: `prev_count` at that flush. */
  function Start(ps: seq<nat>, f: nat): nat
    requires f < |ps|
  {
    if f == 0 then 0 else ps[f - 1]
  }

  /** The flush points strictly increase and are exactly the counts among 1..k passing the flush test. */
  lemma {:induction false} FlushPointsShape(n: nat, limit: int, k: nat)
    requires k <= n
    ensures Ascending(FlushPoints(n, limit, k), k)
    ensures forall c :: c in FlushPoints(n, limit, k) <==> 1 <= c <= k && FlushesAt(c, limit, n)
  {
    if k > 0 {
      FlushPointsShape(n, limit, k - 1);
    }
  }

  /** `prev_count`: the last flush point, 0 before the first flush. */
  function Prev(ps: seq<nat>): nat {
    if ps == [] then 0 else ps[|ps| - 1]
  }

  /** The items of the f-th flushed range, `items[prev_count:count]`; empty if the bounds are out of order. */
  function Range<T>(items: seq<T>, ps: seq<nat>, f: nat): seq<T>
    requires f < |ps|
  {
    if Start(ps, f) <= ps[f] <= |items| then items[Start(ps, f)..ps[f]] else []
  }

  /** Recording one more flush point leaves the earlier ranges alone and makes the new one the items since the last point. */
  lemma RangeSnoc<T>(items: seq<T>, ps: seq<nat>, c: nat)
    ensures forall f :: 0 <= f < |ps| ==> Range(items, ps + [c], f) == Range(items, ps, f)
    ensures Prev(ps) <= c <= |items| ==> Range(items, ps + [c], |ps|) == items[Prev(ps)..c]
  {
    forall f | 0 <= f < |ps|
      ensures Range(items, ps + [c], f) == Range(items, ps, f)
    {
      assert (ps + [c])[f] == ps[f];
      assert Start(ps + [c], f) == Start(ps, f);
    }
  }

  /** The flush points by item k ascend within 1..n, the last of them at most k. */
  lemma {:induction false} FlushPointsAscending(n: nat, limit: int, k: nat)
    requires k <= n
    ensures Ascending(FlushPoints(n, limit, k), n) && Prev(FlushPoints(n, limit, k)) <= k
  {
    if k > 0 {
      FlushPointsAscending(n, limit, k - 1);
    }
  }

  /** How many of the distinct values 50, `limit` and `n` lie in 1..k. */
  function FlushCount(n: nat, limit: int, k: nat): nat {
    (if MaxThreshold <= k then 1 else 0)
    + (if 1 <= limit <= k && limit != MaxThreshold then 1 else 0)
    + (if 1 <= n <= k && n != MaxThreshold && n != limit then 1 else 0)
  }

  /** One flush per distinct value among 50, `limit` and `n` reached by item k. */
  lemma {:induction false} FlushPointsCount(n: nat, limit: int, k: nat)
    requires k <= n
    ensures |FlushPoints(n, limit, k)| == FlushCount(n, limit, k)
  {
    if k > 0 {
      FlushPointsCount(n, limit, k - 1);
    }
  }

  /**
    However many URLs there are, a batch is flushed at most three times
    (after item 50, after item `limit` and at the end of the list), and the
    last flush is at the end of the list.
   */
  lemma FlushPointsFew(n: nat, limit: int)
    ensures |FlushPoints(n, limit, n)| <= 3
    ensures n > 0 ==> var ps := FlushPoints(n, limit, n); ps != [] && ps[|ps| - 1] == n
  {
    FlushPointsCount(n, limit, n);
  }

  /** The flushes done by item k are the first flushes of the whole run. */
  lemma {:induction false} FlushPointsPrefix(n: nat, limit: int, k: nat, m: nat)
    requires k <= m <= n
    ensures FlushPoints(n, limit, k) <= FlushPoints(n, limit, m)
    decreases m - k
  {
    if k < m {
      FlushPointsPrefix(n, limit, k + 1, m);
    }
  }

  /** The record keys the upload filter tests. */
  const AuthorsKey: string := "authors"
  const PublicationKey: string := "date_publication"
  const TitleKey: string := "title"

  /** The truthiness test `i['authors'] and i['date_publication'] and i['title']`, which raises on a missing key. */
  function Keep(rec: Record): (r: Result<bool, SiteError>)
    ensures r == Ok(true) <==> Qualified(rec)
    ensures r.Err? ==> r.error.KeyError?
  {
    if AuthorsKey !in rec then Err(KeyError(AuthorsKey))
    else if !Truthy(rec[AuthorsKey]) then Ok(false)
    else if PublicationKey !in rec then Err(KeyError(PublicationKey))
    else if !Truthy(rec[PublicationKey]) then Ok(false)
    else if TitleKey !in rec then Err(KeyError(TitleKey))
    else Ok(Truthy(rec[TitleKey]))
  }

  /** A record that has truthy authors, publication date and title. */
  predicate Qualified(rec: Record) {
    && AuthorsKey in rec && Truthy(rec[AuthorsKey])
    && PublicationKey in rec && Truthy(rec[PublicationKey])
    && TitleKey in rec && Truthy(rec[TitleKey])
  }

  /** `list(filter(..., recs))`: the qualified records in order, or the first KeyError. */
  function FilterArticles(recs: seq<Record>): (r: Result<seq<Record>, SiteError>)
    ensures r.Err? ==> r.error.KeyError?
    ensures r.Ok? ==> |r.value| <= |recs|
  {
    if recs == [] then Ok([])
    else
      var keep := Keep(recs[0]);
      var rest := FilterArticles(recs[1..]);
      if keep.Err? then Err(keep.error)
      else if rest.Err? then rest
      else Ok((if keep.value then [recs[0]] else []) + rest.value)
  }

  /**
    The filter raises exactly when some record lacks a key it reaches,
    and otherwise keeps exactly the qualified records.
   */
  lemma {:induction false} FilterArticlesSpec(recs: seq<Record>)
    ensures FilterArticles(recs).Ok? <==> forall i :: 0 <= i < |recs| ==> Keep(recs[i]).Ok?
    ensures FilterArticles(recs).Ok? ==>
      forall x :: x in FilterArticles(recs).value <==> x in recs && Qualified(x)
  {
    if recs != [] {
      FilterArticlesSpec(recs[1..]);
      assert forall x :: x in recs <==> x == recs[0] || x in recs[1..];
      assert forall i :: 0 < i < |recs| ==> recs[i] == recs[1..][i - 1];
    }
  }

  /** The job ranges of consecutive flushes tile the list up to the last flush point. */
  lemma {:induction false} RangesTile<T>(items: seq<T>, ps: seq<nat>, f: nat)
    requires Ascending(ps, |items|) && 0 < f <= |ps|
    ensures Flatten(seq(f, g requires 0 <= g < f => Range(items, ps, g))) == items[..ps[f - 1]]
  {
    var ranges := seq(f, g requires 0 <= g < f => Range(items, ps, g));
    if f == 1 {
      assert ranges[..0] == [];
    } else {
      RangesTile(items, ps, f - 1);
      assert ranges[..f - 1] == seq(f - 1, g requires 0 <= g < f - 1 => Range(items, ps, g));
      assert items[..ps[f - 2]] + items[ps[f - 2]..ps[f - 1]] == items[..ps[f - 1]];
    }
  }

  /**
    Every job of the batch is marked done exactly once, in order, whether
    or not its record was uploaded and whether or not it lies beyond
    `limit`: the "done" rows of the first flushes, taken in order, carry
    the batch's URLs up to the last of those flushes.
   */
  lemma MarkedDoneAt(jobs: seq<Row>, lo: nat, hi: nat, t: int, i: nat)
    requires lo <= i < hi <= |jobs|
    ensures MarkedDone(jobs[lo..hi], t)[i - lo].articleUrl == jobs[i].articleUrl
    ensures MarkedDone(jobs[lo..hi], t)[i - lo].status == Done
  {
    assert jobs[lo..hi][i - lo] == jobs[i];
  }

  lemma {:induction false} DoneCoversBatch(jobs: seq<Row>, ps: seq<nat>, marked: seq<seq<Row>>, times: seq<int>)
    requires Ascending(ps, |jobs|) && |marked| <= |ps| && |marked| <= |times|
    requires forall f :: 0 <= f < |marked| ==> marked[f] == MarkedDone(Range(jobs, ps, f), times[f])
    ensures var done := Flatten(marked);
      && |done| == (if marked == [] then 0 else ps[|marked| - 1])
      && |done| <= |jobs|
      && forall i :: 0 <= i < |done| ==> (done[i].articleUrl == jobs[i].articleUrl && done[i].status == Done)
  {
    if marked != [] {
      var f := |marked| - 1;
      var init := marked[..f];
      assert forall g :: 0 <= g < |init| ==> init[g] == marked[g];
      DoneCoversBatch(jobs, ps, init, times);
      var prev: seq<Row> := Flatten(init);
      var part: seq<Row> := marked[f];
      assert Flatten(marked) == prev + part;
      var lo := Start(ps, f);
      assert lo <= ps[f] <= |jobs| by {
        if f > 0 {
          assert ps[f - 1] < ps[f];
        }
      }
      assert |prev| == lo;
      assert part == MarkedDone(jobs[lo..ps[f]], times[f]);
      forall i | 0 <= i < |prev| + |part|
        ensures (prev + part)[i].articleUrl == jobs[i].articleUrl && (prev + part)[i].status == Done
      {
        if i >= |prev| {
          MarkedDoneAt(jobs, lo, ps[f], times[f], i);
        }
      }
    }
  }

  /** Once the last flush happened the whole batch is marked done. */
  lemma AllJobsDone(jobs: seq<Row>, limit: int, marked: seq<seq<Row>>, times: seq<int>)
    requires |jobs| > 0
    requires var ps := FlushPoints(|jobs|, limit, |jobs|);
      && |marked| == |ps| && |marked| <= |times|
      && forall f :: 0 <= f < |marked| ==> marked[f] == MarkedDone(Range(jobs, ps, f), times[f])
    ensures var done := Flatten(marked);
      |done| == |jobs| && forall i :: 0 <= i < |jobs| ==> done[i].articleUrl == jobs[i].articleUrl
  {
    FlushPointsFew(|jobs|, limit);
    FlushPointsShape(|jobs|, limit, |jobs|);
    DoneCoversBatch(jobs, FlushPoints(|jobs|, limit, |jobs|), marked, times);
  }

  /** `batches[f]` is the filtered records of the f-th flushed range. */
  predicate BatchesAgree(results: seq<Record>, flushes: seq<nat>, batches: seq<seq<Record>>) {
    && |batches| == |flushes|
    && forall f :: 0 <= f < |flushes| ==> FilterArticles(Range(results, flushes, f)) == Ok(batches[f])
  }

  /** `marked[f]` is the f-th flushed range of jobs marked done with stamp `times[f]`, for the first |marked| flushes. */
  predicate MarksAgree(jobs: seq<Row>, flushes: seq<nat>, marked: seq<seq<Row>>, times: seq<int>) {
    && |marked| == |times| <= |flushes|
    && forall f :: 0 <= f < |marked| ==> marked[f] == MarkedDone(Range(jobs, flushes, f), times[f])
  }

  /** The flushes done before scrape_data stops at a flush are a prefix of all of them. */
  lemma StoppedPrefix(n: nat, limit: int, count: nat, fs: seq<nat>, uploaded: bool)
    requires 1 <= count <= n && FlushesAt(count, limit, n)
    requires fs == FlushPoints(n, limit, count - 1) + (if uploaded then [count] else [])
    ensures fs <= FlushPoints(n, limit, n)
  {
    if uploaded {
      assert fs == FlushPoints(n, limit, count);
      FlushPointsPrefix(n, limit, count, n);
    } else {
      FlushPointsPrefix(n, limit, count - 1, n);
    }
  }

  lemma BatchesAgreeSnoc(results: seq<Record>, flushes: seq<nat>, batches: seq<seq<Record>>, c: nat, b: seq<Record>)
    requires BatchesAgree(results, flushes, batches)
    requires Prev(flushes) <= c <= |results| && FilterArticles(results[Prev(flushes)..c]) == Ok(b)
    ensures BatchesAgree(results, flushes + [c], batches + [b])
  {
    RangeSnoc(results, flushes, c);
  }

  lemma MarksAgreeSnoc(jobs: seq<Row>, flushes: seq<nat>, marked: seq<seq<Row>>, times: seq<int>, c: nat, t: int)
    requires MarksAgree(jobs, flushes, marked, times) && |marked| == |flushes|
    requires Prev(flushes) <= c <= |jobs|
    ensures MarksAgree(jobs, flushes + [c], marked + [MarkedDone(jobs[Prev(flushes)..c], t)], times + [t])
  {
    RangeSnoc(jobs, flushes, c);
  }

  lemma MarksAgreeGrow(jobs: seq<Row>, flushes: seq<nat>, marked: seq<seq<Row>>, times: seq<int>, c: nat)
    requires MarksAgree(jobs, flushes, marked, times)
    ensures MarksAgree(jobs, flushes + [c], marked, times)
  {
    RangeSnoc(jobs, flushes, c);
  }

  /**
    The worker of site_workers: the job dispatcher holding the URL table,
    and the article table it uploads to.
   */
  class SiteWorker {
    const dispatcher: JobDispatcher
    const articleTable: BQTable<Record>

    constructor(dispatcher: JobDispatcher, articleTable: BQTable<Record>)
      ensures this.dispatcher == dispatcher && this.articleTable == articleTable
    {
      this.dispatcher := dispatcher;
      this.articleTable := articleTable;
    }

    /**
      The body of one flush in scrape_data, after item `count`: filter the
      records since `prev`, upload them, then mark the same jobs done.
      The article upload happens only when the filter raised nothing, and
      the jobs are marked only when that upload succeeded; the flush is
      recorded once its articles are stored.
     */
    method Flush(jobs: seq<Row>, results: seq<Record>, count: nat, uploadOk: bool, doneOk: bool,
                 ghost articles0: seq<Record>, ghost urls0: seq<Row>,
                 flushes: seq<nat>, batches: seq<seq<Record>>, marked: seq<seq<Row>>, times: seq<int>)
      returns (r: Result<seq<Record>, SiteError>, uploaded: bool, flushes': seq<nat>, batches': seq<seq<Record>>,
               marked': seq<seq<Row>>, times': seq<int>)
      requires |jobs| == |results| && Prev(flushes) < count <= |jobs|
      requires BatchesAgree(results, flushes, batches) && MarksAgree(jobs, flushes, marked, times)
      requires |marked| == |flushes|
      requires articleTable.rows == articles0 + Flatten(batches)
      requires dispatcher.urlTable.rows == urls0 + Flatten(marked)
      modifies articleTable, dispatcher.urlTable, dispatcher.clock
      ensures BatchesAgree(results, flushes', batches') && MarksAgree(jobs, flushes', marked', times')
      ensures articleTable.rows == articles0 + Flatten(batches')
      ensures dispatcher.urlTable.rows == urls0 + Flatten(marked')
      ensures uploaded == (FilterArticles(results[Prev(flushes)..count]).Ok? && uploadOk)
      ensures uploaded ==> flushes' == flushes + [count] && |batches'| == |batches| + 1
      ensures !uploaded ==> flushes' == flushes && batches' == batches && marked' == marked && times' == times
      ensures r.Ok? <==> uploaded && doneOk
      ensures r.Ok? ==> r.value == batches'[|batches|] && |marked'| == |flushes'|
      ensures r.Err? ==>
        r == (if FilterArticles(results[Prev(flushes)..count]).Ok? then Err(UploadError) else FilterArticles(results[Prev(flushes)..count]))
    {
      var prev := Prev(flushes);
      flushes', batches', marked', times' := flushes, batches, marked, times;
      var kept := FilterArticles(results[prev..count]);
      if kept.Err? {
        return kept, false, flushes, batches, marked, times;
      }
      var errors := articleTable.InsertRows(kept.value, uploadOk);
      if errors != [] {
        return Err(UploadError), false, flushes, batches, marked, times;
      }
      BatchesAgreeSnoc(results, flushes, batches, count, kept.value);
      FlattenSnoc(batches, kept.value);
      AppendAssoc(articles0, Flatten(batches), kept.value);
      uploaded, flushes', batches' := true, flushes + [count], batches + [kept.value];
      var done := dispatcher.UpdateJobStatus(jobs[prev..count], doneOk);
      if done.Err? {
        MarksAgreeGrow(jobs, flushes, marked, times, count);
        return Err(UploadError), true, flushes', batches', marked, times;
      }
      MarksAgreeSnoc(jobs, flushes, marked, times, count, dispatcher.clock.now);
      FlattenSnoc(marked, done.value);
      AppendAssoc(urls0, Flatten(marked), done.value);
      marked', times' := marked + [done.value], times + [dispatcher.clock.now];
      r := kept;
    }

    /**
      One pass of scrape_data's loop, for item `count`: a flush when the
      count passes the flush test, otherwise nothing. `stop` is whether
      the flush raised, which ends scrape_data.
     */
    method Step(jobs: seq<Row>, results: seq<Record>, limit: int, count: nat, uploadOk: bool, doneOk: bool,
                ghost articles0: seq<Record>, ghost urls0: seq<Row>, flushes: seq<nat>, batches: seq<seq<Record>>,
                marked: seq<seq<Row>>, times: seq<int>, last: Option<seq<Record>>)
      returns (stop: bool, r: Result<seq<Record>, SiteError>, flushes': seq<nat>, batches': seq<seq<Record>>,
               marked': seq<seq<Row>>, times': seq<int>, last': Option<seq<Record>>)
      requires |jobs| == |results| && 1 <= count <= |jobs|
      requires flushes == FlushPoints(|jobs|, limit, count - 1) && |marked| == |flushes|
      requires BatchesAgree(results, flushes, batches) && MarksAgree(jobs, flushes, marked, times)
      requires (last.Some? <==> flushes != []) && (last.Some? ==> last.value == batches[|batches| - 1])
      requires articleTable.rows == articles0 + Flatten(batches)
      requires dispatcher.urlTable.rows == urls0 + Flatten(marked)
      modifies articleTable, dispatcher.urlTable, dispatcher.clock
      ensures BatchesAgree(results, flushes', batches') && MarksAgree(jobs, flushes', marked', times')
      ensures articleTable.rows == articles0 + Flatten(batches')
      ensures dispatcher.urlTable.rows == urls0 + Flatten(marked')
      ensures !stop ==> flushes' == FlushPoints(|jobs|, limit, count) && |marked'| == |flushes'|
      ensures !stop ==> (last'.Some? <==> flushes' != []) && (last'.Some? ==> last'.value == batches'[|batches'| - 1])
      ensures stop ==> flushes' <= FlushPoints(|jobs|, limit, |jobs|) && r.Err? && !r.error.UnboundLocal?
      ensures stop && |marked'| < |flushes'| ==> r == Err(UploadError)
    {
      flushes', batches', marked', times', last' := flushes, batches, marked, times, last;
      stop, r := false, Err(UnboundLocal);
      if FlushesAt(count, limit, |jobs|) {
        FlushPointsAscending(|jobs|, limit, count - 1);
        var kept, uploaded;
        kept, uploaded, flushes', batches', marked', times' :=
          Flush(jobs, results, count, uploadOk, doneOk, articles0, urls0, flushes, batches, marked, times);
        if kept.Err? {
          StoppedPrefix(|jobs|, limit, count, flushes', uploaded);
          return true, kept, flushes', batches', marked', times', last;
        }
        last' := Some(kept.value);
      }
    }

    /**
      scrape_data: `results[k]` is what the miner gathered for the k-th
      job. After each item whose count passes the flush test the records
      since the previous flush are filtered and uploaded, and the same jobs
      marked done; `uploadOk(f)` and `doneOk(f)` say whether the f-th
      flush's two uploads succeed. `flushes` and `batches` are the
      flushes whose articles were uploaded, `marked` and `times` the
      "done" rows and stamps of those whose jobs were then marked; a
      failure of the second upload leaves one flush's articles stored and
      its jobs not marked. Returns the last flushed frame; with no jobs
      nothing is ever flushed and the return fails.
     */
    method ScrapeData(jobs: seq<Row>, results: seq<Record>, limit: int, uploadOk: nat -> bool,
                      doneOk: nat -> bool)
      returns (r: Result<seq<Record>, SiteError>, flushes: seq<nat>, batches: seq<seq<Record>>,
               marked: seq<seq<Row>>, times: seq<int>)
      requires |results| == |jobs|
      modifies articleTable, dispatcher.urlTable, dispatcher.clock
      ensures flushes <= FlushPoints(|jobs|, limit, |jobs|)
      ensures BatchesAgree(results, flushes, batches) && MarksAgree(jobs, flushes, marked, times)
      ensures articleTable.rows == old(articleTable.rows) + Flatten(batches)
      ensures dispatcher.urlTable.rows == old(dispatcher.urlTable.rows) + Flatten(marked)
      ensures |marked| < |flushes| ==> r == Err(UploadError)
      ensures r == Err(UnboundLocal) <==> jobs == []
      ensures r.Ok? ==>
        flushes == FlushPoints(|jobs|, limit, |jobs|) && |marked| == |flushes| && r.value == batches[|batches| - 1]
    {
      var n := |jobs|;
      var last: Option<seq<Record>> := None;
      flushes, batches, marked, times := [], [], [], [];
      for count := 1 to n + 1
        invariant flushes == FlushPoints(n, limit, count - 1)
        invariant |marked| == |flushes|
        invariant BatchesAgree(results, flushes, batches) && MarksAgree(jobs, flushes, marked, times)
        invariant last.Some? <==> flushes != []
        invariant last.Some? ==> last.value == batches[|batches| - 1]
        invariant articleTable.rows == old(articleTable.rows) + Flatten(batches)
        invariant dispatcher.urlTable.rows == old(dispatcher.urlTable.rows) + Flatten(marked)
      {
        var stop;
        stop, r, flushes, batches, marked, times, last :=
          Step(jobs, results, limit, count, uploadOk(|flushes|), doneOk(|flushes|),
               old(articleTable.rows), old(dispatcher.urlTable.rows), flushes, batches, marked, times, last);
        if stop {
          return;
        }
      }
      if last.None? {
        return Err(UnboundLocal), flushes, batches, marked, times;
      }
      r := Ok(last.value);
    }

    /**
      send_request: look up the first job's URL, route its registrable
      domain (`get_fld`, given here as `domain`) through the factory, and
      let that site worker run scrape_data with its limit. A KeyError,
      whether from the empty frame, an unknown domain or a record without
      a filtered key, is caught and reported; a failed upload escapes.
     */
    method SendRequest(jobs: seq<Row>, domain: string, results: seq<Record>, limit: int,
                       uploadOk: nat -> bool, doneOk: nat -> bool)
      returns (r: Result<Sent, SiteError>, flushes: seq<nat>, batches: seq<seq<Record>>,
               marked: seq<seq<Row>>, times: seq<int>)
      requires |results| == |jobs|
      modifies articleTable, dispatcher.urlTable, dispatcher.clock
      ensures jobs == [] || domain !in SiteDomains ==>
        r == Ok(Reported) && batches == [] && marked == []
      ensures flushes <= FlushPoints(|jobs|, limit, |jobs|)
      ensures BatchesAgree(results, flushes, batches) && MarksAgree(jobs, flushes, marked, times)
      ensures articleTable.rows == old(articleTable.rows) + Flatten(batches)
      ensures dispatcher.urlTable.rows == old(dispatcher.urlTable.rows) + Flatten(marked)
      ensures r.Err? ==> r.error == UploadError
      ensures r == Ok(Reported) ==> |marked| == |flushes|
      ensures r == Ok(Scraped) ==>
        jobs != [] && domain in SiteDomains && flushes == FlushPoints(|jobs|, limit, |jobs|)
        && |Flatten(marked)| == |jobs|
        && forall i :: 0 <= i < |jobs| ==>
             Flatten(marked)[i].articleUrl == jobs[i].articleUrl && Flatten(marked)[i].status == Done
    {
      flushes, batches, marked, times := [], [], [], [];
      if jobs == [] || Factory(domain).None? {
        return Ok(Reported), flushes, batches, marked, times;
      }
      var scraped;
      scraped, flushes, batches, marked, times := ScrapeData(jobs, results, limit, uploadOk, doneOk);
      if scraped.Ok? {
        FlushPointsShape(|jobs|, limit, |jobs|);
        DoneCoversBatch(jobs, flushes, marked, times);
        FlushPointsFew(|jobs|, limit);
        r := Ok(Scraped);
      } else if scraped.error.KeyError? {
        r := Ok(Reported);
      } else {
        r := Err(UploadError);
      }
    }
  }
}
