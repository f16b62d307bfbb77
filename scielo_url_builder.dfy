/**
  The Scielo URL builders: updated_urlbuilder/urlbuilder/urlbuilder.py,
  which pages through a search and uploads the article links of each
  result page as "Not Mined" ledger rows, up to a limit; and the older
  urlbuilder/urlbuilder.py, which does the same for one search page.
 */
module ScieloUrlBuilder {
  import opened Wrappers
  import opened Text
  import opened Ledger
  import opened Tables
  import opened ScieloSearch
  import CatalogCollector

  /**
    The errors the builders let escape: `int(...)` of the hit text
    (ValueError), a link without a `tlng` query parameter (KeyError), and a
    failed upload.
   */
  datatype BuildError = ValueError | KeyError | UploadError

  /** A search result link is kept when it points at an article text or an article PDF. */
  predicate IsArticleLink(url: string) {
    Contains(url, "sci_arttext") || Contains(url, "sci_pdf")
  }

  /** The list comprehension that removes unwanted links. */
  function ArticleLinks(links: seq<string>): (urls: seq<string>)
    ensures |urls| <= |links|
    ensures forall u :: u in urls <==> u in links && IsArticleLink(u)
  {
    if links == [] then []
    else (if IsArticleLink(links[0]) then [links[0]] else []) + ArticleLinks(links[1..])
  }

  /** The filter keeps the order of the links: filtering a concatenation filters each part. */
  lemma {:induction false} ArticleLinksAppend(a: seq<string>, b: seq<string>)
    ensures ArticleLinks(a + b) == ArticleLinks(a) + ArticleLinks(b)
  {
    if a != [] {
      assert (a + b)[0] == a[0] && (a + b)[1..] == a[1..] + b;
      ArticleLinksAppend(a[1..], b);
      var head := if IsArticleLink(a[0]) then [a[0]] else [];
      assert head + (ArticleLinks(a[1..]) + ArticleLinks(b)) == head + ArticleLinks(a[1..]) + ArticleLinks(b);
    } else {
      assert a + b == b;
    }
  }

  /** The `is_pdf` column. */
  function IsPdf(url: string): (flag: int)
    ensures flag == 1 <==> Contains(url, "sci_pdf")
    ensures flag == 0 <==> !Contains(url, "sci_pdf")
  {
    if Contains(url, "sci_pdf") then 1 else 0
  }

  /** The ledger row `_create_url_dataframe` builds for one kept link. */
  function LinkRow(url: string, sourcePage: string, language: string, now: int,
                   workerId: Option<string>, meta: string): Row
  {
    Row(url, sourcePage, IsPdf(url), Some(language), NotMined, now, workerId, Some(meta))
  }

  /** The rows of a list of kept links, or KeyError at the first link without `tlng`. */
  function RowsOf(urls: seq<string>, sourcePage: string, tlng: string -> Option<string>, now: int,
                  workerId: Option<string>, meta: string): (r: Result<seq<Row>, BuildError>)
    ensures r.Err? <==> exists u :: u in urls && tlng(u).None?
    ensures r.Err? ==> r.error == KeyError
    ensures r.Ok? ==> |r.value| == |urls| && forall i :: 0 <= i < |urls| ==>
      r.value[i] == LinkRow(urls[i], sourcePage, tlng(urls[i]).value, now, workerId, meta)
  {
    if urls == [] then Ok([])
    else if tlng(urls[0]).None? then Err(KeyError)
    else
      match RowsOf(urls[1..], sourcePage, tlng, now, workerId, meta)
      case Err(e) => Err(e)
      case Ok(rest) => Ok([LinkRow(urls[0], sourcePage, tlng(urls[0]).value, now, workerId, meta)] + rest)
  }

  /**
    `_create_url_dataframe(links, source_page, **kwargs)`: one row per kept
    link, in order, each with the link's `is_pdf` flag and its `tlng`
    language, the source page as catalog_url, status "Not Mined", one
    shared timestamp, the given worker_id and the JSON of the keyword
    arguments. `tlng` gives the `tlng` parameter of a link's query string.
   */
  function UrlRows(links: seq<string>, sourcePage: string, tlng: string -> Option<string>, now: int,
                   workerId: Option<string>, meta: string): (r: Result<seq<Row>, BuildError>)
    ensures r.Err? <==> exists u :: u in links && IsArticleLink(u) && tlng(u).None?
    ensures r.Err? ==> r.error == KeyError
    ensures r.Ok? ==> |r.value| == |ArticleLinks(links)|
    ensures r.Ok? ==> forall row :: row in r.value ==>
      IsArticleLink(row.articleUrl) && row.articleUrl in links && row.catalogUrl == sourcePage
      && (row.isPdf == 1 <==> Contains(row.articleUrl, "sci_pdf"))
      && row.language == tlng(row.articleUrl) && row.status == NotMined && row.timestamp == now
      && row.workerId == workerId && row.metaInfo == Some(meta)
  {
    RowsOf(ArticleLinks(links), sourcePage, tlng, now, workerId, meta)
  }


  /**
    What one search exposes to the generator: the address codec and the
    search, the JSON of the keyword arguments, and for each page index
    whether the page shows the "no more results" marker, its result links
    and the time the page's frame is built; `tlng` reads a link's language.
   */
  datatype Search = Search(
    codec: UrlCodec,
    domain: string,
    keywords: seq<string>,
    meta: string,
    finish: nat -> bool,
    links: nat -> seq<string>,
    stamp: nat -> int,
    tlng: string -> Option<string>)

  /** The frame of result page `page`, built with worker_id None. */
  function PageRows(s: Search, page: nat): Result<seq<Row>, BuildError> {
    UrlRows(s.links(page), SearchUrl(s.codec, s.domain, s.keywords, page, UrlsPerPage), s.tlng,
            s.stamp(page), None, s.meta)
  }

  /**
    The result pages as the generator sees them: whether page `p` shows
    the "no more results" marker, and its frame or the error building it
    raises.
   */
  datatype Pages = Pages(finish: nat -> bool, frame: nat -> Result<seq<Row>, BuildError>)

  function PagesOf(s: Search): Pages {
    Pages(s.finish, (p: nat) => PageRows(s, p))
  }

  /** What the generator yields before it returns, and the exception it raises, if any. */
  datatype Generated = Generated(chunks: seq<seq<Row>>, error: Option<BuildError>)

  /**
    The last chunk, once `count` (the rows so far, this frame included)
    reaches the limit. As written the code slices at `limit - count`; the
    intended slice keeps the rows still missing to reach the limit.
   */
  function LastChunk(df: seq<Row>, count: int, limit: int, intended: bool): seq<Row> {
    if intended then df[..Min(|df|, Max(0, limit - (count - |df|)))]
    else SliceTo(df, limit - count)
  }



  /**
    The loop of `dataframe_generator` from page index `i` (0-based, the
    page shown is `i + 1`) with `count` rows counted so far.
   */
  function Generate(ps: Pages, i: nat, pages: int, count: int, limit: int, intended: bool): (g: Generated)
    decreases pages - i
  {
    if i >= pages || ps.finish(i + 1) then Generated([], None)
    else
      match ps.frame(i + 1)
      case Err(e) => Generated([], Some(e))
      case Ok(df) =>
        var c := count + |df|;
        if c < limit then
          var rest := Generate(ps, i + 1, pages, c, limit, intended);
          Generated([df] + rest.chunks, rest.error)
        else Generated([LastChunk(df, c, limit, intended)], None)
  }

  /** Every row the pages from index `i` on offer, up to the marker, an error or the last page. */
  function Available(ps: Pages, i: nat, pages: int): seq<Row>
    decreases pages - i
  {
    if i >= pages || ps.finish(i + 1) || ps.frame(i + 1).Err? then []
    else ps.frame(i + 1).value + Available(ps, i + 1, pages)
  }

  /**
    With the intended last slice the generator yields exactly the first
    rows on offer, as many as the limit allows.
   */
  lemma {:induction false} GenerateIntended(ps: Pages, i: nat, pages: int, count: int, limit: int)
    ensures Flatten(Generate(ps, i, pages, count, limit, true).chunks)
      == Available(ps, i, pages)[..Min(Max(0, limit - count), |Available(ps, i, pages)|)]
    decreases pages - i
  {
    var g := Generate(ps, i, pages, count, limit, true);
    if i < pages && !ps.finish(i + 1) && ps.frame(i + 1).Ok? {
      var df := ps.frame(i + 1).value;
      var c := count + |df|;
      var rest := Available(ps, i + 1, pages);
      assert Available(ps, i, pages) == df + rest;
      if c < limit {
        var r := Generate(ps, i + 1, pages, c, limit, true);
        GenerateIntended(ps, i + 1, pages, c, limit);
        FlattenCons(df, r.chunks);
        assert (df + rest)[..Min(Max(0, limit - count), |df + rest|)]
          == df + rest[..Min(Max(0, limit - c), |rest|)];
      } else {
        FlattenCons(LastChunk(df, c, limit, true), []);
        assert Flatten(g.chunks) == LastChunk(df, c, limit, true);
        assert (df + rest)[..Min(Max(0, limit - count), |df + rest|)]
          == df[..Min(|df|, Max(0, limit - count))];
      }
    }
  }

  /** As written, the generator yields a prefix of what the intended slice yields. */
  lemma {:induction false} GenerateAsWritten(ps: Pages, i: nat, pages: int, count: int, limit: int)
    ensures Flatten(Generate(ps, i, pages, count, limit, false).chunks)
      <= Flatten(Generate(ps, i, pages, count, limit, true).chunks)
    ensures |Generate(ps, i, pages, count, limit, false).chunks| == |Generate(ps, i, pages, count, limit, true).chunks|
    decreases pages - i
  {
    if i < pages && !ps.finish(i + 1) && ps.frame(i + 1).Ok? {
      var df := ps.frame(i + 1).value;
      var c := count + |df|;
      if c < limit {
        GenerateAsWritten(ps, i + 1, pages, c, limit);
        FlattenCons(df, Generate(ps, i + 1, pages, c, limit, false).chunks);
        FlattenCons(df, Generate(ps, i + 1, pages, c, limit, true).chunks);
      } else {
        FlattenCons(LastChunk(df, c, limit, false), []);
        FlattenCons(LastChunk(df, c, limit, true), []);
      }
    }
  }

  /** So as written the rows yielded never exceed the limit either. */
  lemma GenerateWithinLimit(ps: Pages, pages: int, limit: int)
    ensures |Flatten(Generate(ps, 0, pages, 0, limit, false).chunks)| <= Max(0, limit)
  {
    GenerateAsWritten(ps, 0, pages, 0, limit);
    GenerateIntended(ps, 0, pages, 0, limit);
  }

  /**
    A page whose rows reach the limit exactly is yielded as `df[:0]`: the
    last chunk is empty although the rows were wanted.
   */
  lemma ExactHitDropsPage(ps: Pages, i: nat, pages: int, count: int, limit: int)
    requires i < pages && !ps.finish(i + 1) && ps.frame(i + 1).Ok?
    requires ps.frame(i + 1).value != [] && count + |ps.frame(i + 1).value| == limit
    ensures Generate(ps, i, pages, count, limit, false).chunks == [[]]
    ensures Generate(ps, i, pages, count, limit, true).chunks == [ps.frame(i + 1).value]
  {
    var df := ps.frame(i + 1).value;
    assert df[..|df|] == df;
  }

  /**
    `dataframe_generator(domain, keywords, limit)` run to its end, given the
    hit text of the first search page: the chunks it yields, in order, and
    the exception it ends with. The page count depends on the hits only; a
    missing limit becomes the hit count.
   */
  function Generation(s: Search, limit: Option<int>, hitText: string): Generated {
    match CatalogCollector.HitCount(hitText)
    case None => Generated([], Some(BuildError.ValueError))
    case Some(hits) =>
      Generate(PagesOf(s), 0, CatalogCollector.PageCount(hits), 0, if limit.Some? then limit.value else hits, false)
  }

  /** `dataframe_generator`: read the hit count, then walk the pages. */
  method DataframeGenerator(s: Search, limit: Option<int>, hitText: string) returns (g: Generated)
    ensures g == Generation(s, limit, hitText)
  {
    var parsed := CatalogCollector.HitCount(hitText);
    if parsed.None? {
      return Generated([], Some(BuildError.ValueError));
    }
    var totalHits := parsed.value;
    var pages := CatalogCollector.PageCount(totalHits);
    var lim := if limit.None? then totalHits else limit.value;
    g := WalkPages(PagesOf(s), pages, lim);
  }

  /** The generator's loop, page by page, with the rows counted so far. */
  method WalkPages(ps: Pages, pages: int, limit: int) returns (g: Generated)
    ensures g == Generate(ps, 0, pages, 0, limit, false)
  {
    var count := 0;
    var chunks := [];
    var i: nat := 0;
    while i < pages
      invariant (var rest := Generate(ps, i, pages, count, limit, false);
                 Generate(ps, 0, pages, 0, limit, false) == Generated(chunks + rest.chunks, rest.error))
      decreases pages - i
    {
      if ps.finish(i + 1) {
        return Generated(chunks, None);
      }
      var frame := ps.frame(i + 1);
      if frame.Err? {
        return Generated(chunks, Some(frame.error));
      }
      var df := frame.value;
      count := count + |df|;
      if count < limit {
        assert chunks + [df] + Generate(ps, i + 1, pages, count, limit, false).chunks
          == chunks + ([df] + Generate(ps, i + 1, pages, count, limit, false).chunks);
        chunks := chunks + [df];
      } else {
        return Generated(chunks + [SliceTo(df, limit - count)], None);
      }
      i := i + 1;
    }
    g := Generated(chunks, None);
  }

  /**
    `collect(base_url, keywords, limit)`: every yielded chunk is uploaded
    with `to_gbq`, empty ones included, and the sum of their lengths is
    returned; a failed upload or an exception of the generator escapes.
    `accept(k)` says whether the k-th upload succeeds; `uploads` lists
    the length of each frame uploaded.
   */
  method Collect(table: BQTable<Row>, s: Search, limit: Option<int>, hitText: string, accept: nat -> bool)
    returns (r: Result<nat, BuildError>, uploads: seq<nat>)
    modifies table
    ensures table.tableId == old(table.tableId) && table.handle == old(table.handle)
    ensures var g := Generation(s, limit, hitText);
      && |uploads| <= |g.chunks| && uploads == Lengths(g.chunks[..|uploads|])
      && table.rows == old(table.rows) + Flatten(g.chunks[..|uploads|])
      && (forall j :: 0 <= j < |uploads| ==> accept(j))
      && (|uploads| < |g.chunks| ==> !accept(|uploads|) && r == Err(UploadError))
      && (|uploads| == |g.chunks| ==>
            r == if g.error.Some? then Err(g.error.value) else Ok(|Flatten(g.chunks)|))
  {
    var g := DataframeGenerator(s, limit, hitText);
    var total;
    uploads, total := UploadChunks(table, g.chunks, accept);
    if |uploads| < |g.chunks| {
      return Err(UploadError), uploads;
    }
    assert g.chunks[..|uploads|] == g.chunks;
    if g.error.Some? {
      return Err(g.error.value), uploads;
    }
    r := Ok(total);
  }

  /** The `to_gbq` calls of `collect`, one per chunk, until one fails. */
  method UploadChunks(table: BQTable<Row>, chunks: seq<seq<Row>>, accept: nat -> bool)
    returns (uploads: seq<nat>, total: nat)
    modifies table
    ensures table.tableId == old(table.tableId) && table.handle == old(table.handle)
    ensures |uploads| <= |chunks| && uploads == Lengths(chunks[..|uploads|])
    ensures total == |Flatten(chunks[..|uploads|])|
    ensures table.rows == old(table.rows) + Flatten(chunks[..|uploads|])
    ensures forall j :: 0 <= j < |uploads| ==> accept(j)
    ensures |uploads| < |chunks| ==> !accept(|uploads|)
  {
    total := 0;
    uploads := [];
    var k := 0;
    while k < |chunks|
      invariant 0 <= k <= |chunks| && k == |uploads|
      invariant uploads == Lengths(chunks[..k]) && total == |Flatten(chunks[..k])|
      invariant table.rows == old(table.rows) + Flatten(chunks[..k])
      invariant table.tableId == old(table.tableId) && table.handle == old(table.handle)
      invariant forall j :: 0 <= j < k ==> accept(j)
    {
      var errors := table.InsertRows(chunks[k], accept(k));
      if errors != [] {
        return;
      }
      assert chunks[..k + 1] == chunks[..k] + [chunks[k]];
      FlattenSnoc(chunks[..k], chunks[k]);
      uploads := uploads + [|chunks[k]|];
      total := total + |chunks[k]|;
      k := k + 1;
    }
  }

  function Lengths<T>(ss: seq<seq<T>>): (ns: seq<nat>)
    ensures |ns| == |ss| && forall j :: 0 <= j < |ss| ==> ns[j] == |ss[j]|
  {
    if ss == [] then [] else Lengths(ss[..|ss| - 1]) + [|ss[|ss| - 1]|]
  }

  /**
    The older `insert_into_gbq(search_url)`: the rows of one search page,
    all carrying one uuid1 as worker_id and `json.dumps({})` as meta_info,
    loaded into the table; it returns their number. `accepted` says
    whether the load job succeeds.
   */
  method InsertIntoGbq(table: BQTable<Row>, searchUrl: string, links: seq<string>,
                       tlng: string -> Option<string>, now: int, uuid: string, accepted: bool)
    returns (r: Result<nat, BuildError>)
    modifies table
    ensures table.tableId == old(table.tableId) && table.handle == old(table.handle)
    ensures UrlRows(links, searchUrl, tlng, now, Some(uuid), "{}").Err? ==>
      r == Err(KeyError) && table.rows == old(table.rows)
    ensures UrlRows(links, searchUrl, tlng, now, Some(uuid), "{}").Ok? ==>
      var rows := UrlRows(links, searchUrl, tlng, now, Some(uuid), "{}").value;
      && (r.Ok? <==> accepted)
      && (accepted ==> r.value == |ArticleLinks(links)| && table.rows == old(table.rows) + rows)
      && (!accepted ==> r == Err(UploadError) && table.rows == old(table.rows))
  {
    var frame := UrlRows(links, searchUrl, tlng, now, Some(uuid), "{}");
    if frame.Err? {
      return Err(frame.error);
    }
    var errors := table.InsertRows(frame.value, accepted);
    if errors != [] {
      return Err(UploadError);
    }
    r := Ok(|frame.value|);
  }
}
