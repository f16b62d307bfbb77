/**
  The integrated URL builder (Integrated_URL_builder/url_builder_integration.py):
  one builder per journal visits the journal's search result pages in
  order, keeps the links it wants, and appends "Not mined" ledger rows for
  them, stopping once `limit` links have been counted.
 */
module IntegratedUrlBuilder {
  import opened Wrappers
  import opened Text
  import opened Ledger
  import opened Tables

  /** The journals `urlbuilderfactory` knows. */
  datatype Journal = Arxiv | Preprint | Biorxiv | Medrxiv | Jamanetwork | Pbmc | Scielo

  /** The factory's dictionary keys. */
  const Journals: map<string, Journal> := map[
    "arxiv" := Arxiv, "preprint" := Preprint, "biorxiv" := Biorxiv, "medrxiv" := Medrxiv,
    "jamanetwork" := Jamanetwork, "pbmc" := Pbmc, "scielo" := Scielo]

  /** `journaldictionary[journal_name]` raises KeyError for a name it does not hold. */
  datatype FactoryError = KeyError

  /**
    `urlbuilderfactory(journal_name, search_word, limit)`: the builder of the
    named journal (all seven are constructed first, which has no effect
    beyond building them).
   */
  function Factory(name: string): Result<Journal, FactoryError> {
    if name in Journals then Ok(Journals[name]) else Err(KeyError)
  }

  /** The name each journal's builder class answers to. */
  function NameOf(j: Journal): string {
    match j
    case Arxiv => "arxiv"
    case Preprint => "preprint"
    case Biorxiv => "biorxiv"
    case Medrxiv => "medrxiv"
    case Jamanetwork => "jamanetwork"
    case Pbmc => "pbmc"
    case Scielo => "scielo"
  }

  /** The factory returns a journal's builder exactly for that journal's name, and raises KeyError otherwise. */
  lemma FactoryNames(name: string, j: Journal)
    ensures Factory(name) == Ok(j) <==> name == NameOf(j)
    ensures Factory(name).Err? <==> forall j' :: name != NameOf(j')
    ensures Factory(name).Err? ==> Factory(name).error == KeyError
  {
    assert Journals.Keys == {"arxiv", "preprint", "biorxiv", "medrxiv", "jamanetwork", "pbmc", "scielo"};
    if Factory(name).Ok? {
      var k := Factory(name).value;
      assert name == NameOf(k);
    } else {
      forall j' ensures name != NameOf(j') {
        assert NameOf(j') in Journals;
      }
    }
  }

  /** The text of each `_url_base` entry around the search word. */
  const ArxivHead := "http://export.arxiv.org/find/all/1/all:+"
  const ArxivTail := "/0/1/0/all/0/1?skip="
  const BiorxivHead := "https://www.biorxiv.org/search/"
  const MedrxivHead := "https://www.medrxiv.org/search/"
  const RxivTail := "%20numresults%3A75%20sort%3Apublication-date%20direction%3Adescending?page="
  const PreprintHead := "https://www.preprints.org/search?search1="
  const PreprintTail := "&field1=article_abstract&field2=authors&clause=AND&search2=&page_num="
  const JamaHead := "https://jamanetwork.com/searchresults?q="
  const JamaTail := "&sort=Newest&page="
  const PbmcHead := "http://pbmc.ibmc.msk.ru/ru/search-ru/?search="
  const PbmcTail := "&fn=5"

  /**
    `_url_base`, built by the constructor with the search word spliced in.
    Scielo has no entry: its builder delegates to the Scielo URLBuilder.
   */
  function UrlBases(word: string): (bases: map<Journal, string>)
    ensures bases.Keys == {Arxiv, Biorxiv, Medrxiv, Preprint, Jamanetwork, Pbmc}
  {
    map[Arxiv := ArxivHead + word + ArxivTail,
        Biorxiv := BiorxivHead + word + RxivTail,
        Medrxiv := MedrxivHead + word + RxivTail,
        Preprint := PreprintHead + word + PreprintTail,
        Jamanetwork := JamaHead + word + JamaTail,
        Pbmc := PbmcHead + word + PbmcTail]
  }

  /** `_url_collector`'s page address: the base, followed by the page number unless it is None. */
  function PageUrl(base: string, pageNum: Option<int>): string {
    match pageNum
    case None => base
    case Some(n) => base + IntToString(n)
  }

  /** Different page numbers give different page addresses. */
  lemma PageUrlInjective(base: string, n1: int, n2: int)
    requires PageUrl(base, Some(n1)) == PageUrl(base, Some(n2))
    ensures n1 == n2
  {
    var s1 := IntToString(n1);
    var s2 := IntToString(n2);
    assert base + s1 == base + s2;
    assert s1 == (base + s1)[|base|..];
    assert s2 == (base + s2)[|base|..];
    ParseIntToString(n1);
    ParseIntToString(n2);
  }

  /** How the journal's `get_urls` walks its pages. */
  function PageCount(j: Journal): (n: nat)
    ensures n >= 1
  {
    if j == Pbmc then 1 else 99999
  }

  /** `self.page_num` of the k-th page: `range(0, 99999)`, `range(0, 25*99999, 25)`, or None. */
  function PageNum(j: Journal, k: nat): Option<int> {
    match j
    case Pbmc => None
    case Arxiv => Some(25 * k)
    case _ => Some(k)
  }

  /** The links a journal keeps from a page. */
  predicate Keep(j: Journal, url: string) {
    match j
    case Arxiv => !Contains(url, "format")
    case Pbmc => Contains(url, "article-ru")
    case _ => true
  }

  function Kept(j: Journal, urls: seq<string>): seq<string> {
    if urls == [] then []
    else (if Keep(j, urls[0]) then [urls[0]] else []) + Kept(j, urls[1..])
  }

  /** The kept links are the page's links the journal wants, no more. */
  lemma {:induction false} KeptFilter(j: Journal, urls: seq<string>)
    ensures forall u :: u in Kept(j, urls) <==> u in urls && Keep(j, u)
    ensures |Kept(j, urls)| <= |urls|
  {
    if urls != [] {
      KeptFilter(j, urls[1..]);
      assert urls == [urls[0]] + urls[1..];
    }
  }

  /** The `is_pdf` argument of `_create_url_schema`: absent, or arXiv's "contains 'pdf'" test. */
  datatype PdfRule = NoRule | PdfWord

  function Rule(j: Journal): PdfRule {
    if j == Arxiv then PdfWord else NoRule
  }

  function Language(j: Journal): string {
    if j == Pbmc then "ru" else "en"
  }

  /** The status this builder writes, with a lower-case m. */
  const NotMinedLower: string := "Not mined"

  function IsPdf(rule: PdfRule, url: string): int {
    if rule == PdfWord && Contains(url, "pdf") then 1 else 0
  }

  /**
    `_create_url_schema(list_of_urls, catalog_url, is_pdf, lang)`: one row
    per URL, in order.
   */
  function Schema(urls: seq<string>, catalogUrl: string, rule: PdfRule, lang: string, now: int): seq<Row> {
    if urls == [] then []
    else
      [Row(urls[0], catalogUrl, IsPdf(rule, urls[0]), Some(lang), NotMinedLower, now, None, None)]
      + Schema(urls[1..], catalogUrl, rule, lang, now)
  }

  /** The frame holds one new "Not mined" row per URL, in order, all from the same catalog page and time. */
  lemma {:induction false} SchemaRows(urls: seq<string>, catalogUrl: string, rule: PdfRule, lang: string, now: int)
    ensures var rows := Schema(urls, catalogUrl, rule, lang, now);
      && |rows| == |urls|
      && (forall i :: 0 <= i < |urls| ==> rows[i].articleUrl == urls[i] && rows[i].catalogUrl == catalogUrl)
      && (forall i :: 0 <= i < |urls| ==> (rows[i].isPdf == 1 <==> rule == PdfWord && Contains(urls[i], "pdf")))
      && (forall r :: r in rows ==>
           r.language == Some(lang) && r.status == NotMinedLower && r.timestamp == now
           && r.workerId == None && r.metaInfo == None)
  {
    if urls != [] {
      SchemaRows(urls[1..], catalogUrl, rule, lang, now);
      var rows := Schema(urls, catalogUrl, rule, lang, now);
      var rest := Schema(urls[1..], catalogUrl, rule, lang, now);
      assert rows == [rows[0]] + rest;
      forall i | 1 <= i < |urls| ensures rows[i] == rest[i - 1] && urls[i] == urls[1..][i - 1] {}
    }
  }

  /**
    The status matching of the two ledger queries on "Not mined": the
    case-sensitive GetNewURLs never selects these rows, the job
    dispatcher's case-insensitive query does.
   */
  lemma NotMinedLowerCase()
    ensures !StatusSelected(Exact, NotMinedLower)
    ensures StatusSelected(IgnoreCase, NotMinedLower)
  {
    assert NotMinedLower[4] != NotMined[4];
    assert Lower(NotMinedLower) == "not mined";
  }

  /** The builder's lists after a page: `valid_urls`, `total_urls` and `_url_list`. */
  datatype Lists = Lists(valid: seq<string>, total: seq<string>, urlList: seq<string>)

  /**
    One page of `get_urls`, given the kept links of the page: they are
    appended to `valid_urls`; then the first `nums` valid links, where
    `nums = min(limit - len(total_urls), len(valid_urls))`, extend
    `total_urls` and become `_url_list` (pbmc appends them to it).
    As written `valid_urls` keeps every earlier page's links; the intended
    version starts it afresh on every page.
   */
  function Step(j: Journal, limit: int, page: seq<string>, st: Lists, intended: bool): Lists {
    var valid := (if intended then [] else st.valid) + page;
    var batch := SliceTo(valid, Min(limit - |st.total|, |valid|));
    Lists(valid, st.total + batch, if j == Pbmc then st.urlList + batch else batch)
  }

  /** The address of page `k`, as `_url_collector` forms it from the journal's base. */
  function PageAddress(j: Journal, base: string, k: nat): string {
    PageUrl(base, PageNum(j, k))
  }

  /** The kept links of page `k`, given what `CollectURLs` returns for each address. */
  function PageLinks(j: Journal, base: string, collected: string -> seq<string>): nat -> seq<string> {
    (k: nat) => Kept(j, collected(PageAddress(j, base, k)))
  }

  /**
    The lists after each page from page `k` on, up to the page after which
    `len(total_urls) == limit` breaks the loop, or the last page; `links(k)`
    are the kept links of page k.
   */
  function Run(j: Journal, limit: int, links: nat -> seq<string>, k: nat, st: Lists, intended: bool): seq<Lists>
    decreases PageCount(j) - k
  {
    if k >= PageCount(j) then []
    else
      var next := Step(j, limit, links(k), st, intended);
      [next] + (if |next.total| == limit then [] else Run(j, limit, links, k + 1, next, intended))
  }

  /** The run from page `k` is that page's lists followed by the rest of the run, unless the limit is reached. */
  lemma RunCons(j: Journal, limit: int, links: nat -> seq<string>, k: nat, st: Lists, intended: bool)
    requires k < PageCount(j)
    ensures var next := Step(j, limit, links(k), st, intended);
      Run(j, limit, links, k, st, intended)
        == [next] + (if |next.total| == limit then [] else Run(j, limit, links, k + 1, next, intended))
  {
  }

  /** A page never takes `total_urls` past the limit, once it is within it. */
  lemma StepWithinLimit(j: Journal, limit: int, page: seq<string>, st: Lists, intended: bool)
    requires |st.total| <= limit
    ensures |st.total| <= |Step(j, limit, page, st, intended).total| <= limit
  {
  }

  /**
    As written, each page's `_url_list` is a prefix of every link kept so
    far, so from the second page on the earlier links are sent again.
   */
  lemma ResendAsWritten(j: Journal, limit: int, links: nat -> seq<string>, a: string, b: string)
    requires j != Pbmc && limit >= 3
    requires links(0) == [a] && links(1) == [b]
    ensures var run := Run(j, limit, links, 0, Lists([], [], []), false);
      |run| >= 2 && run[0].urlList == [a] && run[1].urlList == [a, b] && run[1].total == [a, a, b]
  {
    var st0 := Lists([], [], []);
    var st1 := Step(j, limit, [a], st0, false);
    assert st1 == Lists([a], [a], [a]);
    var st2 := Step(j, limit, [b], st1, false);
    assert st2.valid == [a, b];
    assert SliceTo(st2.valid, 2) == [a, b];
    assert st2 == Lists([a, b], [a, a, b], [a, b]);
    var run := Run(j, limit, links, 0, st0, false);
    assert run[0] == st1;
    assert Run(j, limit, links, 1, st1, false)[0] == st2;
  }

  /** Every kept link of the pages from `k` on, in page order. */
  function AllLinks(j: Journal, links: nat -> seq<string>, k: nat): seq<string>
    decreases PageCount(j) - k
  {
    if k >= PageCount(j) then [] else links(k) + AllLinks(j, links, k + 1)
  }

  /** The lists after the last page of a run, or the lists it started from. */
  function Final(run: seq<Lists>, st: Lists): Lists {
    if run == [] then st else run[|run| - 1]
  }

  /**
    The links counted in `total_urls` from page `k` on are the first links
    kept from those pages, in page order, each once: as many as the limit
    leaves room for, or all of them when they are fewer.
   */
  predicate CountsFirstLinks(j: Journal, limit: int, links: nat -> seq<string>, k: nat, st: Lists) {
    FirstOf(st.total, Final(Run(j, limit, links, k, st, true), st).total, AllLinks(j, links, k), limit)
  }

  /** `total` is `t0` followed by the first links of `all`, as many as `limit` leaves room for. */
  predicate FirstOf(t0: seq<string>, total: seq<string>, all: seq<string>, limit: int) {
    |t0| <= |total| <= limit && |total| - |t0| <= |all|
    && |total| == Min(limit, |t0| + |all|)
    && total == t0 + all[..|total| - |t0|]
  }

  /** With `valid_urls` started afresh on every page, `total_urls` counts the first links kept. */
  lemma {:induction false} RunIntended(j: Journal, limit: int, links: nat -> seq<string>, k: nat, st: Lists)
    requires |st.total| <= limit
    ensures CountsFirstLinks(j, limit, links, k, st)
    decreases PageCount(j) - k
  {
    if k < PageCount(j) {
      var next := Step(j, limit, links(k), st, true);
      StepWithinLimit(j, limit, links(k), st, true);
      if |next.total| != limit {
        RunIntended(j, limit, links, k + 1, next);
        CountsBeforeLimit(j, limit, links, k, st);
      } else {
        CountsAtLimit(j, limit, links, k, st);
      }
    } else {
      assert st.total + AllLinks(j, links, k)[..0] == st.total;
    }
  }

  /** A page that stays below the limit counts all its links before the later ones. */
  lemma CountsBeforeLimit(j: Journal, limit: int, links: nat -> seq<string>, k: nat, st: Lists)
    requires |st.total| <= limit && k < PageCount(j)
    requires var next := Step(j, limit, links(k), st, true);
      |next.total| != limit && CountsFirstLinks(j, limit, links, k + 1, next)
    ensures CountsFirstLinks(j, limit, links, k, st)
  {
    var page := links(k);
    var next := Step(j, limit, page, st, true);
    var nums := StepIntended(j, limit, page, st);
    RunCons(j, limit, links, k, st, true);
    var rest := AllLinks(j, links, k + 1);
    assert AllLinks(j, links, k) == page + rest;
    var tail := Run(j, limit, links, k + 1, next, true);
    FinalCons(next, tail, st);
    RunIntendedStep(st.total, page, rest, Final(tail, next).total, next.total, limit);
  }

  /** A page that reaches the limit counts its first links and ends the run. */
  lemma CountsAtLimit(j: Journal, limit: int, links: nat -> seq<string>, k: nat, st: Lists)
    requires |st.total| <= limit && k < PageCount(j)
    requires |Step(j, limit, links(k), st, true).total| == limit
    ensures CountsFirstLinks(j, limit, links, k, st)
  {
    var page := links(k);
    var next := Step(j, limit, page, st, true);
    var nums := StepIntended(j, limit, page, st);
    RunCons(j, limit, links, k, st, true);
    var rest := AllLinks(j, links, k + 1);
    assert AllLinks(j, links, k) == page + rest;
    assert Final([next], st) == next;
    TakeWithin(page, rest, nums);
  }

  /** The step of RunIntended for a page that does not reach the limit, on plain sequences. */
  lemma RunIntendedStep(t0: seq<string>, page: seq<string>, rest: seq<string>, total: seq<string>,
                        next: seq<string>, limit: int)
    requires next == t0 + page && FirstOf(next, total, rest, limit)
    ensures FirstOf(t0, total, page + rest, limit)
  {
    ExtendCounted(t0, page, rest, total);
  }

  /** The links of every frame a run sends, page after page: each page's `_url_list`. */
  function SentLinks(run: seq<Lists>): seq<string> {
    if run == [] then [] else run[0].urlList + SentLinks(run[1..])
  }

  /**
    With `valid_urls` started afresh on every page, the frames of a run
    carry exactly the links the run adds to `total_urls`, in order, so each
    counted link is uploaded once. The pbmc builder, whose one page appends
    to `_url_list`, needs it empty at the start, as the constructor leaves it.
   */
  lemma {:induction false} RunIntendedSent(j: Journal, limit: int, links: nat -> seq<string>, k: nat, st: Lists)
    requires |st.total| <= limit
    requires j == Pbmc ==> st.urlList == []
    ensures var run := Run(j, limit, links, k, st, true);
      var total := Final(run, st).total;
      st.total <= total && SentLinks(run) == total[|st.total|..]
    decreases PageCount(j) - k
  {
    if k < PageCount(j) {
      var next := Step(j, limit, links(k), st, true);
      var nums := StepIntended(j, limit, links(k), st);
      RunCons(j, limit, links, k, st, true);
      var tail := if |next.total| == limit then [] else Run(j, limit, links, k + 1, next, true);
      if |next.total| != limit && k + 1 < PageCount(j) {
        RunIntendedSent(j, limit, links, k + 1, next);
      } else if |next.total| != limit {
        RunDone(j, limit, links, k + 1, next);
      }
      FinalCons(next, tail, st);
      SentCons(next, tail);
      SuffixSplit(st.total, next.total, Final(tail, next).total);
    }
  }

  /** The links a run sends are its first page's followed by the rest's. */
  lemma SentCons(next: Lists, tail: seq<Lists>)
    ensures SentLinks([next] + tail) == next.urlList + SentLinks(tail)
  {
    assert ([next] + tail)[1..] == tail;
  }

  /** A sequence with two nested prefixes splits at both. */
  lemma SuffixSplit<T>(a: seq<T>, b: seq<T>, c: seq<T>)
    requires a <= b && b <= c
    ensures c[|a|..] == b[|a|..] + c[|b|..]
  {
    assert c[..|b|] == b;
  }

  /** With `valid_urls` started afresh, a page adds its first `nums` links to `total_urls`. */
  lemma StepIntended(j: Journal, limit: int, page: seq<string>, st: Lists) returns (nums: nat)
    requires |st.total| <= limit
    ensures nums <= |page| && nums == Min(limit - |st.total|, |page|)
    ensures Step(j, limit, page, st, true).total == st.total + page[..nums]
    ensures |Step(j, limit, page, st, true).total| != limit
      ==> nums == |page| && Step(j, limit, page, st, true).total == st.total + page
  {
    assert [] + page == page;
    nums := Min(limit - |st.total|, |page|);
    assert page[..|page|] == page;
  }

  /** The last lists of a run that starts with `next` are those of the rest of the run. */
  lemma FinalCons(next: Lists, tail: seq<Lists>, st: Lists)
    ensures Final([next] + tail, st) == Final(tail, next)
  {
  }

  /** Counting a whole page and then the first later links is counting the first links of both. */
  lemma ExtendCounted<T>(t0: seq<T>, page: seq<T>, rest: seq<T>, total: seq<T>)
    requires |t0 + page| <= |total| && |total| - |t0 + page| <= |rest|
    requires total == (t0 + page) + rest[..|total| - |t0 + page|]
    ensures |total| - |t0| <= |page + rest|
    ensures total == t0 + (page + rest)[..|total| - |t0|]
  {
    var m := |total| - |t0 + page|;
    assert (page + rest)[..|page| + m] == page + rest[..m];
  }

  /** The first `n` links of a page are the first `n` links of that page and the later ones. */
  lemma TakeWithin<T>(page: seq<T>, rest: seq<T>, n: nat)
    requires n <= |page|
    ensures (page + rest)[..n] == page[..n]
  {
  }

  /** One builder object: the journal, the search word, the limit, and its lists and last page. */
  class UrlBuilder {
    const journal: Journal
    const searchWord: string
    const limit: int
    const table: BQTable<Row>
    const urlBase: map<Journal, string>
    var validUrls: seq<string>
    var totalUrls: seq<string>
    var urlList: seq<string>
    var pageNum: Option<int>
    var pageUrl: string
    var urls: seq<string>
    var urlSchema: seq<Row>

    /** The journal subclass constructors: every list starts empty, `_url_base` holds the search word. */
    constructor(journal: Journal, searchWord: string, limit: int, table: BQTable<Row>)
      ensures this.journal == journal && this.searchWord == searchWord && this.limit == limit
      ensures this.table == table && urlBase == UrlBases(searchWord)
      ensures validUrls == [] && totalUrls == [] && urlList == []
    {
      this.journal := journal;
      this.searchWord := searchWord;
      this.limit := limit;
      this.table := table;
      urlBase := UrlBases(searchWord);
      validUrls := [];
      totalUrls := [];
      urlList := [];
      pageNum := None;
      pageUrl := "";
      urls := [];
      urlSchema := [];
    }

    /** `valid_urls`, `total_urls` and `_url_list`. */
    function Current(): Lists
      reads this
    {
      Lists(validUrls, totalUrls, urlList)
    }

    /** `_url_collector`: load the current page and read its links; the lookup raises KeyError for Scielo. */
    method UrlCollector(collected: string -> seq<string>)
      requires journal in urlBase
      modifies this
      ensures pageUrl == PageUrl(urlBase[journal], pageNum)
      ensures urls == collected(pageUrl)
      ensures Current() == old(Current()) && pageNum == old(pageNum) && urlSchema == old(urlSchema)
    {
      pageUrl := PageUrl(urlBase[journal], pageNum);
      urls := collected(pageUrl);
    }

    /** `_send_to_bigquery`: `to_gbq` of the current frame, which raises when the upload fails. */
    method SendToBigquery(accepted: bool) returns (ok: bool)
      modifies table
      ensures ok == accepted
      ensures table.rows == old(table.rows) + (if accepted then urlSchema else [])
      ensures table.tableId == old(table.tableId) && table.handle == old(table.handle)
    {
      var errors := table.InsertRows(urlSchema, accepted);
      ok := errors == [];
    }

    /** The counting part of one page: keep the page's links, count up to the limit. */
    method Count(kept: seq<string>)
      modifies this
      ensures Current() == Step(journal, limit, kept, old(Current()), false)
      ensures pageNum == old(pageNum) && pageUrl == old(pageUrl) && urls == old(urls) && urlSchema == old(urlSchema)
    {
      validUrls := validUrls + kept;
      var nums := Min(limit - |totalUrls|, |validUrls|);
      totalUrls := totalUrls + SliceTo(validUrls, nums);
      if journal == Pbmc {
        urlList := urlList + SliceTo(validUrls, nums);
      } else {
        urlList := SliceTo(validUrls, nums);
      }
    }

    /**
      One iteration of `get_urls`' loop for page `k`: collect, keep, count,
      build the frame stamped `now` and send it.
     */
    method Page(k: nat, collected: string -> seq<string>, now: int, accepted: bool) returns (ok: bool)
      requires journal in urlBase
      modifies this, table
      ensures Current() == Step(journal, limit, PageLinks(journal, urlBase[journal], collected)(k), old(Current()), false)
      ensures pageNum == PageNum(journal, k)
      ensures pageUrl == PageAddress(journal, urlBase[journal], k)
      ensures urlSchema == Schema(urlList, pageUrl, Rule(journal), Language(journal), now)
      ensures ok == accepted
      ensures table.rows == old(table.rows) + (if accepted then urlSchema else [])
      ensures table.tableId == old(table.tableId) && table.handle == old(table.handle)
    {
      pageNum := PageNum(journal, k);
      UrlCollector(collected);
      assert pageUrl == PageAddress(journal, urlBase[journal], k);
      var kept := Kept(journal, urls);
      assert kept == PageLinks(journal, urlBase[journal], collected)(k);
      Count(kept);
      urlSchema := Schema(urlList, pageUrl, Rule(journal), Language(journal), now);
      ok := SendToBigquery(accepted);
    }

    /**
      One pass of `get_urls`' loop for page k: the page is visited and its
      frame sent, which advances the run by one step and adds page k's frame
      to the table unless its upload is the one that fails. `done` tells
      that the loop stops here: the upload failed or the limit is reached.
     */
    method NextPage(k: nat, collected: string -> seq<string>, now: nat -> int, failAt: Option<nat>,
                    ghost run: seq<Lists>, prior: seq<Lists>, ghost rows0: seq<Row>)
      returns (ok: bool, done: bool, lists: seq<Lists>)
      requires journal in urlBase && k < PageCount(journal) && k == |prior|
      requires run == prior + Run(journal, limit, PageLinks(journal, urlBase[journal], collected), k, Current(), false)
      requires table.rows == rows0 + Frames(journal, urlBase[journal], prior, now)
      modifies this, table
      ensures ok <==> !FailsAt(failAt, |lists| - 1)
      ensures done <==> !ok || |totalUrls| == limit
      ensures |lists| == k + 1 && 1 <= |lists| && Current() == lists[|lists| - 1] && lists[..k] == prior
      ensures |lists| <= |run| && lists == run[..|lists|] && (done && ok ==> lists == run)
      ensures !done ==> run == lists + Run(journal, limit, PageLinks(journal, urlBase[journal], collected), k + 1, Current(), false)
      ensures ok ==> table.rows == rows0 + Frames(journal, urlBase[journal], lists, now)
      ensures !ok ==> table.rows == rows0 + Frames(journal, urlBase[journal], lists[..|lists| - 1], now)
    {
      ghost var links := PageLinks(journal, urlBase[journal], collected);
      ghost var before := Current();
      ghost var sent := Frames(journal, urlBase[journal], prior, now);
      ok := Page(k, collected, Stamp(now, k), !FailsAt(failAt, k));
      var next := Current();
      done := !ok || |totalUrls| == limit;
      RunCons(journal, limit, links, k, before, false);
      FramesSnoc(journal, urlBase[journal], prior, next, now);
      AppendAssoc(rows0, sent, urlSchema);
      ghost var rest := if |next.total| == limit then [] else Run(journal, limit, links, k + 1, next, false);
      AppendAssoc(prior, [next], rest);
      lists := prior + [next];
      PrefixOfAppend(lists, rest);
      PrefixOfAppend(prior, [next]);
      assert lists[..|lists| - 1] == prior;
      if |next.total| == limit {
        assert run == lists + [] == lists;
      }
    }

    /**
      `get_urls` of the arXiv, pbmc and generic builders: pages in order
      until `len(total_urls) == limit` or the pages run out. Page k's frame
      is stamped `now(k)`; the upload of page `failAt`, if any, fails and its
      exception escapes, so the pages before it were all sent. `lists` holds
      the lists after each page visited.
     */
    method GetUrls(collected: string -> seq<string>, now: nat -> int, failAt: Option<nat>)
      returns (ok: bool, lists: seq<Lists>)
      requires journal in urlBase
      modifies this, table
      ensures 1 <= |lists| && Current() == lists[|lists| - 1]
      ensures ok <==> !FailsAt(failAt, |lists| - 1)
      ensures failAt.Some? ==> |lists| - 1 <= failAt.value
      ensures var run := Run(journal, limit, PageLinks(journal, urlBase[journal], collected), 0, old(Current()), false);
        |lists| <= |run| && lists == run[..|lists|] && (ok ==> lists == run)
      ensures ok ==> table.rows == old(table.rows) + Frames(journal, urlBase[journal], lists, now)
      ensures !ok ==> table.rows == old(table.rows) + Frames(journal, urlBase[journal], lists[..|lists| - 1], now)
    {
      ghost var links := PageLinks(journal, urlBase[journal], collected);
      ghost var run := Run(journal, limit, links, 0, Current(), false);
      ghost var rows0 := table.rows;
      lists := [];
      var k := 0;
      while k < PageCount(journal)
        invariant k == |lists|
        invariant run == lists + Run(journal, limit, links, k, Current(), false)
        invariant k > 0 ==> Current() == lists[k - 1]
        invariant failAt.Some? ==> k <= failAt.value
        invariant table.rows == rows0 + Frames(journal, urlBase[journal], lists, now)
        decreases PageCount(journal) - k
      {
        var done;
        ok, done, lists := NextPage(k, collected, now, failAt, run, lists, rows0);
        if done {
          return;
        }
        k := k + 1;
      }
      assert k >= PageCount(journal) >= 1;
      assert Current() == lists[k - 1];
      RunDone(journal, limit, links, k, Current());
      assert lists + [] == lists;
      ok := true;
    }
  }

  /** There is nothing left to run past the last page. */
  lemma RunDone(j: Journal, limit: int, links: nat -> seq<string>, k: nat, st: Lists)
    requires k >= PageCount(j)
    ensures Run(j, limit, links, k, st, false) == []
  {
  }

  /** The upload of page k is the one that fails. */
  predicate FailsAt(failAt: Option<nat>, k: int) {
    failAt.Some? && failAt.value == k
  }

  /** The clock reading of page k. */
  function Stamp(now: nat -> int, k: nat): int {
    now(k)
  }

  /** The frames sent for the pages whose lists are given, page k's stamped `now(k)`. */
  function Frames(j: Journal, base: string, lists: seq<Lists>, now: nat -> int): seq<Row>
  {
    if lists == [] then []
    else
      var k := |lists| - 1;
      Frames(j, base, lists[..k], now)
        + Schema(lists[k].urlList, PageAddress(j, base, k), Rule(j), Language(j), now(k))
  }

  lemma FramesSnoc(j: Journal, base: string, lists: seq<Lists>, last: Lists, now: nat -> int)
    ensures Frames(j, base, lists + [last], now) == Frames(j, base, lists, now)
      + Schema(last.urlList, PageAddress(j, base, |lists|), Rule(j), Language(j), now(|lists|))
  {
    assert (lists + [last])[..|lists|] == lists;
  }
}
