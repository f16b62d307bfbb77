/**
  Arxiv_URLBuilder.py, the notebook's `URL_builder` class: `__init__`
  reads `pages` arXiv search pages of 25 results, keeps the links that
  contain "abs" and writes them into a pandas DataFrame of ledger rows;
  `bigquery` uploads the new URLs.
 */
module ArxivNotebook {
  import opened Wrappers
  import opened Text
  import opened Values
  import ScieloSearch

  /** `url_search`: the search for the word, up to the result offset. */
  function SearchPrefix(word: string): string {
    "http://export.arxiv.org/find/all/1/all:+" + word + "/0/1/0/all/0/1?skip="
  }

  /** The address of page p: the prefix and the offset 25p. */
  function PageUrl(word: string, p: nat): string {
    SearchPrefix(word) + IntToString(25 * p)
  }

  /** Two pages of one search have different addresses. */
  lemma PageUrlsDistinct(word: string, p: nat, q: nat)
    requires PageUrl(word, p) == PageUrl(word, q)
    ensures p == q
  {
    var pre := SearchPrefix(word);
    assert pre[|pre| - 1] == '=';
    NatDigits(25 * p);
    NatDigits(25 * q);
    ScieloSearch.TrailingDigits(pre, IntToString(25 * p), pre, IntToString(25 * q));
    ParseIntToString(25 * p);
    ParseIntToString(25 * q);
  }

  /** `[i for i in urls if 'abs' in i]`: the links that contain "abs", in order. */
  function Kept(urls: seq<string>): (kept: seq<string>)
    ensures |kept| <= |urls|
  {
    if urls == [] then []
    else (if Contains(urls[0], "abs") then [urls[0]] else []) + Kept(urls[1..])
  }

  /** A link is kept exactly when it is on the page and contains "abs". */
  lemma {:induction false} KeptMembers(urls: seq<string>)
    ensures forall u :: u in Kept(urls) <==> u in urls && Contains(u, "abs")
  {
    if urls != [] {
      KeptMembers(urls[1..]);
      assert urls == [urls[0]] + urls[1..];
    }
  }

  /** Assigning a list of the wrong length to a column raises ValueError. */
  datatype FrameError = ValueError

  /** A DataFrame: its number of rows and its columns by name. */
  datatype Frame = Frame(length: nat, cols: map<string, seq<Value>>)

  /** Every column has one cell per row. */
  predicate Rectangular(f: Frame) {
    forall c :: c in f.cols ==> |f.cols[c]| == f.length
  }

  /** `pd.DataFrame()`. */
  const EmptyFrame := Frame(0, map[])

  /** The strings as DataFrame cells. */
  function Cells(us: seq<string>): (cs: seq<Value>)
    ensures |cs| == |us| && forall i :: 0 <= i < |us| ==> cs[i] == Str(us[i])
  {
    seq(|us|, i requires 0 <= i < |us| => Str(us[i]))
  }

  /**
    `df[name] = values` with a list: a frame without rows takes the list's
    length and fills its other columns with NaN; otherwise the list must
    have one value per row.
   */
  function SetColumn(f: Frame, name: string, vals: seq<Value>): (r: Result<Frame, FrameError>)
    ensures r.Err? <==> f.length != 0 && |vals| != f.length
    ensures r.Ok? ==> r.value.length == |vals| && name in r.value.cols && r.value.cols[name] == vals
    ensures r.Ok? ==> r.value.cols.Keys == f.cols.Keys + {name}
  {
    if f.length == 0 && |vals| > 0 then
      var filled := map c | c in f.cols :: seq(|vals|, _ => Null);
      Ok(Frame(|vals|, filled[name := vals]))
    else if |vals| != f.length then
      Err(ValueError)
    else
      Ok(Frame(f.length, f.cols[name := vals]))
  }

  /** `df[name] = v` with a single value: the value in every row. */
  function Broadcast(f: Frame, name: string, v: Value): (r: Frame)
    ensures r.length == f.length && r.cols.Keys == f.cols.Keys + {name}
  {
    Frame(f.length, f.cols[name := seq(f.length, _ => v)])
  }

  /** Assigning a column keeps every column at the frame's length. */
  lemma SetColumnRectangular(f: Frame, name: string, vals: seq<Value>)
    requires Rectangular(f) && SetColumn(f, name, vals).Ok?
    ensures Rectangular(SetColumn(f, name, vals).value)
  {
  }

  /** A broadcast column holds the value in every row; the other columns are untouched. */
  lemma BroadcastFills(f: Frame, name: string, v: Value)
    ensures var r := Broadcast(f, name, v);
      && |r.cols[name]| == f.length && (forall i :: 0 <= i < f.length ==> r.cols[name][i] == v)
      && (forall c :: c in f.cols && c != name ==> r.cols[c] == f.cols[c])
      && (Rectangular(f) ==> Rectangular(r))
  {
  }

  /** The different strings of a list: `set(...)` of it. */
  function Elems(us: seq<string>): set<string> {
    set u | u in us
  }

  lemma ElemsAppend(a: seq<string>, b: seq<string>)
    ensures Elems(a + b) == Elems(a) + Elems(b)
  {
  }

  /** What `__init__` holds after some pages: the frame, `url1` and `article_set`. */
  datatype Progress = Progress(frame: Frame, url1: seq<string>, seen: set<string>)

  /** A page the loop reads: its address and the links the browser shows there. */
  datatype Visit = Visit(url: string, links: seq<string>)

  /** The pages `__init__` visits, `collect` giving the links shown at an address. */
  function Visits(word: string, collect: string -> seq<string>, n: nat): (vs: seq<Visit>)
    ensures |vs| == n
    ensures forall p :: 0 <= p < n ==> vs[p] == Visit(PageUrl(word, p), collect(PageUrl(word, p)))
  {
    seq(n, p requires 0 <= p < n => Visit(PageUrl(word, p), collect(PageUrl(word, p))))
  }

  /** One pass of the page loop: keep the page's links, then rewrite both columns. */
  function PageStep(s: Progress, v: Visit): Result<Progress, FrameError> {
    var url1 := s.url1 + Kept(v.links);
    match SetColumn(s.frame, "article_url", Cells(url1))
    case Err(e) => Err(e)
    case Ok(f) => Ok(Progress(Broadcast(f, "catalog_url", Str(v.url)), url1, s.seen + Elems(Kept(v.links))))
  }

  /** The state after the first n visits, or the error that stopped the loop. */
  function Pages(vs: seq<Visit>, n: nat): Result<Progress, FrameError>
    requires n <= |vs|
  {
    if n == 0 then Ok(Progress(EmptyFrame, [], {}))
    else
      match Pages(vs, n - 1)
      case Err(e) => Err(e)
      case Ok(s) => PageStep(s, vs[n - 1])
  }

  /** The columns set after the loop, each with one value in every row. */
  function Finish(f: Frame, now: Value): Frame {
    var f := Broadcast(f, "is_pdf", Int(0));
    var f := Broadcast(f, "language", Str("en"));
    var f := Broadcast(f, "status", Str("not mined"));
    var f := Broadcast(f, "timestamp", now);
    var f := Broadcast(f, "worker_id", Null);
    Broadcast(f, "meta_info", Null)
  }

  /** The links kept from the first n visits, page after page. */
  function AllKept(vs: seq<Visit>, n: nat): seq<string>
    requires n <= |vs|
  {
    if n == 0 then [] else AllKept(vs, n - 1) + Kept(vs[n - 1].links)
  }

  /** No two of the first n visits both yield kept links. */
  predicate AtMostOneContributes(vs: seq<Visit>, n: nat)
    requires n <= |vs|
  {
    forall p, q :: 0 <= p < q < n ==> Kept(vs[p].links) == [] || Kept(vs[q].links) == []
  }

  /** None of the first n visits yields a kept link. */
  predicate NoneKept(vs: seq<Visit>, n: nat)
    requires n <= |vs|
  {
    forall p :: 0 <= p < n ==> Kept(vs[p].links) == []
  }

  /** No link is kept from the first n visits exactly when none of them yields one. */
  lemma {:induction false} AllKeptEmpty(vs: seq<Visit>, n: nat)
    requires n <= |vs|
    ensures AllKept(vs, n) == [] <==> NoneKept(vs, n)
  {
    if n > 0 {
      AllKeptEmpty(vs, n - 1);
      var last := Kept(vs[n - 1].links);
      assert AllKept(vs, n) == AllKept(vs, n - 1) + last;
      assert NoneKept(vs, n) <==> NoneKept(vs, n - 1) && last == [];
    }
  }

  /** A state whose frame has one row per link of `url1`, listed in `article_url`, and whose set is theirs. */
  predicate Consistent(s: Progress) {
    && s.frame.length == |s.url1| && Rectangular(s.frame) && s.seen == Elems(s.url1)
    && (s.url1 != [] ==> "article_url" in s.frame.cols && s.frame.cols["article_url"] == Cells(s.url1))
  }

  /** One page keeps a consistent state consistent, appending the page's kept links. */
  lemma PageStepConsistent(s: Progress, v: Visit)
    requires Consistent(s)
    ensures PageStep(s, v).Err? <==> s.url1 != [] && Kept(v.links) != []
    ensures PageStep(s, v).Ok? ==> Consistent(PageStep(s, v).value) && PageStep(s, v).value.url1 == s.url1 + Kept(v.links)
  {
    ElemsAppend(s.url1, Kept(v.links));
  }

  /**
    After n visits without error, `url1` holds every kept link in page
    order, the frame has one row per kept link, `article_url` lists them,
    and `article_set` is the set of them.
   */
  lemma {:induction false} PagesContents(vs: seq<Visit>, n: nat)
    requires n <= |vs| && Pages(vs, n).Ok?
    ensures Consistent(Pages(vs, n).value)
    ensures Pages(vs, n).value.url1 == AllKept(vs, n)
  {
    if n > 0 {
      PagesContents(vs, n - 1);
      PageStepConsistent(Pages(vs, n - 1).value, vs[n - 1]);
    }
  }

  /**
    After n >= 1 visits without error every row's `catalog_url` is the
    address of the last page read, whichever page its link came from.
   */
  lemma CatalogIsLastPage(vs: seq<Visit>, n: nat)
    requires 0 < n <= |vs| && Pages(vs, n).Ok?
    ensures var f := Pages(vs, n).value.frame;
      && "catalog_url" in f.cols && |f.cols["catalog_url"]| == f.length
      && forall i :: 0 <= i < f.length ==> f.cols["catalog_url"][i] == Str(vs[n - 1].url)
  {
  }

  /** Page n succeeds when the pages before it did and not both they and it keep links. */
  lemma PagesOkStep(vs: seq<Visit>, n: nat)
    requires 0 < n <= |vs|
    ensures Pages(vs, n).Ok? <==>
      Pages(vs, n - 1).Ok? && (AllKept(vs, n - 1) == [] || Kept(vs[n - 1].links) == [])
  {
    if Pages(vs, n - 1).Ok? {
      PagesContents(vs, n - 1);
      PageStepConsistent(Pages(vs, n - 1).value, vs[n - 1]);
    }
  }

  /** No visit among the first n yields kept links after an earlier one did, page by page. */
  predicate NoSecondContributor(vs: seq<Visit>, n: nat)
    requires n <= |vs|
  {
    n == 0 || (NoSecondContributor(vs, n - 1) && (Kept(vs[n - 1].links) == [] || NoneKept(vs, n - 1)))
  }

  /** The page-by-page form and the pairwise form say the same. */
  lemma {:induction false} NoSecondIsAtMostOne(vs: seq<Visit>, n: nat)
    requires n <= |vs|
    ensures NoSecondContributor(vs, n) <==> AtMostOneContributes(vs, n)
  {
    if n > 0 {
      NoSecondIsAtMostOne(vs, n - 1);
      assert AtMostOneContributes(vs, n) <==>
        AtMostOneContributes(vs, n - 1) && (Kept(vs[n - 1].links) == [] || NoneKept(vs, n - 1));
    }
  }

  /** The loop survives n pages exactly when no page keeps links after an earlier one did. */
  lemma {:induction false} PagesOkNoSecond(vs: seq<Visit>, n: nat)
    requires n <= |vs|
    ensures Pages(vs, n).Ok? <==> NoSecondContributor(vs, n)
  {
    if n > 0 {
      PagesOkNoSecond(vs, n - 1);
      PagesOkStep(vs, n);
      AllKeptEmpty(vs, n - 1);
    }
  }

  /**
    The page loop fails exactly when two pages both yield kept links: the
    frame already has rows from the first, and the second assigns the
    longer `url1` to it.
   */
  lemma PagesFailIff(vs: seq<Visit>, n: nat)
    requires n <= |vs|
    ensures Pages(vs, n).Ok? <==> AtMostOneContributes(vs, n)
  {
    PagesOkNoSecond(vs, n);
    NoSecondIsAtMostOne(vs, n);
  }

  /** Once the loop has failed it stays failed: later pages are never reached. */
  lemma {:induction false} PagesErrStays(vs: seq<Visit>, m: nat, n: nat)
    requires m <= n <= |vs| && Pages(vs, m).Err?
    ensures Pages(vs, n).Err?
    decreases n
  {
    if m < n {
      PagesErrStays(vs, m, n - 1);
    }
  }

  /** Two pages that each show an "abs" link already make `__init__` fail. */
  lemma TwoPagesFail(word: string)
    ensures Pages(Visits(word, _ => ["abs"], 2), 2).Err?
  {
    var vs := Visits(word, _ => ["abs"], 2);
    assert OccursAt("abs", "abs", 0);
    assert Kept(vs[0].links) != [] && Kept(vs[1].links) != [];
    PagesFailIff(vs, 2);
  }

  /** `__init__` raises ValueError from a column assignment; `bigquery` raises AttributeError. */
  datatype NotebookError = FrameFailure(e: FrameError) | AttributeError

  /** The notebook's `URL_builder` object. */
  class NotebookUrlBuilder {
    var url1: seq<string>
    var urlSchema: Frame

    constructor ()
      ensures url1 == [] && urlSchema == EmptyFrame
    {
      url1 := [];
      urlSchema := EmptyFrame;
    }

    /**
      One pass of `__init__`'s page loop for the page at `url` showing
      `urls`: the kept links are appended to `url1` and assigned to
      `article_url`, and `catalog_url` is set to the address; `ok` is false
      when the assignment raises.
     */
    method AddPage(url: string, urls: seq<string>, articleSet: set<string>) returns (ok: bool, seen: set<string>)
      modifies this
      ensures var step := PageStep(Progress(old(urlSchema), old(url1), articleSet), Visit(url, urls));
        && (ok <==> step.Ok?) && (ok ==> step.value == Progress(urlSchema, url1, seen))
    {
      url1 := url1 + Kept(urls);
      var column := SetColumn(urlSchema, "article_url", Cells(url1));
      if column.Err? {
        return false, articleSet;
      }
      urlSchema := Broadcast(column.value, "catalog_url", Str(url));
      seen := articleSet + Elems(Kept(urls));
      ok := true;
    }

    /**
      The page loop of `__init__`: for the pages 0, ..., pages - 1, whose
      offsets `page_num` are 0, 25, ..., 25 * (pages - 1), the links
      `collect` gives for the page's address are read and added by
      `AddPage`, until an assignment raises.
     */
    method ReadPages(searchWord: string, pages: int, collect: string -> seq<string>)
      returns (ok: bool, articleSet: set<string>)
      requires url1 == [] && urlSchema == EmptyFrame
      modifies this
      ensures var n := Max(0, pages); var run := Pages(Visits(searchWord, collect, n), n);
        && (ok <==> run.Ok?) && (ok ==> run.value == Progress(urlSchema, url1, articleSet))
    {
      articleSet := {};
      ghost var visits := Visits(searchWord, collect, Max(0, pages));
      for k := 0 to Max(0, pages)
        invariant Pages(visits, k) == Ok(Progress(urlSchema, url1, articleSet))
      {
        var url := PageUrl(searchWord, k);
        ok, articleSet := AddPage(url, collect(url), articleSet);
        if !ok {
          PagesErrStays(visits, k + 1, |visits|);
          return;
        }
      }
      ok := true;
    }

    /**
      `__init__(search_word, pages)`: the page loop, then the constant
      columns, stamped with `now`. The result is the printed total, the
      number of different kept links, or the ValueError of a column
      assignment.
     */
    method Init(searchWord: string, pages: int, collect: string -> seq<string>, now: Value)
      returns (r: Result<nat, NotebookError>)
      modifies this
      ensures var n := Max(0, pages); var run := Pages(Visits(searchWord, collect, n), n);
        && (r.Err? <==> run.Err?)
        && (r.Ok? ==> url1 == run.value.url1 && urlSchema == Finish(run.value.frame, now)
                      && r.value == |run.value.seen|)
    {
      url1 := [];
      urlSchema := EmptyFrame;
      var ok, articleSet := ReadPages(searchWord, pages, collect);
      if !ok {
        return Err(FrameFailure(ValueError));
      }
      urlSchema := Finish(urlSchema, now);
      r := Ok(|articleSet|);
    }

    /**
      `bigquery(project_id, table_id, schema)`: it uploads `self.new_urls`,
      which nothing ever assigns, so it always raises AttributeError.
     */
    method Bigquery(projectId: string, tableId: string) returns (r: Result<Frame, NotebookError>)
      ensures r == Err(AttributeError)
    {
      r := Err(AttributeError);
    }
  }

  /** The rows the notebook evidently means for the links found at one address. */
  function PageRows(url: string, links: seq<string>): (rows: seq<(string, string)>)
    ensures |rows| == |links| && forall i :: 0 <= i < |links| ==> rows[i] == (links[i], url)
  {
    seq(|links|, i requires 0 <= i < |links| => (links[i], url))
  }

  /**
    The evidently intended result of the page loop: one row per kept link
    of every page, each with the address of the page it was found on.
   */
  function IntendedRows(vs: seq<Visit>, n: nat): seq<(string, string)>
    requires n <= |vs|
  {
    if n == 0 then [] else IntendedRows(vs, n - 1) + PageRows(vs[n - 1].url, Kept(vs[n - 1].links))
  }

  /** The intended rows list every kept link of the first n pages, in order. */
  lemma {:induction false} IntendedRowsLinks(vs: seq<Visit>, n: nat)
    requires n <= |vs|
    ensures |IntendedRows(vs, n)| == |AllKept(vs, n)|
    ensures forall i :: 0 <= i < |AllKept(vs, n)| ==> IntendedRows(vs, n)[i].0 == AllKept(vs, n)[i]
  {
    if n > 0 {
      IntendedRowsLinks(vs, n - 1);
      var a, k := AllKept(vs, n - 1), Kept(vs[n - 1].links);
      var rows, page := IntendedRows(vs, n - 1), PageRows(vs[n - 1].url, k);
      assert IntendedRows(vs, n) == rows + page;
      assert AllKept(vs, n) == a + k;
      var both: seq<(string, string)> := rows + page;
      forall i | 0 <= i < |a| + |k| ensures both[i].0 == (a + k)[i] {
        if i < |a| {
          assert both[i] == rows[i] && (a + k)[i] == a[i];
        } else {
          assert both[i] == page[i - |a|] && (a + k)[i] == k[i - |a|];
        }
      }
    }
  }

  /** The rows of the first m pages stay at the front as more pages are read. */
  lemma {:induction false} IntendedRowsPrefix(vs: seq<Visit>, m: nat, n: nat)
    requires m <= n <= |vs|
    ensures IntendedRows(vs, m) <= IntendedRows(vs, n)
    decreases n
  {
    if m < n {
      IntendedRowsPrefix(vs, m, n - 1);
      var a, b := IntendedRows(vs, m), IntendedRows(vs, n - 1);
      assert b == IntendedRows(vs, n)[..|b|];
      assert a == b[..|a|];
    }
  }

  /**
    In the intended rows, the rows of page p come right after those of the
    pages before it, and each carries page p's address; on the notebook's
    visits different pages give different addresses.
   */
  lemma IntendedRowsOfPage(vs: seq<Visit>, p: nat, n: nat)
    requires p < n <= |vs|
    ensures var lo, hi := |IntendedRows(vs, p)|, |IntendedRows(vs, p + 1)|;
      hi <= |IntendedRows(vs, n)| && IntendedRows(vs, n)[lo..hi] == PageRows(vs[p].url, Kept(vs[p].links))
  {
    IntendedRowsPrefix(vs, p + 1, n);
    var before := IntendedRows(vs, p);
    var upTo := IntendedRows(vs, p + 1);
    assert upTo[|before|..] == PageRows(vs[p].url, Kept(vs[p].links));
  }
}
