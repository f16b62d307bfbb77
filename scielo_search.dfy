/**
  The Scielo search page addresses (`_search_url`, written identically in
  catalog_collector/collector.py and updated_urlbuilder/urlbuilder/urlbuilder.py):
  a search for the parenthesised terms joined by ' OR ', fifteen results
  per page, page `page_index` starting at result `15 * (page_index - 1) + 1`.
 */
module ScieloSearch {
  import opened Wrappers
  import opened Text

  /** `URLS_PER_PAGE`, and `_search_url`'s default `urls_per_page`. */
  const UrlsPerPage: nat := 15

  /**
    The parts of urllib the address goes through, whose encodings are not
    modelled: `urlunparse(urlparse(domain)._replace(query=...))`,
    `urlencode` of the query pairs and `quote_plus`.
   */
  datatype UrlCodec = UrlCodec(
    withQuery: (string, string) -> string,
    urlencode: seq<(string, string)> -> string,
    quotePlus: string -> string)

  /** `f'({term})'` for every term, in order. */
  function Parenthesized(terms: seq<string>): (ps: seq<string>)
    ensures |ps| == |terms|
    ensures forall i :: 0 <= i < |terms| ==> ps[i] == "(" + terms[i] + ")"
  {
    if terms == [] then [] else ["(" + terms[0] + ")"] + Parenthesized(terms[1..])
  }

  /** The `q` query value: `' OR '.join(...)` of the parenthesised terms. */
  function SearchTerms(terms: seq<string>): string {
    Join(" OR ", Parenthesized(terms))
  }

  /** The index of the first result shown on a page. */
  function FirstResult(pageIndex: int, urlsPerPage: int): int {
    urlsPerPage * (pageIndex - 1) + 1
  }

  /** `new_query`, in its insertion order, each value as `urlencode` renders it with `str`. */
  function SearchQuery(terms: seq<string>, pageIndex: int, urlsPerPage: int): (query: seq<(string, string)>)
    ensures |query| == 10
    ensures query[0] == ("q", SearchTerms(terms)) && query[1] == ("lang", "en")
    ensures query[2] == ("count", IntToString(urlsPerPage))
    ensures query[3] == ("from", IntToString(FirstResult(pageIndex, urlsPerPage)))
    ensures query[8] == ("page", IntToString(pageIndex)) && query[9] == ("filter[in][]", "scl")
  {
    [("q", SearchTerms(terms)), ("lang", "en"), ("count", IntToString(urlsPerPage)),
     ("from", IntToString(FirstResult(pageIndex, urlsPerPage))), ("output", "site"), ("sort", ""),
     ("format", "summary"), ("fb", ""), ("page", IntToString(pageIndex)), ("filter[in][]", "scl")]
  }

  /** The fixed text between the encoded page address and the quoted terms. */
  function SearchUrlHead(codec: UrlCodec, domain: string, terms: seq<string>, pageIndex: int,
                         urlsPerPage: int): (head: string)
    ensures head != [] && head[|head| - 1] == '='
  {
    codec.withQuery(domain, codec.urlencode(SearchQuery(terms, pageIndex, urlsPerPage)))
      + "&q=" + codec.quotePlus(SearchTerms(terms)) + "&lang=" + "en" + "&page="
  }

  /**
    `_search_url(domain, search_terms, page_index, urls_per_page)`: the
    rebuilt address followed by `&q=`, the quoted terms, `&lang=en` and
    `&page=` with the page index.
   */
  function SearchUrl(codec: UrlCodec, domain: string, terms: seq<string>, pageIndex: int,
                     urlsPerPage: int): string
  {
    SearchUrlHead(codec, domain, terms, pageIndex, urlsPerPage) + IntToString(pageIndex)
  }

  /** Two strings that end in '=' followed by a run of digits share that run when they are equal. */
  lemma TrailingDigits(a1: string, s1: string, a2: string, s2: string)
    requires a1 != [] && a1[|a1| - 1] == '=' && a2 != [] && a2[|a2| - 1] == '='
    requires AllDigits(s1) && AllDigits(s2)
    requires a1 + s1 == a2 + s2
    ensures s1 == s2
  {
    var u := a1 + s1;
    assert u[|a1| - 1] == '=' && u[|a2| - 1] == '=';
    forall j | |u| - |s2| <= j < |u| ensures IsDigit(u[j]) {
      assert u[j] == s2[j - |a2|];
    }
    forall j | |u| - |s1| <= j < |u| ensures IsDigit(u[j]) {
      assert u[j] == s1[j - |a1|];
    }
    assert |s1| == |s2|;
    assert s1 == u[|u| - |s1|..];
  }

  /**
    The page index can be read back from the end of the address, so the
    addresses of two different pages of one search differ, whatever the
    encoders produce.
   */
  lemma SearchUrlPages(codec: UrlCodec, domain: string, terms: seq<string>, p1: nat, p2: nat,
                       urlsPerPage: int)
    requires SearchUrl(codec, domain, terms, p1, urlsPerPage) == SearchUrl(codec, domain, terms, p2, urlsPerPage)
    ensures p1 == p2
  {
    NatDigits(p1);
    NatDigits(p2);
    TrailingDigits(SearchUrlHead(codec, domain, terms, p1, urlsPerPage), IntToString(p1),
                   SearchUrlHead(codec, domain, terms, p2, urlsPerPage), IntToString(p2));
    ParseIntToString(p1);
    ParseIntToString(p2);
  }

  /** The addresses of pages 1, 2, ... of one search are pairwise different. */
  lemma SearchUrlsDistinct(codec: UrlCodec, domain: string, terms: seq<string>, urls: seq<string>,
                           urlsPerPage: int)
    requires forall i :: 0 <= i < |urls| ==> urls[i] == SearchUrl(codec, domain, terms, i + 1, urlsPerPage)
    ensures NoDuplicates(urls)
  {
    forall i, j | 0 <= i < j < |urls| ensures urls[i] != urls[j] {
      if urls[i] == urls[j] {
        SearchUrlPages(codec, domain, terms, i + 1, j + 1, urlsPerPage);
      }
    }
  }
}
