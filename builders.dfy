/**
  updated_urlbuilder/urlbuilder/builders/__init__.py: `get(name)` picks the
  URL builder for a site by its name, in any letter case.
 */
module Builders {
  import opened Wrappers
  import opened Text

  /** The two URL builders the package offers. */
  datatype Builder = ScieloUrlBuilder | ArxivUrlBuilder

  /** The `search_domain` of the `Scielo` and `Arxiv` classes. */
  function SearchDomain(b: Builder): string {
    match b
    case ScieloUrlBuilder => "https://search.scielo.org/"
    case ArxivUrlBuilder => "https://export.arxiv.org/"
  }

  /**
    `get(name)`: the Scielo builder when the lower-cased name is "scielo",
    the arXiv builder when it is "arxiv", and None for any other name.
   */
  function Get(name: string): (b: Option<Builder>)
    ensures b == Some(ScieloUrlBuilder) <==> Lower(name) == "scielo"
    ensures b == Some(ArxivUrlBuilder) <==> Lower(name) == "arxiv"
    ensures b == None <==> Lower(name) != "scielo" && Lower(name) != "arxiv"
  {
    if Lower(name) == "scielo" then Some(ScieloUrlBuilder)
    else if Lower(name) == "arxiv" then Some(ArxivUrlBuilder)
    else None
  }

  /**
    The choice depends on the name's lower-case form only: two names that
    differ only in letter case pick the same builder, and the lower-cased
    name picks the same builder as the name itself.
   */
  lemma GetIgnoresCase(a: string, b: string)
    requires Lower(a) == Lower(b)
    ensures Get(a) == Get(b)
    ensures Get(Lower(a)) == Get(a)
  {
    LowerIdempotent(a);
  }

  /** "SciELO" and "ARXIV" select their builders; "scielo.org" selects none. */
  lemma GetExamples()
    ensures Get("SciELO") == Some(ScieloUrlBuilder)
    ensures Get("ARXIV") == Some(ArxivUrlBuilder)
    ensures Get("scielo.org") == None
  {
    assert Lower("SciELO") == "scielo" by {
      assert LowerChar('S') == 's' && LowerChar('E') == 'e' && LowerChar('L') == 'l' && LowerChar('O') == 'o';
    }
    assert Lower("ARXIV") == "arxiv" by {
      assert LowerChar('A') == 'a' && LowerChar('R') == 'r' && LowerChar('X') == 'x' && LowerChar('I') == 'i'
        && LowerChar('V') == 'v';
    }
    assert |Lower("scielo.org")| == 10;
  }
}
