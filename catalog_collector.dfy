/**
  The catalog collector (catalog_collector/collector.py and main.py): it
  reads the number of hits of a Scielo search, caps it by an optional
  limit, and lists the addresses of every result page.
 */
module CatalogCollector {
  import opened Wrappers
  import opened Text
  import opened ScieloSearch

  /** `int(...)` of the hit text raises ValueError when it is not a number. */
  datatype CollectError = ValueError

  /** The search page the collector starts from, in catalog_collector/main.py. */
  const SearchDomain := "https://search.scielo.org/"

  /** `int(text.replace(' ', ''))`: the hit count shown with spaces between digit groups. */
  function HitCount(text: string): Option<int> {
    ParseInt(ReplaceAll(text, " ", ""))
  }

  /** Concatenating digit strings gives a digit string. */
  lemma {:induction false} JoinDigits(groups: seq<string>)
    requires forall g :: g in groups ==> AllDigits(g)
    ensures AllDigits(Join("", groups))
  {
    if |groups| > 1 {
      var a := groups[0];
      var b := Join("", groups[1..]);
      JoinDigits(groups[1..]);
      assert Join("", groups) == a + b;
      assert AllDigits(a) by { assert a in groups; }
      forall i | 0 <= i < |a + b| ensures IsDigit((a + b)[i]) {
        if i >= |a| {
          assert (a + b)[i] == b[i - |a|];
        }
      }
    }
  }

  /** A digit string has no space in it. */
  lemma DigitsNoSpace(groups: seq<string>)
    requires forall g :: g in groups ==> AllDigits(g)
    ensures forall g :: g in groups ==> ' ' !in g
  {
    forall g | g in groups ensures ' ' !in g {
      ContainsChar(g, ' ');
    }
  }

  /** A count written in space-separated groups of digits reads as the number of all its digits. */
  lemma HitCountGroups(groups: seq<string>)
    requires |groups| >= 1 && groups[0] != []
    requires forall g :: g in groups ==> AllDigits(g)
    ensures AllDigits(Join("", groups)) && HitCount(Join(" ", groups)) == Some(DigitsValue(Join("", groups)))
  {
    var all := Join("", groups);
    DigitsNoSpace(groups);
    SplitJoin(groups, ' ');
    JoinDigits(groups);
    JoinFirst(groups);
    HitCountOf(Join(" ", groups), all);
  }

  /** The joined digits are at least as long as the first group. */
  lemma JoinFirst(groups: seq<string>)
    requires |groups| >= 1
    ensures |Join("", groups)| >= |groups[0]|
  {
    if |groups| > 1 {
      assert Join("", groups) == groups[0] + Join("", groups[1..]);
    }
  }

  /** A hit text that is a run of digits once its spaces are removed reads as that run's value. */
  lemma HitCountOf(text: string, digits: string)
    requires digits != [] && AllDigits(digits)
    requires ReplaceAll(text, " ", "") == digits
    ensures HitCount(text) == Some(DigitsValue(digits))
  {
    ParseDigits(digits);
  }

  /** `total`: the hit count, or the limit when one is given and does not exceed it. */
  function Total(hits: int, limit: Option<int>): (total: int)
    ensures limit.None? ==> total == hits
    ensures limit.Some? ==> total <= hits && total <= limit.value
    ensures total == hits || (limit.Some? && total == limit.value)
  {
    if limit.None? || limit.value > hits then hits else limit.value
  }

  /** `math.ceil(total / URLS_PER_PAGE)`, computed exactly on integers. */
  function PageCount(total: int): (n: int)
    ensures total > 0 ==> n >= 1 && (n - 1) * UrlsPerPage < total <= n * UrlsPerPage
    ensures total <= 0 ==> n <= 0
  {
    -((-total) / UrlsPerPage)
  }

  /** 37 hits make three pages; a limit of 25 makes two. */
  lemma PageCountExamples()
    ensures PageCount(Total(37, None)) == 3
    ensures PageCount(Total(37, Some(25))) == 2
    ensures PageCount(Total(37, Some(100))) == 3
  {
  }

  /**
    `_collect(domain, keywords, limit)`, given the hit text the first search
    page shows: the addresses of pages 1 to n_pages, in order, or the error
    `int` raises. `range` of a negative count is empty.
   */
  function Collect(codec: UrlCodec, domain: string, keywords: seq<string>, limit: Option<int>,
                   hitText: string): (r: Result<seq<string>, CollectError>)
    ensures HitCount(hitText).None? <==> r.Err?
    ensures r.Ok? ==> |r.value| == Max(0, PageCount(Total(HitCount(hitText).value, limit)))
    ensures r.Ok? ==> forall i :: 0 <= i < |r.value| ==> r.value[i] == SearchUrl(codec, domain, keywords, i + 1, UrlsPerPage)
  {
    match HitCount(hitText)
    case None => Err(ValueError)
    case Some(hits) =>
      var n := Max(0, PageCount(Total(hits, limit)));
      Ok(seq(n, i requires 0 <= i => SearchUrl(codec, domain, keywords, i + 1, UrlsPerPage)))
  }


  /** The collected addresses are pairwise different, so each page is pushed once. */
  lemma CollectDistinct(codec: UrlCodec, domain: string, keywords: seq<string>, limit: Option<int>,
                        hitText: string)
    requires Collect(codec, domain, keywords, limit, hitText).Ok?
    ensures NoDuplicates(Collect(codec, domain, keywords, limit, hitText).value)
  {
    SearchUrlsDistinct(codec, domain, keywords, Collect(codec, domain, keywords, limit, hitText).value, UrlsPerPage);
  }

  /** `parse_args` exits with status 0 when there is no argument; other exceptions escape. */
  datatype ArgsError = SystemExit(code: int) | IndexError

  /**
    `parse_args(argv)`: the guard reads `sys.argv`, the rest reads `argv`.
    The search terms are `argv[1:]`, less the last one when that one reads
    as an integer, which then is the limit. `argv[-1]` of an empty list and
    `pop` of an empty list raise IndexError, which is not caught.
   */
  method ParseArgs(sysArgv: seq<string>, argv: seq<string>) returns (r: Result<(seq<string>, Option<int>), ArgsError>)
    ensures |sysArgv| <= 1 ==> r == Err(SystemExit(0))
    ensures r == Err(IndexError) <==> |sysArgv| > 1 && (argv == [] || (|argv| == 1 && ParseInt(argv[0]).Some?))
    ensures r.Ok? ==> argv != [] && r.value.1 == ParseInt(argv[|argv| - 1])
    ensures r.Ok? && r.value.1.None? ==> r.value.0 == argv[1..]
    ensures r.Ok? && r.value.1.Some? ==> r.value.0 == argv[1..|argv| - 1]
  {
    if |sysArgv| <= 1 {
      return Err(SystemExit(0));
    }
    var searchTerms := if |argv| <= 1 then [] else argv[1..];
    if argv == [] {
      return Err(IndexError);
    }
    var limit := ParseInt(argv[|argv| - 1]);
    if limit.Some? {
      if searchTerms == [] {
        return Err(IndexError);
      }
      searchTerms := searchTerms[..|searchTerms| - 1];
    }
    r := Ok((searchTerms, limit));
  }

  /** The terms and the limit, if one was read, together are exactly the arguments after the program name. */
  lemma ParseArgsPartition(argv: seq<string>, terms: seq<string>, limit: Option<int>)
    requires |argv| >= 2
    requires limit == ParseInt(argv[|argv| - 1])
    requires limit.None? ==> terms == argv[1..]
    requires limit.Some? ==> terms == argv[1..|argv| - 1]
    ensures terms + (if limit.Some? then [argv[|argv| - 1]] else []) == argv[1..]
    ensures limit.Some? ==> ParseInt(argv[|argv| - 1]) == Some(limit.value)
  {
    if limit.Some? {
      assert argv[1..] == argv[1..|argv| - 1] + [argv[|argv| - 1]];
    }
  }
}
