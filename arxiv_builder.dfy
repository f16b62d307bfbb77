/**
  updated_urlbuilder/urlbuilder/builders/ArxivBuilder.py: the arXiv URL
  builder. `collect` turns the keywords into an arXiv search, appends one
  "Not Mined" ledger row per link it reads, 25 links to a page, until it
  has inserted `limit` rows or a page shows no link; `connect_to_gbq`
  splits the table id the rows go to.
 */
module ArxivBuilder {
  import opened Wrappers
  import opened Text
  import opened Tables
  import opened Ledger

  /** The placeholder `collect` joins and splits the keywords with. */
  const Placeholder := "tEmP"

  /** The search-string piece between two keywords. */
  const AndWord := "+AND+"

  /** `"tEmP+AND+tEmP".join(keywords).split("tEmP")`. */
  function KeywordPieces(keywords: seq<string>): seq<string> {
    Split(Join(Placeholder + AndWord + Placeholder, keywords), Placeholder)
  }

  /**
    `keyword_string`: the pieces after the first, then "+" and the first
    piece, concatenated.
   */
  function KeywordString(keywords: seq<string>): string {
    var pieces := KeywordPieces(keywords);
    Join("", pieces[1..] + ["+" + pieces[0]])
  }

  /** `+AND+k` for every keyword, in order. */
  function AndTerms(keywords: seq<string>): string {
    if keywords == [] then "" else AndWord + keywords[0] + AndTerms(keywords[1..])
  }

  /** The placeholder pieces between the keywords: `+AND+` before each keyword after the first. */
  function Interleaved(rest: seq<string>): (r: seq<string>)
    ensures |r| == 2 * |rest|
    ensures forall i :: 0 <= i < |rest| ==> r[2 * i] == AndWord && r[2 * i + 1] == rest[i]
  {
    if rest == [] then [] else [AndWord, rest[0]] + Interleaved(rest[1..])
  }

  /** Joining the keywords with the long separator is joining the interleaved pieces with the placeholder. */
  lemma {:induction false} JoinInterleaved(head: string, rest: seq<string>)
    ensures Join(Placeholder, [head] + Interleaved(rest))
         == Join(Placeholder + AndWord + Placeholder, [head] + rest)
    decreases |rest|
  {
    if rest != [] {
      var tail := Interleaved(rest[1..]);
      assert [head] + Interleaved(rest) == [head] + ([AndWord] + ([rest[0]] + tail));
      JoinCons(Placeholder, head, [AndWord] + ([rest[0]] + tail));
      JoinCons(Placeholder, AndWord, [rest[0]] + tail);
      JoinInterleaved(rest[0], rest[1..]);
      JoinCons(Placeholder + AndWord + Placeholder, head, rest);
      assert rest == [rest[0]] + rest[1..];
    }
  }

  /** The interleaved pieces, concatenated, are the `+AND+` terms. */
  lemma {:induction false} ConcatInterleaved(rest: seq<string>)
    ensures Join("", Interleaved(rest)) == AndTerms(rest)
    decreases |rest|
  {
    if rest != [] {
      var tail := Interleaved(rest[1..]);
      assert Interleaved(rest) == [AndWord] + ([rest[0]] + tail);
      JoinEmptyCons(AndWord, [rest[0]] + tail);
      JoinEmptyCons(rest[0], tail);
      ConcatInterleaved(rest[1..]);
    }
  }

  lemma PlaceholderUnbordered()
    ensures Unbordered(Placeholder)
  {
    var s := Placeholder;
    assert s[1..][0] == 'E' && s[..3][0] == 't';
    assert s[2..][0] == 'm' && s[..2][0] == 't';
    assert s[3..][0] == 'P' && s[..1][0] == 't';
  }

  /** Every interleaved piece is `+AND+` or one of the keywords. */
  lemma {:induction false} InterleavedMembers(rest: seq<string>)
    ensures forall x :: x in Interleaved(rest) ==> x == AndWord || x in rest
    decreases |rest|
  {
    if rest != [] {
      InterleavedMembers(rest[1..]);
      assert Interleaved(rest) == [AndWord, rest[0]] + Interleaved(rest[1..]);
      assert forall x :: x in rest[1..] ==> x in rest;
    }
  }

  /** Every piece but the last is free of the placeholder, and so is the last. */
  lemma PiecesSeparable(head: string, rest: seq<string>)
    requires !Contains(head, Placeholder)
    requires forall k :: k in rest ==> !Contains(k, Placeholder)
    ensures var pieces := [head] + Interleaved(rest);
      && (forall i :: 0 <= i < |pieces| - 1 ==> SepFirst(pieces[i], Placeholder))
      && !Contains(pieces[|pieces| - 1], Placeholder)
  {
    var pieces := [head] + Interleaved(rest);
    PlaceholderUnbordered();
    InterleavedMembers(rest);
    if Contains(AndWord, Placeholder) {
      ContainsFirstChar(AndWord, Placeholder);
    }
    forall i | 0 <= i < |pieces| ensures !Contains(pieces[i], Placeholder) {
      assert pieces[i] in pieces;
    }
    forall i | 0 <= i < |pieces| - 1 ensures SepFirst(pieces[i], Placeholder) {
      SepFirstUnbordered(pieces[i], Placeholder);
    }
  }

  /** Splitting at the placeholder recovers the keywords and the `+AND+` pieces between them. */
  lemma PiecesOfKeywords(keywords: seq<string>)
    requires |keywords| >= 1
    requires forall k :: k in keywords ==> !Contains(k, Placeholder)
    ensures KeywordPieces(keywords) == [keywords[0]] + Interleaved(keywords[1..])
  {
    var rest := keywords[1..];
    JoinInterleaved(keywords[0], rest);
    assert [keywords[0]] + rest == keywords;
    assert keywords[0] in keywords;
    assert forall k :: k in rest ==> k in keywords;
    PiecesSeparable(keywords[0], rest);
    SplitJoinSep([keywords[0]] + Interleaved(rest), Placeholder);
  }

  /**
    For keywords k1, ..., kn (n >= 1) none of which contains the
    placeholder, the keyword string is `+AND+k2...+AND+kn` followed by
    `+k1`: the first keyword moves to the end.
   */
  lemma KeywordStringOf(keywords: seq<string>)
    requires |keywords| >= 1
    requires forall k :: k in keywords ==> !Contains(k, Placeholder)
    ensures KeywordString(keywords) == AndTerms(keywords[1..]) + "+" + keywords[0]
  {
    PiecesOfKeywords(keywords);
    var pieces := KeywordPieces(keywords);
    assert pieces[1..] == Interleaved(keywords[1..]);
    JoinEmptySnoc(pieces[1..], "+" + keywords[0]);
    ConcatInterleaved(keywords[1..]);
  }

  /** One keyword gives `+k`; no keyword gives a lone `+`. */
  lemma KeywordStringShort(k: string)
    requires !Contains(k, Placeholder)
    ensures KeywordString([k]) == "+" + k
    ensures KeywordString([]) == "+"
  {
    KeywordStringOf([k]);
    assert KeywordPieces([]) == [""];
  }

  /** The search address before the paging parameters. */
  function BaseUrl(keywords: seq<string>): string {
    "http://export.arxiv.org/find/all/1/all:" + KeywordString(keywords)
  }

  /** The address of result page k: 25 results from result 25k on. */
  function PageUrl(base: string, k: nat): string {
    base + "?skip=" + IntToString(25 * k) + "&show=25"
  }

  /**
    The `meta_info` string as written: the keywords joined by commas
    between brackets, without quotes.
   */
  function MetaInfo(keywords: seq<string>): string {
    "{\"search_terms\": [" + Join(",", keywords) + "]}"
  }

  /** The ledger row `collect` builds for one link. */
  function LinkRow(link: string, url: string, keywords: seq<string>, time: int): (r: Row)
    ensures r.articleUrl == link && r.catalogUrl == url && r.timestamp == time
    ensures r.status == NotMined && r.isPdf == 0 && r.language == Some("en") && r.workerId == None
    ensures r.metaInfo == Some(MetaInfo(keywords))
  {
    Row(link, url, 0, Some("en"), NotMined, time, None, Some(MetaInfo(keywords)))
  }

  /** The rows the warehouse keeps of those inserted one by one, row i kept when `accept(i)`. */
  function Stored(rows: seq<Row>, accept: nat -> bool): seq<Row> {
    if rows == [] then []
    else
      var k := |rows| - 1;
      Stored(rows[..k], accept) + (if accept(k) then [rows[k]] else [])
  }

  lemma StoredSnoc(rows: seq<Row>, r: Row, accept: nat -> bool)
    ensures Stored(rows + [r], accept) == Stored(rows, accept) + (if accept(|rows|) then [r] else [])
  {
    assert (rows + [r])[..|rows|] == rows;
  }

  /** Arithmetic for PageIndex: a positive multiple of `n` is at least `n`. */
  lemma MulAtLeast(d: int, n: nat)
    requires d >= 1
    ensures d * n >= n
  {
  }

  /** Position j of page p is item p * n + j. */
  lemma PageIndex(p: nat, n: nat, j: nat)
    requires j < n
    ensures (p * n + j) / n == p && (p * n + j) % n == j
  {
    var x := p * n + j;
    var q, r := x / n, x % n;
    assert x == q * n + r && 0 <= r < n;
    assert (p - q) * n == r - j;
    if p > q {
      MulAtLeast(p - q, n);
    } else if q > p {
      MulAtLeast(q - p, n);
    }
  }

  /** The position of the first item of page p, with n items to a page. */
  function PageStart(p: nat, n: nat): nat {
    if p == 0 then 0 else PageStart(p - 1, n) + n
  }

  lemma {:induction false} PageStartIsProduct(p: nat, n: nat)
    ensures PageStart(p, n) == p * n
  {
    if p > 0 {
      PageStartIsProduct(p - 1, n);
      assert p * n == (p - 1) * n + n;
    }
  }

  /** The position of row `i` among the `n` links of its page. */
  function Slot(i: nat, n: nat): (s: nat)
    requires n > 0
    ensures s < n
  {
    i % n
  }

  /** The page row `i` comes from, when every page shows `n` links. */
  function PageOf(i: nat, n: nat): nat
    requires n > 0
  {
    i / n
  }

  /** Row i holds link `i mod n` of the page and the address of page `i div n`. */
  ghost predicate RowsShaped(rows: seq<Row>, links: seq<string>, base: string, keywords: seq<string>)
    requires links != []
  {
    forall i :: 0 <= i < |rows| ==>
      rows[i] == LinkRow(links[Slot(i, |links|)], PageUrl(base, PageOf(i, |links|)), keywords, rows[i].timestamp)
  }

  /** The stamps are later than `t0`, at most `now` and increasing. */
  ghost predicate RowsStamped(rows: seq<Row>, t0: int, now: int) {
    && (forall i :: 0 <= i < |rows| ==> t0 < rows[i].timestamp <= now)
    && (forall i :: 0 < i < |rows| ==> rows[i - 1].timestamp < rows[i].timestamp)
  }

  /** The rows of the pages read so far, in shape and in stamp order. */
  ghost predicate RowsOfPages(rows: seq<Row>, links: seq<string>, base: string, keywords: seq<string>,
                              t0: int, now: int)
    requires links != []
  {
    RowsShaped(rows, links, base, keywords) && RowsStamped(rows, t0, now)
  }

  /** A row for the next position keeps the rows in shape. */
  lemma RowsShapedAppend(rows: seq<Row>, links: seq<string>, base: string, keywords: seq<string>, row: Row)
    requires links != [] && RowsShaped(rows, links, base, keywords)
    requires row == LinkRow(links[Slot(|rows|, |links|)], PageUrl(base, PageOf(|rows|, |links|)), keywords, row.timestamp)
    ensures RowsShaped(rows + [row], links, base, keywords)
  {
    var more := rows + [row];
    forall i | 0 <= i < |more|
      ensures more[i] == LinkRow(links[Slot(i, |links|)], PageUrl(base, PageOf(i, |links|)), keywords, more[i].timestamp)
    {
      if i < |rows| {
        assert more[i] == rows[i];
      } else {
        assert more[i] == row;
      }
    }
  }

  /** A row stamped later than every row so far keeps the stamps in order. */
  lemma RowsStampedAppend(rows: seq<Row>, t0: int, now: int, row: Row)
    requires RowsStamped(rows, t0, now) && t0 <= now < row.timestamp
    ensures RowsStamped(rows + [row], t0, row.timestamp)
  {
    var more := rows + [row];
    forall i | 0 <= i < |rows| ensures more[i] == rows[i] {
    }
  }

  /** A row for the next position, stamped later than every row so far, keeps the rows in shape. */
  lemma RowsOfPagesAppend(rows: seq<Row>, links: seq<string>, base: string, keywords: seq<string>,
                          t0: int, now: int, row: Row)
    requires links != [] && RowsOfPages(rows, links, base, keywords, t0, now)
    requires row == LinkRow(links[Slot(|rows|, |links|)], PageUrl(base, PageOf(|rows|, |links|)), keywords, row.timestamp)
    requires t0 <= now < row.timestamp
    ensures RowsOfPages(rows + [row], links, base, keywords, t0, row.timestamp)
  {
    RowsShapedAppend(rows, links, base, keywords, row);
    RowsStampedAppend(rows, t0, now, row);
  }

  /** Adding link j of page p, stamped later than every row so far, keeps the rows in shape. */
  lemma RowsOfPagesSnoc(rows: seq<Row>, links: seq<string>, base: string, keywords: seq<string>,
                        t0: int, now: int, p: nat, j: nat, time: int)
    requires links != [] && j < |links| && |rows| == PageStart(p, |links|) + j
    requires RowsOfPages(rows, links, base, keywords, t0, now)
    requires t0 <= now < time
    ensures RowsOfPages(rows + [LinkRow(links[j], PageUrl(base, p), keywords, time)], links, base, keywords, t0, time)
  {
    PageStartIsProduct(p, |links|);
    PageIndex(p, |links|, j);
    RowsOfPagesAppend(rows, links, base, keywords, t0, now, LinkRow(links[j], PageUrl(base, p), keywords, time));
  }

  /** The configuration `connect_to_gbq` stores on the class. */
  datatype GbqConfig = GbqConfig(project: string, dataset: string, table: string, statusTableId: string)

  /**
    `connect_to_gbq(credentials, project_id, url_table_id)`: the dataset
    and table are the first two dotted parts of `url_table_id` (IndexError
    when it has no dot), and the status table's id is the project, a dot
    and `url_table_id` unchanged.
   */
  function ConnectToGbq(project: string, urlTableId: string): (r: Result<GbqConfig, IdError>)
    ensures r.Err? <==> '.' !in urlTableId
    ensures r.Ok? <==> |Split(urlTableId, ".")| >= 2
    ensures r.Ok? ==> r.value.statusTableId == project + "." + urlTableId && r.value.project == project
    ensures r.Ok? ==> r.value.dataset == Split(urlTableId, ".")[0] && r.value.table == Split(urlTableId, ".")[1]
  {
    var parts := Split(urlTableId, ".");
    if |parts| < 2 then
      SplitSingle(urlTableId);
      Err(IndexError)
    else
      SplitHasDot(urlTableId);
      Ok(GbqConfig(project, parts[0], parts[1], project + "." + urlTableId))
  }

  /** A string without a dot splits into itself alone. */
  lemma SplitSingle(s: string)
    requires |Split(s, ".")| < 2
    ensures '.' !in s
  {
    if '.' in s {
      ContainsChar(s, '.');
    }
  }

  /** A string that splits into two or more parts has a dot. */
  lemma SplitHasDot(s: string)
    requires |Split(s, ".")| >= 2
    ensures '.' in s
  {
    ContainsChar(s, '.');
  }

  /** A dot after a dotless prefix splits off that prefix as the first part. */
  lemma SplitAfterDot(a: string, b: string)
    requires '.' !in a
    ensures Split(a + "." + b, ".") == [a] + Split(b, ".")
  {
    var s := a + "." + b;
    IndexOfCharAfter(a, '.', b);
    assert s[..|a|] == a && s[|a| + 1..] == b;
  }

  /**
    The ledger table `collect` opens after `connect_to_gbq`: the project
    followed by every dotted part of `url_table_id`, the first two
    overwritten by themselves. It has the three parts the warehouse client
    accepts exactly when `url_table_id` has exactly one dot.
   */
  lemma ConnectedTableParts(project: string, urlTableId: string)
    requires '.' !in project
    requires ConnectToGbq(project, urlTableId).Ok?
    ensures var cfg := ConnectToGbq(project, urlTableId).value;
      ResolveTableParts(cfg.statusTableId, Some(cfg.project), Some(cfg.dataset), Some(cfg.table))
        == Ok([project] + Split(urlTableId, "."))
  {
    var id := project + "." + urlTableId;
    SplitAfterDot(project, urlTableId);
    ResolveOwnParts(id, [project] + Split(urlTableId, "."));
  }

  /** Resolving an id with its own first three parts changes none of them. */
  lemma ResolveOwnParts(id: string, parts: seq<string>)
    requires Split(id, ".") == parts && |parts| >= 3
    ensures ResolveTableParts(id, Some(parts[0]), Some(parts[1]), Some(parts[2])) == Ok(parts)
  {
    assert parts[0 := parts[0]] == parts;
    assert parts[1 := parts[1]] == parts;
    assert parts[2 := parts[2]] == parts;
  }

  /**
    One pass of `collect`'s inner loop over the links of page `pageNum`:
    each link is appended as a row stamped by the clock, until the page
    ends or the count reaches the limit.
   */
  method CollectPage(links: seq<string>, base: string, keywords: seq<string>, pageNum: nat, url: string,
                     limit: int, table: BQTable<Row>, clock: Clock, accept: nat -> bool,
                     ghost t0: int, ghost rows0: seq<Row>, prior: seq<Row>)
    returns (rows: seq<Row>)
    requires links != [] && |prior| == PageStart(pageNum, |links|) < limit
    requires url == PageUrl(base, pageNum)
    requires RowsOfPages(prior, links, base, keywords, t0, clock.now) && t0 <= clock.now
    requires table.rows == rows0 + Stored(prior, accept)
    modifies table, clock
    ensures |rows| == limit || |rows| == PageStart(pageNum + 1, |links|) < limit
    ensures RowsOfPages(rows, links, base, keywords, t0, clock.now) && t0 <= clock.now
    ensures table.rows == rows0 + Stored(rows, accept)
  {
    rows := prior;
    var j := 0;
    while j < |links|
      invariant 0 <= j <= |links|
      invariant |rows| == PageStart(pageNum, |links|) + j < limit
      invariant RowsOfPages(rows, links, base, keywords, t0, clock.now) && t0 <= clock.now
      invariant table.rows == rows0 + Stored(rows, accept)
      decreases |links| - j
    {
      ghost var before := clock.now;
      var time := clock.Tick();
      var row := LinkRow(links[j], url, keywords, time);
      var _ := table.InsertRow(row, accept(|rows|));
      RowsOfPagesSnoc(rows, links, base, keywords, t0, before, pageNum, j, time);
      StoredSnoc(rows, row, accept);
      rows := rows + [row];
      if |rows| == limit {
        return;
      }
      j := j + 1;
    }
  }

  /**
    `collect(keywords, limit)` once `connect_to_gbq` has stored `cfg`: the
    ledger table is opened, then every link of the page is appended as a
    "Not Mined" row stamped by the clock, page after page, until `limit`
    rows were inserted or a page shows no link. Each later read of the
    links does not load the next page first, so every page shows the links
    `links` of the first. `accept(i)` says whether the warehouse stores the
    i-th insert; `collect` ignores the errors it reports. With links, the
    loop stops only when the count equals the limit, so a limit below one
    would never stop it.
   */
  method Collect(keywords: seq<string>, limit: int, cfg: GbqConfig, links: seq<string>, wh: Warehouse,
                 table: BQTable<Row>, clock: Clock, accept: nat -> bool)
    returns (r: Result<nat, IdError>, rows: seq<Row>)
    requires links == [] || limit >= 1
    modifies table, wh, clock
    ensures var parts := ResolveTableParts(old(table.tableId), Some(cfg.project), Some(cfg.dataset), Some(cfg.table));
      r.Err? <==> parts.Err? || |parts.value| != 3
                  || (TableRef(parts.value[0], parts.value[1], parts.value[2]) !in old(wh.tables)
                      && (parts.value[0], parts.value[1]) !in old(wh.datasets))
    ensures r.Err? ==> rows == [] && table.rows == old(table.rows) && clock.now == old(clock.now)
    ensures r.Ok? ==> r.value == |rows| && |rows| == (if links == [] then 0 else limit)
    ensures r.Ok? && links != [] ==> RowsOfPages(rows, links, BaseUrl(keywords), keywords, old(clock.now), clock.now)
    ensures table.rows == old(table.rows) + Stored(rows, accept)
  {
    var base := BaseUrl(keywords);
    var pageNum: nat := 0;
    var url := PageUrl(base, pageNum);
    var elems := links;
    var lookup := table.GetOrCreateLookup(wh, Some(cfg.project), Some(cfg.dataset), Some(cfg.table));
    if lookup.Err? {
      return Err(lookup.error), [];
    }
    ghost var rows0 := table.rows;
    ghost var t0 := clock.now;
    rows := [];
    while |elems| != 0
      invariant elems == links
      invariant links == [] ==> rows == []
      invariant links != [] ==> |rows| == PageStart(pageNum, |links|) < limit
      invariant links != [] ==> RowsOfPages(rows, links, base, keywords, t0, clock.now) && t0 <= clock.now
      invariant url == PageUrl(base, pageNum)
      invariant table.rows == rows0 + Stored(rows, accept)
      decreases limit - |rows|
    {
      rows := CollectPage(elems, base, keywords, pageNum, url, limit, table, clock, accept, t0, rows0, rows);
      if |rows| == limit {
        break;
      }
      pageNum := pageNum + 1;
      url := PageUrl(base, pageNum);
      elems := links;
    }
    r := Ok(|rows|);
  }

  /** Every row `collect` inserts is a "Not Mined" HTML-page row of this search, in English. */
  lemma CollectedRowsFields(rows: seq<Row>, links: seq<string>, keywords: seq<string>, t0: int, now: int)
    requires links != [] && RowsOfPages(rows, links, BaseUrl(keywords), keywords, t0, now)
    ensures forall i :: 0 <= i < |rows| ==>
      && rows[i].status == NotMined && rows[i].isPdf == 0 && rows[i].language == Some("en")
      && rows[i].workerId == None && rows[i].articleUrl in links
      && StartsWith(rows[i].catalogUrl, BaseUrl(keywords) + "?skip=")
  {
    forall i | 0 <= i < |rows|
      ensures StartsWith(rows[i].catalogUrl, BaseUrl(keywords) + "?skip=")
    {
      var u := PageUrl(BaseUrl(keywords), PageOf(i, |links|));
      assert u[..|BaseUrl(keywords) + "?skip="|] == BaseUrl(keywords) + "?skip=";
    }
  }

  /**
    The comma join cannot be read back: the keyword lists ["a,b"] and
    ["a", "b"] give the same `meta_info`, and neither is the JSON text of
    its list, which quotes every string.
   */
  lemma MetaInfoUnquoted()
    ensures MetaInfo(["a,b"]) == MetaInfo(["a", "b"])
    ensures MetaInfo(["covid"]) != MetaInfoJson(["covid"])
  {
    assert Join(",", ["a", "b"]) == "a,b";
    assert Join(", ", Quoted(["covid"])) == "\"covid\"";
    assert |MetaInfo(["covid"])| == 25 && |MetaInfoJson(["covid"])| == 27;
  }

  /** Every keyword between double quotes. */
  function Quoted(keywords: seq<string>): (q: seq<string>)
    ensures |q| == |keywords|
    ensures forall i :: 0 <= i < |keywords| ==> q[i] == "\"" + keywords[i] + "\""
  {
    if keywords == [] then [] else ["\"" + keywords[0] + "\""] + Quoted(keywords[1..])
  }

  /**
    The `meta_info` the row evidently means, as `json.dumps` writes the
    object {"search_terms": keywords} for keywords that need no escaping.
   */
  function MetaInfoJson(keywords: seq<string>): string {
    "{\"search_terms\": [" + Join(", ", Quoted(keywords)) + "]}"
  }

  /** No quote and no backslash: a keyword JSON writes between quotes unchanged. */
  predicate Plain(k: string) {
    '"' !in k && '\\' !in k
  }

  /** The quoted join of a non-empty list is the join with `", "` between quotes. */
  lemma {:induction false} QuotedJoin(keywords: seq<string>)
    requires keywords != []
    ensures Join(", ", Quoted(keywords)) == "\"" + Join("\", \"", keywords) + "\""
    decreases |keywords|
  {
    if |keywords| > 1 {
      var rest := keywords[1..];
      assert Quoted(keywords) == ["\"" + keywords[0] + "\""] + Quoted(rest);
      JoinCons(", ", "\"" + keywords[0] + "\"", Quoted(rest));
      QuotedJoin(rest);
      JoinCons("\", \"", keywords[0], rest);
      assert keywords == [keywords[0]] + rest;
    }
  }

  /** The joined quoted keywords give back the keywords. */
  lemma QuotedJoinSplits(keywords: seq<string>)
    requires keywords != [] && forall k :: k in keywords ==> Plain(k)
    ensures Split(Join("\", \"", keywords), "\", \"") == keywords
  {
    var sep := "\", \"";
    forall i | 0 <= i < |keywords| - 1 ensures SepFirst(keywords[i], sep) {
      assert keywords[i] in keywords;
      SepFirstByChar(keywords[i], sep);
    }
    var last := keywords[|keywords| - 1];
    assert last in keywords;
    NoQuoteNoSep(last);
    SplitJoinSep(keywords, sep);
  }

  /** Text without a double quote does not contain the separator `", "`. */
  lemma NoQuoteNoSep(s: string)
    requires '"' !in s
    ensures !Contains(s, "\", \"")
  {
    if Contains(s, "\", \"") {
      ContainsFirstChar(s, "\", \"");
    }
  }

  /**
    The evidently intended `meta_info` determines the keywords: two lists
    of plain keywords with the same text are the same list.
   */
  lemma MetaInfoJsonInjective(a: seq<string>, b: seq<string>)
    requires forall k :: k in a ==> Plain(k)
    requires forall k :: k in b ==> Plain(k)
    requires MetaInfoJson(a) == MetaInfoJson(b)
    ensures a == b
  {
    var pre := "{\"search_terms\": [";
    var ma, mb := Join(", ", Quoted(a)), Join(", ", Quoted(b));
    assert pre + ma + "]}" == pre + mb + "]}";
    assert |ma| == |mb|;
    assert ma == (pre + ma + "]}")[|pre|..|pre| + |ma|];
    assert ma == mb;
    if a != [] && b != [] {
      QuotedJoin(a);
      QuotedJoin(b);
      var ja, jb := Join("\", \"", a), Join("\", \"", b);
      assert ja == ma[1..|ma| - 1] == jb;
      QuotedJoinSplits(a);
      QuotedJoinSplits(b);
    } else if a != [] {
      QuotedJoin(a);
    } else if b != [] {
      QuotedJoin(b);
    }
  }
}
