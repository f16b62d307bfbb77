/**
  The append-only status ledger shared by every stage of the pipeline
  (pubsub_workers_integrated/tables and updated_urlbuilder/.../tables,
  whose StatusTable.GetNewURLs queries are identical).

  A row records one status change of one article URL. Rows are only ever
  appended. The "undone work" query is latest-wins: per article URL only
  the row with the greatest timestamp counts, and it is returned when its
  status says the URL still has to be mined and it is not a PDF.
 */
module Ledger {
  import opened Wrappers
  import opened Text

  /** One row of the status table; `timestamp` is the DATETIME as an instant. */
  datatype Row = Row(
    articleUrl: string,
    catalogUrl: string,
    isPdf: int,
    language: Option<string>,
    status: string,
    timestamp: int,
    workerId: Option<string>,
    metaInfo: Option<string>)

  /** The status the ledger queries select on. */
  const NotMined: string := "Not Mined"

  /** The LIMIT of GetNewURLs. */
  const PageSize: nat := 100000

  /**
    How a query compares the status column: `status='Not Mined'` in the
    ledger tables, `lower(status) = "not mined"` in the job dispatcher.
   */
  datatype StatusMatch = Exact | IgnoreCase

  predicate StatusSelected(m: StatusMatch, status: string) {
    match m
    case Exact => status == NotMined
    case IgnoreCase => Lower(status) == "not mined"
  }

  /** The WHERE clause applied to a URL's latest row. */
  predicate Undone(m: StatusMatch, r: Row) {
    StatusSelected(m, r.status) && r.isPdf == 0
  }

  /**
    The warehouse's choice among rows of equal timestamp: ROW_NUMBER()
    leaves it unspecified, so every query takes it as a ranking of row
    positions, and the lemmas hold for every such ranking.
   */
  ghost predicate Injective(tie: nat -> int) {
    forall i: nat, j: nat :: i != j ==> tie(i) != tie(j)
  }

  /**
    Row `i` gets `rn = 1` in its article_url partition ordered by timestamp
    descending: no row of that URL is later, and among equally late rows
    it ranks highest.
   */
  predicate IsLatest(rows: seq<Row>, tie: nat -> int, i: nat)
    requires i < |rows|
  {
    forall j :: 0 <= j < |rows| && rows[j].articleUrl == rows[i].articleUrl ==>
      rows[j].timestamp < rows[i].timestamp
      || (rows[j].timestamp == rows[i].timestamp && tie(j) <= tie(i))
  }

  /** Row `i` passes the inner query and the WHERE clause. */
  predicate Pick(rows: seq<Row>, m: StatusMatch, tie: nat -> int, i: nat) {
    i < |rows| && IsLatest(rows, tie, i) && Undone(m, rows[i])
  }

  /** Each URL has at most one latest row. */
  lemma LatestUnique(rows: seq<Row>, tie: nat -> int, i: nat, j: nat)
    requires Injective(tie)
    requires i < |rows| && j < |rows| && rows[i].articleUrl == rows[j].articleUrl
    requires IsLatest(rows, tie, i) && IsLatest(rows, tie, j)
    ensures i == j
  {
    assert rows[j].timestamp <= rows[i].timestamp && rows[i].timestamp <= rows[j].timestamp;
    assert tie(j) <= tie(i) && tie(i) <= tie(j);
  }

  /** The picked rows among the first `n`, in table order. */
  function CandidatesUpTo(rows: seq<Row>, m: StatusMatch, tie: nat -> int, n: nat): (c: seq<Row>)
    requires n <= |rows|
    ensures forall x :: x in c ==> exists i :: 0 <= i < n && rows[i] == x && Pick(rows, m, tie, i)
    ensures forall i :: 0 <= i < n && Pick(rows, m, tie, i) ==> rows[i] in c
  {
    if n == 0 then []
    else
      var prev := CandidatesUpTo(rows, m, tie, n - 1);
      if Pick(rows, m, tie, n - 1) then prev + [rows[n - 1]] else prev
  }

  function Candidates(rows: seq<Row>, m: StatusMatch, tie: nat -> int): seq<Row> {
    CandidatesUpTo(rows, m, tie, |rows|)
  }

  predicate UrlsDistinct(s: seq<Row>) {
    forall a, b :: 0 <= a < b < |s| ==> s[a].articleUrl != s[b].articleUrl
  }

  predicate SortedByTime(s: seq<Row>) {
    forall a, b :: 0 <= a < b < |s| ==> s[a].timestamp <= s[b].timestamp
  }

  function Urls(s: seq<Row>): set<string> {
    set r | r in s :: r.articleUrl
  }

  lemma {:induction false} CandidatesDistinct(rows: seq<Row>, m: StatusMatch, tie: nat -> int, n: nat)
    requires Injective(tie) && n <= |rows|
    ensures UrlsDistinct(CandidatesUpTo(rows, m, tie, n))
  {
    if n > 0 {
      CandidatesDistinct(rows, m, tie, n - 1);
      var prev := CandidatesUpTo(rows, m, tie, n - 1);
      if Pick(rows, m, tie, n - 1) {
        forall a | 0 <= a < |prev| ensures prev[a].articleUrl != rows[n - 1].articleUrl {
          assert prev[a] in prev;
          var i :| 0 <= i < n - 1 && rows[i] == prev[a] && Pick(rows, m, tie, i);
          if prev[a].articleUrl == rows[n - 1].articleUrl {
            LatestUnique(rows, tie, i, n - 1);
          }
        }
      }
    }
  }

  /** ORDER BY timestamp ASC, as a stable insertion. */
  function InsertByTime(r: Row, s: seq<Row>): (res: seq<Row>)
    ensures multiset(res) == multiset(s) + multiset{r}
  {
    if s == [] then [r]
    else if r.timestamp <= s[0].timestamp then [r] + s
    else
      assert s == [s[0]] + s[1..];
      [s[0]] + InsertByTime(r, s[1..])
  }

  function SortByTime(s: seq<Row>): (res: seq<Row>)
    ensures multiset(res) == multiset(s)
  {
    if s == [] then []
    else
      assert s == [s[0]] + s[1..];
      InsertByTime(s[0], SortByTime(s[1..]))
  }

  lemma {:induction false} InsertSorted(r: Row, s: seq<Row>)
    requires SortedByTime(s)
    ensures SortedByTime(InsertByTime(r, s))
  {
    if s != [] && r.timestamp > s[0].timestamp {
      InsertSorted(r, s[1..]);
      var tail := InsertByTime(r, s[1..]);
      forall x | x in tail ensures s[0].timestamp <= x.timestamp {
        assert x in multiset(tail);
        if x != r {
          assert x in multiset(s[1..]);
          var k :| 0 <= k < |s[1..]| && s[1..][k] == x;
          assert s[k + 1] == x;
        }
      }
    }
  }

  lemma {:induction false} InsertDistinct(r: Row, s: seq<Row>)
    requires UrlsDistinct(s) && r.articleUrl !in Urls(s)
    ensures UrlsDistinct(InsertByTime(r, s))
  {
    if s != [] && r.timestamp > s[0].timestamp {
      assert Urls(s[1..]) <= Urls(s) by {
        forall u | u in Urls(s[1..]) ensures u in Urls(s) {
          var x :| x in s[1..] && x.articleUrl == u;
          assert x in s;
        }
      }
      InsertDistinct(r, s[1..]);
      var tail := InsertByTime(r, s[1..]);
      forall x | x in tail ensures x.articleUrl != s[0].articleUrl {
        assert x in multiset(tail);
        if x != r {
          assert x in multiset(s[1..]);
          var k :| 0 <= k < |s[1..]| && s[1..][k] == x;
          assert s[k + 1] == x;
        } else {
          assert s[0] in s;
        }
      }
    }
  }

  lemma {:induction false} SortSpec(s: seq<Row>)
    ensures SortedByTime(SortByTime(s))
    ensures UrlsDistinct(s) ==> UrlsDistinct(SortByTime(s))
  {
    if s != [] {
      SortSpec(s[1..]);
      var sorted := SortByTime(s[1..]);
      InsertSorted(s[0], sorted);
      if UrlsDistinct(s) {
        assert UrlsDistinct(s[1..]);
        forall x | x in sorted ensures x.articleUrl != s[0].articleUrl {
          assert x in multiset(s[1..]);
          var k :| 0 <= k < |s[1..]| && s[1..][k] == x;
          assert s[k + 1] == x;
        }
        InsertDistinct(s[0], sorted);
      }
    }
  }

  /** LIMIT n. */
  function Take<T>(s: seq<T>, n: nat): (r: seq<T>)
    ensures |r| == if n < |s| then n else |s|
    ensures r == s[..|r|]
  {
    if n < |s| then s[..n] else s
  }

  /** The latest-wins undone-work query with the given status comparison and LIMIT. */
  function UndoneQuery(rows: seq<Row>, m: StatusMatch, tie: nat -> int, limit: nat): seq<Row> {
    Take(SortByTime(Candidates(rows, m, tie)), limit)
  }

  /** StatusTable.GetNewURLs. */
  function GetNewUrls(rows: seq<Row>, tie: nat -> int): seq<Row> {
    UndoneQuery(rows, Exact, tie, PageSize)
  }

  /** Every returned row is some URL's latest row, and it satisfies the WHERE clause. */
  lemma QueryMembers(rows: seq<Row>, m: StatusMatch, tie: nat -> int, limit: nat)
    ensures forall r :: r in UndoneQuery(rows, m, tie, limit) ==>
      exists i :: 0 <= i < |rows| && rows[i] == r && Pick(rows, m, tie, i)
  {
    var c := Candidates(rows, m, tie);
    var res := UndoneQuery(rows, m, tie, limit);
    var sorted := SortByTime(c);
    forall r | r in res ensures exists i :: 0 <= i < |rows| && rows[i] == r && Pick(rows, m, tie, i) {
      assert r in sorted;
      assert r in multiset(sorted);
      assert r in c;
    }
  }

  /**
    Soundness of the query: each URL at most once, each row is the latest
    row of its URL, its status and is_pdf match, the rows ascend in time,
    and there are at most `limit` of them.
   */
  lemma QuerySound(rows: seq<Row>, m: StatusMatch, tie: nat -> int, limit: nat)
    requires Injective(tie)
    ensures var res := UndoneQuery(rows, m, tie, limit);
      && |res| <= limit
      && UrlsDistinct(res)
      && SortedByTime(res)
      && (forall r :: r in res ==> r in rows && Undone(m, r))
      && (forall r, j :: r in res && 0 <= j < |rows| && rows[j].articleUrl == r.articleUrl ==>
            rows[j].timestamp <= r.timestamp)
  {
    CandidatesDistinct(rows, m, tie, |rows|);
    SortSpec(Candidates(rows, m, tie));
    QueryMembers(rows, m, tie, limit);
    var res := UndoneQuery(rows, m, tie, limit);
    forall r, j | r in res && 0 <= j < |rows| && rows[j].articleUrl == r.articleUrl
      ensures rows[j].timestamp <= r.timestamp
    {
      var i :| 0 <= i < |rows| && rows[i] == r && Pick(rows, m, tie, i);
    }
  }

  /**
    Completeness of the query: a picked row that is not returned was cut
    by the LIMIT, so the result is full and no returned row is later.
   */
  lemma QueryComplete(rows: seq<Row>, m: StatusMatch, tie: nat -> int, limit: nat, i: nat)
    requires Pick(rows, m, tie, i)
    ensures var res := UndoneQuery(rows, m, tie, limit);
      rows[i] in res || (|res| == limit && forall r :: r in res ==> r.timestamp <= rows[i].timestamp)
  {
    var sorted := SortByTime(Candidates(rows, m, tie));
    SortSpec(Candidates(rows, m, tie));
    var res := UndoneQuery(rows, m, tie, limit);
    assert rows[i] in multiset(sorted);
    var k :| 0 <= k < |sorted| && sorted[k] == rows[i];
    if k < |res| {
      assert res[k] == rows[i];
    } else {
      forall r | r in res ensures r.timestamp <= rows[i].timestamp {
        var a :| 0 <= a < |res| && res[a] == r;
        assert sorted[a] == r;
      }
    }
  }

  /**
    A URL whose latest row does not satisfy the WHERE clause is never
    returned, whatever its older rows say.
   */
  lemma WithdrawnNotReturned(rows: seq<Row>, m: StatusMatch, tie: nat -> int, limit: nat, j: nat)
    requires Injective(tie)
    requires j < |rows| && IsLatest(rows, tie, j) && !Undone(m, rows[j])
    ensures rows[j].articleUrl !in Urls(UndoneQuery(rows, m, tie, limit))
  {
    var res := UndoneQuery(rows, m, tie, limit);
    QueryMembers(rows, m, tie, limit);
    forall r | r in res ensures r.articleUrl != rows[j].articleUrl {
      var i :| 0 <= i < |rows| && rows[i] == r && Pick(rows, m, tie, i);
      if r.articleUrl == rows[j].articleUrl {
        LatestUnique(rows, tie, i, j);
      }
    }
  }

  /**
    Appending rows that are all later than every existing row and all
    fail the WHERE clause takes every one of their URLs out of the query,
    for any ranking of ties and any LIMIT.
   */
  lemma AppendWithdraws(rows: seq<Row>, ws: seq<Row>, m: StatusMatch, tie: nat -> int, limit: nat)
    requires forall i, k :: 0 <= i < |rows| && 0 <= k < |ws| ==> rows[i].timestamp < ws[k].timestamp
    requires forall k :: 0 <= k < |ws| ==> !Undone(m, ws[k])
    ensures Urls(ws) !! Urls(UndoneQuery(rows + ws, m, tie, limit))
  {
    var all := rows + ws;
    var res := UndoneQuery(all, m, tie, limit);
    QueryMembers(all, m, tie, limit);
    forall k, r | 0 <= k < |ws| && r in res ensures r.articleUrl != ws[k].articleUrl {
      var i :| 0 <= i < |all| && all[i] == r && Pick(all, m, tie, i);
      assert all[|rows| + k] == ws[k];
      if i >= |rows| {
        assert all[i] == ws[i - |rows|];
      } else {
        assert all[i] == rows[i];
      }
    }
  }

  /**
    Appending rows for other URLs does not change whether an existing row
    of URL `u` is the latest one, so it does not change what the query
    may return for `u`.
   */
  lemma AppendKeepsOthers(rows: seq<Row>, ws: seq<Row>, tie: nat -> int, i: nat)
    requires i < |rows| && rows[i].articleUrl !in Urls(ws)
    ensures IsLatest(rows + ws, tie, i) <==> IsLatest(rows, tie, i)
  {
    var all := rows + ws;
    forall j | |rows| <= j < |all| ensures all[j].articleUrl != rows[i].articleUrl {
      assert all[j] == ws[j - |rows|];
      assert all[j] in ws;
    }
    assert forall j :: 0 <= j < |rows| ==> all[j] == rows[j];
  }

  /**
    The status spellings used across the pipeline: only "Not Mined"
    passes the ledger tables' exact comparison, while the dispatcher's
    lower-cased comparison accepts "Not mined" and "not mined" as well.
   */
  lemma StatusSpellings()
    ensures StatusSelected(Exact, "Not Mined") && StatusSelected(IgnoreCase, "Not Mined")
    ensures !StatusSelected(Exact, "Not mined") && StatusSelected(IgnoreCase, "Not mined")
    ensures !StatusSelected(Exact, "not mined") && StatusSelected(IgnoreCase, "not mined")
  {
    assert Lower("Not Mined") == "not mined";
    assert Lower("Not mined") == "not mined";
    assert Lower("not mined") == "not mined";
  }

  /** The statuses the pipeline writes once a URL has been taken up. */
  const TakenStatuses: seq<string> :=
    ["Sent to queue", "working on", "done", "Started Mining", "Failed", "No results", "Finished Mining"]

  /** None of the taken-up statuses passes either comparison. */
  lemma TakenStatusesWithdraw(m: StatusMatch)
    ensures forall s :: s in TakenStatuses ==> !StatusSelected(m, s)
  {
    forall s | s in TakenStatuses ensures !StatusSelected(m, s) {
      assert |Lower(s)| == |s| != |"not mined"|;
    }
  }

  /** The oracle standing for the warehouse's current time. */
  class Clock {
    var now: int

    constructor(start: int)
      ensures now == start
    {
      now := start;
    }

    /** datetime.utcnow(): a reading later than every earlier one. */
    method Tick() returns (t: int)
      modifies this
      ensures t == now && now > old(now)
    {
      now := now + 1;
      t := now;
    }
  }
}
