/**
  rabbitmq_workers/worker/miners/arxiv.py: `GetArticle` turns the
  results the arXiv miner gathered into a row of the articles table. The
  gathering itself, a browser session, is not modelled: the results map
  is the input.
 */
module ArxivMiner {
  import opened Wrappers
  import opened Text
  import opened Values
  import opened Dates

  /** What `GetArticle` can raise: a result key that is missing, or a date that does not convert. */
  datatype MinerError = KeyError(key: string) | DateFailure(error: DateError)

  /** The position of the first key the results lack, if any. */
  function FirstMissing(results: Record, keys: seq<string>): (r: Option<nat>)
    ensures r.None? <==> forall i :: 0 <= i < |keys| ==> keys[i] in results
    ensures r.Some? ==> r.value < |keys| && keys[r.value] !in results
    ensures r.Some? ==> forall j :: 0 <= j < r.value ==> keys[j] in results
  {
    if keys == [] then None
    else if keys[0] !in results then Some(0)
    else
      match FirstMissing(results, keys[1..])
      case None => None
      case Some(i) => Some(i + 1)
  }

  /** The result keys the `data` display reads, in the order it reads them. */
  const DataKeys: seq<string> :=
    ["abstract", "title", "authors", "language", "doi", "url", "source", "body", "date_aquisition"]

  /** The result keys the `meta_info` display reads, in order. */
  const MetaKeys: seq<string> := ["references", "search_keyword", "license", "extra_link"]

  /** The `publication_date` to add: none for a None date, else the date at midnight. */
  function PublicationDate(v: Value): (r: Result<Option<Value>, DateError>)
    ensures v == Null ==> r == Ok(None)
    ensures v != Null ==> (r.Ok? <==> Midnight(v, "/").Ok?)
    ensures v != Null && r.Ok? ==> r.value == Some(Midnight(v, "/").value)
  {
    if v == Null then Ok(None)
    else
      match Midnight(v, "/")
      case Err(e) => Err(e)
      case Ok(d) => Ok(Some(d))
  }

  /** The `data` display: the copied fields, the URL as `link`, and the acquisition date. */
  function Data(results: Record, acquired: Value): (data: Record)
    requires forall i :: 0 <= i < |DataKeys| ==> DataKeys[i] in results
  {
    assert DataKeys[0] in results && DataKeys[1] in results && DataKeys[2] in results;
    assert DataKeys[3] in results && DataKeys[4] in results && DataKeys[5] in results;
    assert DataKeys[6] in results && DataKeys[7] in results;
    map[
      "abstract" := results["abstract"],
      "title" := results["title"],
      "authors" := results["authors"],
      "language" := results["language"],
      "doi" := results["doi"],
      "link" := results["url"],
      "source" := results["source"],
      "body" := results["body"],
      "acquisition_date" := acquired]
  }

  /** The `meta_info` display, before it is encoded as JSON text. */
  function MetaInfo(results: Record): (meta: Record)
    requires forall i :: 0 <= i < |MetaKeys| ==> MetaKeys[i] in results
  {
    assert MetaKeys[0] in results && MetaKeys[1] in results;
    assert MetaKeys[2] in results && MetaKeys[3] in results;
    map[
      "references:" := results["references"],
      "search_keyword" := results["search_keyword"],
      "license" := results["license"],
      "extra_link" := results["extra_link"]]
  }

  /** The returned row: `data`, the publication date when there is one, and the encoded meta_info. */
  function Row(results: Record, acquired: Value, published: Option<Value>): (row: Record)
    requires forall i :: 0 <= i < |DataKeys| ==> DataKeys[i] in results
    requires forall i :: 0 <= i < |MetaKeys| ==> MetaKeys[i] in results
  {
    var data := Data(results, acquired);
    var dated := if published.Some? then data["publication_date" := published.value] else data;
    dated["meta_info" := Json(Dict(MetaInfo(results)))]
  }

  /**
    `GetArticle(url)` after `gather`: the row's fields copied from the
    results (the URL as `link`), the acquisition date at midnight, the
    publication date when there is one, and the four meta fields as JSON
    text. A missing key raises KeyError, in the order the displays read
    the keys; a date that does not convert raises.
   */
  function GetArticle(results: Record): (r: Result<Record, MinerError>)
    ensures r.Err? && r.error.KeyError? ==> r.error.key !in results
    ensures r.Err? && r.error.DateFailure? ==>
      "date_aquisition" in results &&
      (Midnight(results["date_aquisition"], "-").Err? ||
       ("date_publication" in results && PublicationDate(results["date_publication"]).Err?))
  {
    match FirstMissing(results, DataKeys)
    case Some(i) => Err(KeyError(DataKeys[i]))
    case None =>
      assert DataKeys[8] in results;
      match Midnight(results["date_aquisition"], "-")
      case Err(e) => Err(DateFailure(e))
      case Ok(acquired) =>
        if "date_publication" !in results then Err(KeyError("date_publication"))
        else
          match PublicationDate(results["date_publication"])
          case Err(e) => Err(DateFailure(e))
          case Ok(published) =>
            match FirstMissing(results, MetaKeys)
            case Some(i) => Err(KeyError(MetaKeys[i]))
            case None => Ok(Row(results, acquired, published))
  }

  /** Every key the row needs, present in the results. */
  predicate HasAllKeys(results: Record) {
    && (forall i :: 0 <= i < |DataKeys| ==> DataKeys[i] in results)
    && "date_aquisition" in results
    && "date_publication" in results
    && (forall i :: 0 <= i < |MetaKeys| ==> MetaKeys[i] in results)
  }

  /**
    `GetArticle` succeeds exactly when every key is present, the
    acquisition date converts and the publication date is None or
    converts; the row it then returns is built from those dates.
   */
  lemma GetArticleOk(results: Record)
    ensures GetArticle(results).Ok? <==>
      HasAllKeys(results) && Midnight(results["date_aquisition"], "-").Ok? &&
      PublicationDate(results["date_publication"]).Ok?
    ensures GetArticle(results).Ok? ==>
      GetArticle(results).value ==
        Row(results, Midnight(results["date_aquisition"], "-").value,
            PublicationDate(results["date_publication"]).value)
  {
    assert DataKeys[8] == "date_aquisition";
  }

  /** A missing key raises KeyError for the first missing one in reading order. */
  lemma GetArticleFirstMissing(results: Record, i: nat)
    requires i < |DataKeys| && DataKeys[i] !in results
    requires forall j :: 0 <= j < i ==> DataKeys[j] in results
    ensures GetArticle(results) == Err(KeyError(DataKeys[i]))
  {
    var r := FirstMissing(results, DataKeys);
    assert r.Some?;
    if r.value < i {
    } else if r.value > i {
    }
  }

  /**
    The row has exactly the eight copied fields, the acquisition date,
    the publication date when there is one, and meta_info.
   */
  lemma RowKeys(results: Record, acquired: Value, published: Option<Value>)
    requires forall i :: 0 <= i < |DataKeys| ==> DataKeys[i] in results
    requires forall i :: 0 <= i < |MetaKeys| ==> MetaKeys[i] in results
    ensures Row(results, acquired, published).Keys ==
      {"abstract", "title", "authors", "language", "doi", "link", "source", "body", "acquisition_date", "meta_info"}
      + (if published.Some? then {"publication_date"} else {})
  {
  }

  /** The `data` display holds the results under the same names, except that the URL becomes `link`. */
  lemma DataCopies(results: Record, acquired: Value)
    requires forall i :: 0 <= i < |DataKeys| ==> DataKeys[i] in results
    ensures var a := Data(results, acquired);
      && DataKeys[0] in results && DataKeys[1] in results && DataKeys[2] in results
      && DataKeys[3] in results && DataKeys[4] in results && DataKeys[5] in results
      && DataKeys[6] in results && DataKeys[7] in results
      && "abstract" in a && a["abstract"] == results["abstract"]
      && "title" in a && a["title"] == results["title"]
      && "authors" in a && a["authors"] == results["authors"]
      && "language" in a && a["language"] == results["language"]
      && "doi" in a && a["doi"] == results["doi"]
      && "link" in a && a["link"] == results["url"]
      && "source" in a && a["source"] == results["source"]
      && "body" in a && a["body"] == results["body"]
  {
  }

  /** The row keeps every copied field of `data`: neither date nor meta_info overwrites one. */
  lemma RowCopies(results: Record, acquired: Value, published: Option<Value>)
    requires forall i :: 0 <= i < |DataKeys| ==> DataKeys[i] in results
    requires forall i :: 0 <= i < |MetaKeys| ==> MetaKeys[i] in results
    ensures var a := Row(results, acquired, published);
      forall k :: k in Data(results, acquired) && k != "acquisition_date" ==>
        k in a && a[k] == Data(results, acquired)[k]
  {
  }

  /** The row holds the acquisition date given, and the publication date when there is one. */
  lemma RowDates(results: Record, acquired: Value, published: Option<Value>)
    requires forall i :: 0 <= i < |DataKeys| ==> DataKeys[i] in results
    requires forall i :: 0 <= i < |MetaKeys| ==> MetaKeys[i] in results
    ensures var a := Row(results, acquired, published);
      && "acquisition_date" in a && a["acquisition_date"] == acquired
      && (published.Some? ==> "publication_date" in a && a["publication_date"] == published.value)
      && (published.None? ==> "publication_date" !in a)
  {
  }

  /**
    meta_info is the JSON text of a dict with exactly four keys, the first
    spelt "references:" with its colon, holding the results' references,
    search keyword, license and extra link.
   */
  lemma RowMeta(results: Record, acquired: Value, published: Option<Value>)
    requires forall i :: 0 <= i < |DataKeys| ==> DataKeys[i] in results
    requires forall i :: 0 <= i < |MetaKeys| ==> MetaKeys[i] in results
    ensures var a := Row(results, acquired, published);
      && MetaKeys[0] in results && MetaKeys[1] in results && MetaKeys[2] in results && MetaKeys[3] in results
      && "meta_info" in a && a["meta_info"].Json? && a["meta_info"].of.Dict?
      && var m := a["meta_info"].of.entries;
      && m.Keys == {"references:", "search_keyword", "license", "extra_link"}
      && "references" !in m
      && m["references:"] == results["references"] && m["search_keyword"] == results["search_keyword"]
      && m["license"] == results["license"] && m["extra_link"] == results["extra_link"]
  {
  }

  /**
    A day written `Y-M-D` for the acquisition and `Y/M/D` for the
    publication gives the row with those days at midnight.
   */
  lemma GetArticleDays(results: Record, y: string, m: string, d: string, py: string, pm: string, pd: string)
    requires HasAllKeys(results)
    requires y != [] && m != [] && d != [] && AllDigits(y) && AllDigits(m) && AllDigits(d)
    requires ValidDate(DigitsValue(y), DigitsValue(m), DigitsValue(d))
    requires py != [] && pm != [] && pd != [] && AllDigits(py) && AllDigits(pm) && AllDigits(pd)
    requires ValidDate(DigitsValue(py), DigitsValue(pm), DigitsValue(pd))
    requires results["date_aquisition"] == Str(Join("-", [y, m, d]))
    requires results["date_publication"] == Str(Join("/", [py, pm, pd]))
    ensures GetArticle(results) ==
      Ok(Row(results, DateTime(DigitsValue(y), DigitsValue(m), DigitsValue(d), 0),
             Some(DateTime(DigitsValue(py), DigitsValue(pm), DigitsValue(pd), 0))))
  {
    MidnightOfDay(y, m, d, '-');
    MidnightOfDay(py, pm, pd, '/');
    GetArticleOk(results);
  }
}
