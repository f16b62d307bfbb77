/**
  pubsub_workers_integrated/worker/site_worker_integrated.py: the factory
  that maps an article's registrable domain to a site worker, and
  `scrape_data`, which projects a miner's result map onto the data-table
  columns and gathers every other result into `meta_info`.
 */
module IntegratedSiteWorker {
  import opened Wrappers
  import opened Text
  import opened Values
  import opened Dates

  /** The site workers the factory knows. */
  datatype SiteKind = IbmcRu | Arxiv | Biorxiv | Medrxiv | Scielo | Preprints

  /** What `send_request` can raise. */
  datatype ScrapeError =
    | MinerNotFound(message: string)
    /** The acquisition date could not be built. */
    | BadDate(error: DateError)

  /** The factory's dictionary from domain to site worker. */
  const Workers: map<string, SiteKind> := map[
    "ibmc.msk.ru" := IbmcRu,
    "arxiv.org" := Arxiv,
    "biorxiv.org" := Biorxiv,
    "medrxiv.org" := Medrxiv,
    "scielo.br" := Scielo,
    "sld.cu" := Scielo,
    "preprints.org" := Preprints]

  const Domains: set<string> :=
    {"ibmc.msk.ru", "arxiv.org", "biorxiv.org", "medrxiv.org", "scielo.br", "sld.cu", "preprints.org"}

  function NotFoundMessage(domain: string): string {
    "The miner you requested (" + domain + ") does not exist"
  }

  /** site_worker_factory: the site worker for a domain, or MinerNotFoundError naming it. */
  function Factory(domain: string): (r: Result<SiteKind, ScrapeError>)
    ensures r.Ok? <==> domain in Domains
    ensures r.Ok? ==> r.value == Workers[domain]
    ensures r.Err? ==> r.error == MinerNotFound(NotFoundMessage(domain))
  {
    if domain in Workers then Ok(Workers[domain]) else Err(MinerNotFound(NotFoundMessage(domain)))
  }

  /** The factory's dictionary is defined on exactly the known domains. */
  lemma FactoryDomains()
    ensures Workers.Keys == Domains
  {
  }

  /**
    The two Scielo domains share the Scielo worker and every other
    worker serves one domain; the error for an unknown domain names it.
   */
  lemma FactoryRouting(domain: string)
    ensures Factory(domain) == Ok(Scielo) <==> domain == "scielo.br" || domain == "sld.cu"
    ensures forall d, e :: d in Workers && e in Workers && d != e && Workers[d] == Workers[e] ==>
      Workers[d] == Scielo
    ensures Factory(domain).Err? ==> OccursAt(Factory(domain).error.message, domain, 25)
  {
    var m := NotFoundMessage(domain);
    assert m[25..25 + |domain|] == domain;
  }

  /** The data-table columns `scrape_data` fills from `data_map`. */
  datatype Column = Abstract | Title | Authors | Language | Doi | Link | Source | Body
                  | PublicationDate | AcquisitionDate

  /** The keys of `data_map`, in their order. */
  const DataMap: seq<Column> :=
    [Abstract, Title, Authors, Language, Doi, Link, Source, Body, PublicationDate, AcquisitionDate]

  /** A `data_map` key: the column's name in the data table. */
  function ColumnName(c: Column): string {
    match c
    case Abstract => "abstract"
    case Title => "title"
    case Authors => "authors"
    case Language => "language"
    case Doi => "doi"
    case Link => "link"
    case Source => "source"
    case Body => "body"
    case PublicationDate => "publication_date"
    case AcquisitionDate => "acquisition_date"
  }

  /** A `data_map` value: the miner's result key the column is read from. */
  function ResultKey(c: Column): string {
    match c
    case Abstract => "abstract"
    case Title => "title"
    case Authors => "authors"
    case Language => "language"
    case Doi => "doi"
    case Link => "url"
    case Source => "source"
    case Body => "body"
    case PublicationDate => "date_publication"
    case AcquisitionDate => "date_aquisition"
  }

  /** `data_map.values()`. */
  const MappedNames: set<string> :=
    {"abstract", "title", "authors", "language", "doi", "url", "source", "body", "date_publication",
     "date_aquisition"}

  /** `data_map` lists every column once, and its values are exactly the result keys of the columns. */
  lemma DataMapTable()
    ensures forall c: Column :: c in DataMap
    ensures forall i, j :: 0 <= i < j < |DataMap| ==> DataMap[i] != DataMap[j]
    ensures forall c: Column :: ResultKey(c) in MappedNames
    ensures forall k :: k in MappedNames ==> exists c: Column :: ResultKey(c) == k
  {
    forall c: Column ensures c in DataMap {
      match c
      case Abstract => assert DataMap[0] == c;
      case Title => assert DataMap[1] == c;
      case Authors => assert DataMap[2] == c;
      case Language => assert DataMap[3] == c;
      case Doi => assert DataMap[4] == c;
      case Link => assert DataMap[5] == c;
      case Source => assert DataMap[6] == c;
      case Body => assert DataMap[7] == c;
      case PublicationDate => assert DataMap[8] == c;
      case AcquisitionDate => assert DataMap[9] == c;
    }
    forall k | k in MappedNames ensures exists c: Column :: ResultKey(c) == k {
      if k == "abstract" { assert ResultKey(Abstract) == k; }
      else if k == "title" { assert ResultKey(Title) == k; }
      else if k == "authors" { assert ResultKey(Authors) == k; }
      else if k == "language" { assert ResultKey(Language) == k; }
      else if k == "doi" { assert ResultKey(Doi) == k; }
      else if k == "url" { assert ResultKey(Link) == k; }
      else if k == "source" { assert ResultKey(Source) == k; }
      else if k == "body" { assert ResultKey(Body) == k; }
      else if k == "date_publication" { assert ResultKey(PublicationDate) == k; }
      else { assert ResultKey(AcquisitionDate) == k; }
    }
  }

  /**
    `datetime.combine(date(*[int(x) for x in v.split("-")]), midnight),`:
    the date at midnight, and, because of the trailing comma, wrapped in a
    one-element tuple.
   */
  function AcquisitionDateOf(v: Value): (r: Result<Value, ScrapeError>)
    ensures r.Ok? ==> v.Str? && r.value.Tuple? && |r.value.elems| == 1
    ensures r.Ok? ==> var t := r.value.elems[0];
      t.DateTime? && t.seconds == 0 && ValidDate(t.year, t.month, t.day)
    ensures !v.Str? ==> r == Err(BadDate(AttributeError))
  {
    match Midnight(v, "-")
    case Ok(t) => Ok(Tuple([t]))
    case Err(e) => Err(BadDate(e))
  }

  /**
    An ISO day `Y-M-D` (with or without leading zeros) that names a real
    day is stored as that day at midnight.
   */
  lemma AcquisitionDateOfDay(y: string, m: string, d: string)
    requires y != [] && m != [] && d != [] && AllDigits(y) && AllDigits(m) && AllDigits(d)
    requires ValidDate(DigitsValue(y), DigitsValue(m), DigitsValue(d))
    ensures AcquisitionDateOf(Str(Join("-", [y, m, d])))
         == Ok(Tuple([DateTime(DigitsValue(y), DigitsValue(m), DigitsValue(d), 0)]))
  {
    MidnightOfDay(y, m, d, '-');
  }

  /** The meta_info entries: every result whose key is not read by `data_map`. */
  function MetaInfo(results: Record): (meta: Record)
    ensures meta.Keys !! MappedNames
    ensures forall k :: k in results ==> (k in meta <==> k !in MappedNames)
    ensures forall k :: k in meta ==> k in results && meta[k] == results[k]
  {
    map k | k in results && k !in MappedNames :: results[k]
  }

  /**
    The dict `scrape_data` returns: the ten `data_map` columns (a column
    the code always sets may still be missing from a dict given to the
    workers as an oracle), and `meta_info`.
   */
  datatype Scraped = Scraped(fields: map<Column, Value>, metaInfo: Value)

  /**
    What `scrape_data` returns for a result map: every `data_map` column;
    each column but the acquisition date holds `results.get` of its mapped
    name; the acquisition date is converted; and meta_info is the JSON text
    of the unmapped results.
   */
  predicate IsProjection(results: Record, data: Scraped) {
    && (forall c: Column :: c in data.fields)
    && (forall c: Column :: c != AcquisitionDate ==> data.fields[c] == Get(results, ResultKey(c)))
    && AcquisitionDateOf(Get(results, ResultKey(AcquisitionDate))).Ok?
    && data.fields[AcquisitionDate] == AcquisitionDateOf(Get(results, ResultKey(AcquisitionDate))).value
    && data.metaInfo == Json(Dict(MetaInfo(results)))
  }

  /**
    Every result lands in exactly one place: under the columns that map
    it when its key is a `data_map` value, in meta_info otherwise.
   */
  lemma ResultsPartition(results: Record, data: Scraped, k: string)
    requires IsProjection(results, data) && k in results
    ensures (exists c: Column :: ResultKey(c) == k) <==> k !in data.metaInfo.of.entries
    ensures k in data.metaInfo.of.entries ==> data.metaInfo.of.entries[k] == results[k]
    ensures forall c: Column :: ResultKey(c) == k && c != AcquisitionDate ==> data.fields[c] == results[k]
  {
    DataMapTable();
  }

  /** The first loop of scrape_data: `data[key] = results.get(val)` for each `data_map` entry. */
  method SelectColumns(results: Record) returns (data: map<Column, Value>)
    ensures forall c: Column :: c in data && data[c] == Get(results, ResultKey(c))
  {
    data := map[];
    for i := 0 to |DataMap|
      invariant forall c :: c in data <==> c in DataMap[..i]
      invariant forall c :: c in data ==> data[c] == Get(results, ResultKey(c))
    {
      data := data[DataMap[i] := Get(results, ResultKey(DataMap[i]))];
    }
    DataMapTable();
    assert DataMap[..|DataMap|] == DataMap;
  }

  /** The second loop of scrape_data: every result whose key is not a `data_map` value. */
  method CollectMetaInfo(results: Record) returns (meta: Record)
    ensures meta == MetaInfo(results)
  {
    meta := map[];
    var pending := results.Keys;
    while pending != {}
      invariant pending <= results.Keys
      invariant forall k :: k in meta <==> k in results && k !in pending && k !in MappedNames
      invariant forall k :: k in meta ==> meta[k] == results[k]
      decreases |pending|
    {
      var k :| k in pending;
      if k !in MappedNames {
        meta := meta[k := results[k]];
      }
      pending := pending - {k};
    }
  }

  /**
    scrape_data after `miner.gather(url)` has left `results`: select the
    mapped columns, convert the acquisition date, then collect meta_info.
   */
  method ScrapeData(results: Record) returns (r: Result<Scraped, ScrapeError>)
    ensures r.Err? <==> AcquisitionDateOf(Get(results, ResultKey(AcquisitionDate))).Err?
    ensures r.Err? ==> r.error == AcquisitionDateOf(Get(results, ResultKey(AcquisitionDate))).error
    ensures r.Ok? ==> IsProjection(results, r.value)
  {
    var data := SelectColumns(results);
    var date := AcquisitionDateOf(data[AcquisitionDate]);
    if date.Err? {
      return Err(date.error);
    }
    ghost var selected := data;
    data := data[AcquisitionDate := date.value];
    assert forall c: Column :: c in data;
    assert forall c: Column :: c != AcquisitionDate ==> data[c] == selected[c];
    var meta := CollectMetaInfo(results);
    r := Ok(Scraped(data, Json(Dict(meta))));
  }

  /**
    send_request: route the article's registrable domain (`get_fld(url)`,
    given here) to its site worker and scrape. Every site worker ends in
    `scrape_data`; the Scielo worker's format detection only chooses the
    miner, whose result map `results` stands for.
   */
  method SendRequest(domain: string, results: Record) returns (r: Result<Scraped, ScrapeError>)
    ensures r.Err? && r.error.MinerNotFound? <==> domain !in Domains
    ensures domain !in Domains ==> r == Err(MinerNotFound(NotFoundMessage(domain)))
    ensures domain in Domains ==>
      (r.Err? <==> AcquisitionDateOf(Get(results, ResultKey(AcquisitionDate))).Err?)
      && (r.Ok? ==> IsProjection(results, r.value))
  {
    var worker := Factory(domain);
    if worker.Err? {
      return Err(worker.error);
    }
    r := ScrapeData(results);
  }
}
