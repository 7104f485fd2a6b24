/** `contactSchedule` of src/schedules/contact.schedule.ts: each CSV line names a website; the
    site is scraped and the result is upserted into the contacts collection by URL. The collection
    is a map from URL to stored document, with the auto-increment counter beside it. */
module Ingest {
  import opened Wrappers
  import opened Text
  import opened Records
  import opened Extraction

  /** The collection and the next value of the auto-increment `id` (which starts at 1). */
  datatype Db = Db(records: map<string, ContactRecord>, nextId: nat)

  const FirstId: nat := 1
  const EmptyDb := Db(map[], FirstId)

  /** Every document is filed under its own URL and has its own `id`, below the counter. */
  ghost predicate Valid(db: Db) {
    && FirstId <= db.nextId
    && (forall u :: u in db.records ==> db.records[u].url == u)
    && (forall u :: u in db.records ==> FirstId <= db.records[u].id < db.nextId)
    && (forall u, v :: u in db.records && v in db.records && u != v ==> db.records[u].id != db.records[v].id)
  }

  /** What the schedule borrows from outside:
      - `validUrl(s)`: `makeValidUrl(s)`, or `None` when even the `https://` retry throws;
      - `online(u)`: `isWebsiteOnline(u)`, or `None` when it rejects: `https.request` throws
        inside the promise's executor on a URL it cannot take, such as an `http:` one;
      - `site(u)`: what the browser meets when it loads `u` (see module Extraction). */
  datatype Io = Io(validUrl: string -> Option<string>, online: string -> Option<bool>, site: string -> Site)

  /** The names a CSV line gives: fields 1 and 2, and field 3 split on `|`. */
  datatype Names = Names(commercial: string, legal: string, all: seq<string>)

  // ----- the upsert -----

  /** The stored document after `Object.assign(doc, data)`: every key the scrape result has is
      written. A result without `coords` (the scrape failed before reaching the page) keeps the
      stored coordinates, and one without `error` keeps the stored error. */
  function Assign(doc: ContactRecord, data: ContactData, names: Names, keepNames: bool): (r: ContactRecord)
    ensures r.id == doc.id && r.url == data.url
    ensures r.phones == data.phones && r.socials == data.socials && r.address == data.address
    ensures r.success == data.success
    ensures r.commercialName == names.commercial && r.legalName == names.legal
    ensures data.coords.Missing? ==> r.coords == doc.coords
    ensures data.coords.Null? ==> r.coords.None?
    ensures data.coords.Val? ==> r.coords == Some(data.coords.value)
    ensures data.error.None? ==> r.error == doc.error
    ensures data.error.Some? ==> r.error == data.error.value
  {
    doc.(url := data.url, phones := data.phones, socials := data.socials, address := data.address,
         success := data.success,
         coords := match data.coords
           case Missing => doc.coords
           case Null => None
           case Val(c) => Some(c),
         error := if data.error.Some? then data.error.value else doc.error,
         commercialName := names.commercial, legalName := names.legal,
         allNames := if keepNames then doc.allNames else names.all)
  }

  /** `contactDataModel.create(data)`: schema defaults fill what the scrape result lacks
      (`coords: {}`, `error: ""`, `company_all_Available_names: []`). */
  function Create(id: nat, data: ContactData, names: Names, keepNames: bool): (r: ContactRecord)
    ensures r.id == id && r.url == data.url
    ensures r.phones == data.phones && r.socials == data.socials && r.address == data.address
    ensures r.commercialName == names.commercial && r.legalName == names.legal
    ensures r.success == data.success
    ensures data.error.None? ==> r.error == ""
    ensures data.error.Some? ==> r.error == data.error.value
    ensures data.coords.Val? <==> r.coords.Some?
    ensures data.coords.Val? ==> r.coords == Some(data.coords.value)
  {
    Assign(ContactRecord(id, data.url, "", "", [], [], map[], None, None, false, ""), data, names, keepNames)
  }

  /** The upsert by URL, with the alternate names stored: an existing document is updated in place
      and keeps its `id`; otherwise one new document is created with the next `id`. */
  function Upsert(db: Db, data: ContactData, names: Names): (r: Db)
    ensures data.url in r.records
    ensures r.records[data.url].allNames == names.all
    ensures data.url in db.records ==> (r.nextId == db.nextId && r.records.Keys == db.records.Keys
      && r.records[data.url] == Assign(db.records[data.url], data, names, false))
    ensures data.url !in db.records ==> (r.nextId == db.nextId + 1
      && r.records.Keys == db.records.Keys + {data.url}
      && r.records[data.url] == Create(db.nextId, data, names, false))
    ensures forall u :: u in db.records && u != data.url ==> u in r.records && r.records[u] == db.records[u]
  {
    if data.url in db.records then
      Db(db.records[data.url := Assign(db.records[data.url], data, names, false)], db.nextId)
    else
      Db(db.records[data.url := Create(db.nextId, data, names, false)], db.nextId + 1)
  }

  /** The upsert as the schedule writes it: the names list is assigned to
      `company_all_available_names`, a key the schema (which declares `company_all_Available_names`)
      does not have, so it is never stored. */
  function UpsertAsWritten(db: Db, data: ContactData, names: Names): (r: Db)
    ensures data.url in r.records
    ensures data.url in db.records ==> r.records[data.url].allNames == db.records[data.url].allNames
    ensures data.url !in db.records ==> r.records[data.url].allNames == []
  {
    if data.url in db.records then
      Db(db.records[data.url := Assign(db.records[data.url], data, names, true)], db.nextId)
    else
      Db(db.records[data.url := Create(db.nextId, data, names, true)], db.nextId + 1)
  }

  /** The alternate names of a line are lost as written: a new site listed with two names is
      stored with none. */
  lemma AlternateNamesLostAsWritten(data: ContactData)
    ensures var names := Names("Acme", "Acme Ltd", ["Acme", "ACME Inc"]);
      UpsertAsWritten(EmptyDb, data, names).records[data.url].allNames != names.all
  {
  }

  /** The two versions differ in nothing but the stored names. */
  lemma UpsertDiffersOnlyInNames(db: Db, data: ContactData, names: Names)
    ensures var a := Upsert(db, data, names);
      var w := UpsertAsWritten(db, data, names);
      a.nextId == w.nextId && a.records.Keys == w.records.Keys
      && (forall u :: u in a.records && u != data.url ==> a.records[u] == w.records[u])
      && a.records[data.url].(allNames := []) == w.records[data.url].(allNames := [])
  {
  }

  /** The upsert keeps every document under its own URL with its own `id`: within one run, whose
      lines are processed one after another, a URL never gets a second document. */
  lemma UpsertPreservesValid(db: Db, data: ContactData, names: Names)
    requires Valid(db)
    ensures Valid(Upsert(db, data, names))
  {
    var r := Upsert(db, data, names);
    forall u, v | u in r.records && v in r.records && u != v
      ensures r.records[u].id != r.records[v].id
    {
      if data.url !in db.records && (u == data.url || v == data.url) {
        assert r.records[data.url].id == db.nextId;
      }
    }
  }

  /** Two distinct documents of a valid collection never share a URL. */
  lemma NoDuplicateUrl(db: Db, u: string, v: string)
    requires Valid(db) && u in db.records && v in db.records
    requires db.records[u].url == db.records[v].url
    ensures u == v
  {
  }

  // ----- one line, and the whole file -----

  /** `line.split(",")[0].split(".").length > 1`: the first field has a dot. */
  function LooksLikeDomain(line: string): (r: bool)
    ensures r <==> '.' in Split(line, ',')[0]
  {
    |Split(Split(line, ',')[0], '.')| > 1
  }

  /** One line: `None` when it throws, which ends the whole run. A line without a dot in its first
      field, or whose site is offline, changes nothing. The URL check throws when even the
      `https://` retry fails, and the online check when `https.request` rejects the URL. A line
      with fewer than four fields throws after the scrape, on `lineComponents[3].split`; any other
      line of an online site upserts the scrape of that site with the line's names. */
  function ProcessLine(line: string, db: Db, io: Io): (r: Option<Db>)
    ensures !LooksLikeDomain(line) ==> r == Some(db)
    ensures var u := io.validUrl(Split(line, ',')[0]);
      LooksLikeDomain(line) && u.None? ==> r.None?
    ensures var u := io.validUrl(Split(line, ',')[0]);
      LooksLikeDomain(line) && u.Some? && io.online(u.value).None? ==> r.None?
    ensures var u := io.validUrl(Split(line, ',')[0]);
      LooksLikeDomain(line) && u.Some? && io.online(u.value) == Some(false) ==> r == Some(db)
    ensures var fields := Split(line, ','); var u := io.validUrl(fields[0]);
      LooksLikeDomain(line) && u.Some? && io.online(u.value) == Some(true) ==>
        && (|fields| < 4 ==> r.None?)
        && (|fields| >= 4 ==> r == Some(Upsert(db, Scrape(u.value, io.site(u.value)),
                                               Names(fields[1], fields[2], Split(fields[3], '|')))))
  {
    var fields := Split(line, ',');
    if !LooksLikeDomain(line) then Some(db)
    else
      match io.validUrl(fields[0])
      case None => None
      case Some(url) =>
        match io.online(url)
        case None => None
        case Some(false) => Some(db)
        case Some(true) =>
          var data := Scrape(url, io.site(url));
          if |fields| < 4 then None
          else Some(Upsert(db, data, Names(fields[1], fields[2], Split(fields[3], '|'))))
  }

  /** A processed line touches only the document of its own URL. */
  lemma ProcessLineTouchesOneUrl(line: string, db: Db, io: Io)
    requires ProcessLine(line, db, io).Some?
    ensures var r := ProcessLine(line, db, io).value;
      r == db || exists url :: (r.records.Keys <= db.records.Keys + {url}
        && forall u :: u in db.records && u != url ==> u in r.records && r.records[u] == db.records[u])
  {
    var r := ProcessLine(line, db, io).value;
    if r != db {
      var fields := Split(line, ',');
      var url := io.validUrl(fields[0]).value;
      var data := Scrape(url, io.site(url));
      assert r == Upsert(db, data, Names(fields[1], fields[2], Split(fields[3], '|')));
      assert data.url == url;
      assert r.records.Keys <= db.records.Keys + {url};
      assert forall u :: u in db.records && u != url ==> u in r.records && r.records[u] == db.records[u];
    }
  }

  /** The outcome of a run: the collection, and whether every line was handled. */
  datatype Outcome = Outcome(db: Db, completed: bool)

  /** The loop over the lines inside one `try`: the first line that throws ends the run, and what
      earlier lines wrote stays written. */
  function Run(lines: seq<string>, db: Db, io: Io): (r: Outcome)
    ensures |lines| == 0 ==> r == Outcome(db, true)
    decreases |lines|
  {
    if |lines| == 0 then Outcome(db, true)
    else
      match ProcessLine(lines[0], db, io)
      case None => Outcome(db, false)
      case Some(next) => Run(lines[1..], next, io)
  }

  /** Every run keeps the collection valid. */
  lemma {:induction false} RunPreservesValid(lines: seq<string>, db: Db, io: Io)
    requires Valid(db)
    ensures Valid(Run(lines, db, io).db)
    decreases |lines|
  {
    if |lines| > 0 {
      match ProcessLine(lines[0], db, io)
      case None =>
      case Some(next) =>
        var fields := Split(lines[0], ',');
        if next != db {
          var url := io.validUrl(fields[0]).value;
          UpsertPreservesValid(db, Scrape(url, io.site(url)), Names(fields[1], fields[2], Split(fields[3], '|')));
        }
        RunPreservesValid(lines[1..], next, io);
    }
  }

  /** Lines after one that throws are never processed. */
  lemma {:induction false} RunStopsAtThrow(before: seq<string>, bad: string, after: seq<string>, db: Db, io: Io)
    requires Run(before, db, io).completed
    requires ProcessLine(bad, Run(before, db, io).db, io).None?
    ensures Run(before + [bad] + after, db, io) == Outcome(Run(before, db, io).db, false)
    decreases |before|
  {
    if |before| == 0 {
      assert before + [bad] + after == [bad] + after;
    } else {
      assert (before + [bad] + after)[0] == before[0];
      assert (before + [bad] + after)[1..] == before[1..] + [bad] + after;
      var next := ProcessLine(before[0], db, io).value;
      RunStopsAtThrow(before[1..], bad, after, next, io);
    }
  }

  /** A completed run over two parts is the run over the second part from where the first left. */
  lemma {:induction false} RunAppend(a: seq<string>, b: seq<string>, db: Db, io: Io)
    requires Run(a, db, io).completed
    ensures Run(a + b, db, io) == Run(b, Run(a, db, io).db, io)
    decreases |a|
  {
    if |a| == 0 {
      assert a + b == b;
    } else {
      assert (a + b)[0] == a[0];
      assert (a + b)[1..] == a[1..] + b;
      RunAppend(a[1..], b, ProcessLine(a[0], db, io).value, io);
    }
  }
}
