/** The `search` and `getById` handlers of src/services/contact.service.ts. The database queries,
    the fuzzy scorer and the distance formula are passed in as functions; the handlers' own
    decisions (validation, the retrieval tiers, the geo filter, the ordering, the pagination and
    the response shapes) are modelled. */
module Search {
  import opened Wrappers
  import opened Seqs
  import opened Text
  import opened Records
  import opened Sorting

  /** `near` of the query string; an absent or zero component is 0 (both falsy). */
  datatype Near = Near(lat: real, lng: real, maxDistance: real)

  /** The query string after defaults: `q` absent is `""`; `asc` is `order === "asc"`. Fractional
      `limit` and `page` values are not modelled. */
  datatype Request = Request(q: string, limit: int, page: int, sortBy: string, asc: bool, near: Option<Near>)

  const DefaultLimit := 20
  const DefaultPage := 1
  const DefaultSortBy := "score"
  const TierCap := 200
  const DefaultMaxDistance := 10000.0

  /** The query-string defaults: `q = ""`, `limit = 20`, `page = 1`, `sort_by = "score"`,
      `order = "desc"`. */
  function WithDefaults(q: Option<string>, limit: Option<int>, page: Option<int>, sortBy: Option<string>,
                        order: Option<string>, near: Option<Near>): (r: Request)
    ensures q.None? ==> r.q == ""
    ensures limit.None? ==> r.limit == DefaultLimit
    ensures page.None? ==> r.page == DefaultPage
    ensures sortBy.None? ==> r.sortBy == DefaultSortBy
    ensures r.asc <==> order == Some("asc")
  {
    Request(q.GetOr(""), limit.GetOr(DefaultLimit), page.GetOr(DefaultPage), sortBy.GetOr(DefaultSortBy),
            order == Some("asc"), near)
  }

  /** A fuzzy-search hit: the document and its score (0 is a perfect match). */
  datatype Scored = Scored(item: ContactRecord, score: real)

  /** The database queries the handlers make:
      - `textSearch(q)`: the documents of `find({ $text: { $search: q } })`, or the error thrown;
      - `isObjectId(q)`: `Types.ObjectId.isValid(q)`;
      - `findById(q)`: the document with that `_id` (`None` is null), or the error thrown;
      - `regexSearch(q)`: the documents of the case-insensitive regex query over the name, url,
        address, social and phone fields, or the error thrown;
      - `findOne(id)`: the document with that numeric `id` (`None` is null), or the error thrown. */
  datatype Store = Store(
    textSearch: string -> Attempt<seq<ContactRecord>>,
    isObjectId: string -> bool,
    findById: string -> Attempt<Option<ContactRecord>>,
    regexSearch: string -> Attempt<seq<ContactRecord>>,
    findOne: int -> Attempt<Option<ContactRecord>>
  )

  /** The computations the ranking borrows:
      - `distance(lat, lng, c)`: the haversine distance in metres from `(lat, lng)` to `c`;
      - `fuzzy(docs, q)`: Fuse.js's hits for `q` over `docs`;
      - `fieldSame(a, b, f)` and `fieldLess(a, b, f)`: `a[f] === b[f]` and `a[f] < b[f]`. */
  datatype Ranker = Ranker(
    distance: (real, real, Coord) -> real,
    fuzzy: (seq<ContactRecord>, string) -> seq<Scored>,
    fieldSame: (ContactRecord, ContactRecord, string) -> bool,
    fieldLess: (ContactRecord, ContactRecord, string) -> bool
  )

  /** `Math.ceil(total / limit)`: not finite (serialised as null) when `limit` is 0. */
  datatype Pages = Whole(n: int) | NotFinite

  /** The replies. `ById` is the 200 reply for an ObjectId query (`total: 1`, `pages: 1`, the
      document with `_score: 1`); `NoHits` is the 200 reply with `total: 0` and no page fields. */
  datatype Response =
    | Rejected
    | Failed(message: string)
    | ById(page: int, record: ContactRecord)
    | NoHits
    | Hits(total: nat, page: int, pages: Pages, results: seq<Scored>)

  function Status(r: Response): int {
    match r
    case Rejected => 400
    case Failed(_) => 500
    case _ => 200
  }

  const RejectMessage := "Query parameter 'q' is required"
  const SearchFailed := "Fuzzy search failed"
  /** The TypeError of `(null).toObject()` when `findById` finds nothing. */
  const NullRecordMessage := "Cannot read properties of null (reading 'toObject')"

  /** `error.message || fallback`. */
  function MessageOr(message: string, fallback: string): (r: string)
    ensures message != "" ==> r == message
    ensures message == "" ==> r == fallback
  {
    if message != "" then message else fallback
  }

  // ----- retrieval tiers -----

  /** What retrieval ends in: candidates to score, or a reply given straight away. */
  datatype Retrieved = Candidates(docs: seq<ContactRecord>) | Answer(response: Response)

  /** The text-search tier; a thrown error counts as no candidates. */
  function TextTier(q: string, st: Store): (r: seq<ContactRecord>)
    ensures |r| <= TierCap
    ensures st.textSearch(q).Done? ==> r == Take(st.textSearch(q).value, TierCap)
    ensures st.textSearch(q).Threw? ==> r == []
  {
    match st.textSearch(q)
    case Done(docs) => Take(docs, TierCap)
    case Threw(_) => []
  }

  /** The two tiers: text search, then (when it found nothing) the ObjectId lookup or the regex
      query. */
  function Retrieve(q: string, page: int, st: Store): (r: Retrieved)
    ensures TextTier(q, st) != [] ==> r == Candidates(TextTier(q, st))
    ensures TextTier(q, st) == [] && st.isObjectId(q) ==>
      && (st.findById(q).Done? && st.findById(q).value.Some? ==> r == Answer(ById(page, st.findById(q).value.value)))
      && (st.findById(q) == Done(None) ==> r == Answer(Failed(NullRecordMessage)))
      && (st.findById(q).Threw? ==> r == Answer(Failed(MessageOr(st.findById(q).message, SearchFailed))))
    ensures TextTier(q, st) == [] && !st.isObjectId(q) ==>
      r == match st.regexSearch(q)
           case Done(docs) => Candidates(Take(docs, TierCap))
           case Threw(m) => Answer(Failed(MessageOr(m, SearchFailed)))
    ensures r.Candidates? ==> |r.docs| <= TierCap
    ensures r.Answer? ==> r.response.Failed? || r.response.ById?
  {
    var first := TextTier(q, st);
    if first != [] then Candidates(first)
    else if st.isObjectId(q) then
      match st.findById(q)
      case Done(Some(doc)) => Answer(ById(page, doc))
      case Done(None) => Answer(Failed(NullRecordMessage))
      case Threw(m) => Answer(Failed(MessageOr(m, SearchFailed)))
    else
      match st.regexSearch(q)
      case Done(docs) => Candidates(Take(docs, TierCap))
      case Threw(m) => Answer(Failed(MessageOr(m, SearchFailed)))
  }

  // ----- geo filter -----

  /** The geo filter runs when `near.lat` and `near.lng` are both truthy. */
  predicate GeoActive(near: Option<Near>) {
    near.Some? && near.value.lat != 0.0 && near.value.lng != 0.0
  }

  /** `near.maxDistance || 10000`. */
  function Radius(n: Near): (r: real)
    ensures n.maxDistance != 0.0 ==> r == n.maxDistance
    ensures n.maxDistance == 0.0 ==> r == DefaultMaxDistance
  {
    if n.maxDistance != 0.0 then n.maxDistance else DefaultMaxDistance
  }

  /** A document survives when it has truthy coordinates within the radius. A stored latitude or
      longitude of exactly 0 is falsy, so a site on the equator or the prime meridian never does. */
  function CloseEnough(doc: ContactRecord, n: Near, rk: Ranker): (r: bool)
    ensures doc.coords.None? ==> !r
    ensures doc.coords.Some? && (doc.coords.value.lat == Num(0.0) || doc.coords.value.lng == Num(0.0)) ==> !r
    ensures doc.coords.Some? && (doc.coords.value.lat.NaN? || doc.coords.value.lng.NaN?) ==> !r
    ensures r ==> rk.distance(n.lat, n.lng, doc.coords.value) <= Radius(n)
  {
    && doc.coords.Some?
    && NumberTruthy(doc.coords.value.lat) && NumberTruthy(doc.coords.value.lng)
    && rk.distance(n.lat, n.lng, doc.coords.value) <= Radius(n)
  }

  function GeoFilter(docs: seq<ContactRecord>, near: Option<Near>, rk: Ranker): (r: seq<ContactRecord>)
    ensures !GeoActive(near) ==> r == docs
    ensures GeoActive(near) ==> forall d :: d in r <==> d in docs && CloseEnough(d, near.value, rk)
    ensures GeoActive(near) ==> forall d :: multiset(r)[d] == if CloseEnough(d, near.value, rk) then multiset(docs)[d] else 0
    ensures GeoActive(near) ==> IsSubsequence(r, docs)
  {
    if GeoActive(near) then
      var n := near.value;
      FilterIsSubsequence(docs, d => CloseEnough(d, n, rk));
      FilterCounts(docs, d => CloseEnough(d, n, rk));
      Filter(docs, d => CloseEnough(d, n, rk))
    else docs
  }

  // ----- ordering -----

  /** `a.score - b.score` for ascending order, `b.score - a.score` otherwise. */
  function ScoreCmp(asc: bool): (r: (Scored, Scored) -> real)
    ensures forall a, b :: r(a, b) == -r(b, a)
    ensures forall a, b :: r(a, b) < 0.0 <==> (if asc then a.score < b.score else b.score < a.score)
  {
    (a: Scored, b: Scored) => if asc then a.score - b.score else b.score - a.score
  }

  /** The comparator on field `f`: equal values tie; otherwise `asc` puts the larger later and
      descending order puts it earlier. */
  function FieldCmp(f: string, asc: bool, rk: Ranker): (r: (Scored, Scored) -> real)
    ensures forall a, b :: r(a, b) == 0.0 <==> rk.fieldSame(a.item, b.item, f)
    ensures forall a, b :: r(a, b) > 0.0 <==>
      !rk.fieldSame(a.item, b.item, f) && (if asc then rk.fieldLess(b.item, a.item, f) else rk.fieldLess(a.item, b.item, f))
    ensures forall a, b :: r(a, b) == 0.0 || r(a, b) == 1.0 || r(a, b) == -1.0
  {
    (a: Scored, b: Scored) =>
      if rk.fieldSame(a.item, b.item, f) then 0.0
      else if asc then (if rk.fieldLess(b.item, a.item, f) then 1.0 else -1.0)
      else (if rk.fieldLess(a.item, b.item, f) then 1.0 else -1.0)
  }

  function Comparator(sortBy: string, asc: bool, rk: Ranker): (Scored, Scored) -> real {
    if sortBy == DefaultSortBy then ScoreCmp(asc) else FieldCmp(sortBy, asc, rk)
  }

  /** The sorted hits are a rearrangement of the fuzzy hits. */
  function SortHits(hits: seq<Scored>, sortBy: string, asc: bool, rk: Ranker): (r: seq<Scored>)
    ensures multiset(r) == multiset(hits)
    ensures |r| == |hits|
  {
    Sort(hits, Comparator(sortBy, asc, rk))
  }

  lemma ScoreCmpConsistent(asc: bool)
    ensures Consistent(ScoreCmp(asc))
  {
  }

  /** Sorting by score orders the scores: non-decreasing for "asc", non-increasing otherwise. */
  lemma ScoreSortOrdersScores(hits: seq<Scored>, asc: bool, rk: Ranker)
    ensures var r := SortHits(hits, DefaultSortBy, asc, rk);
      forall i, j :: 0 <= i < j < |r| ==> if asc then r[i].score <= r[j].score else r[i].score >= r[j].score
  {
    ScoreCmpConsistent(asc);
    SortOrdered(hits, ScoreCmp(asc));
  }

  /** Field `f` compares like the numbers `key` gives each document. */
  ghost predicate FieldByKey(rk: Ranker, f: string, key: ContactRecord -> real) {
    && (forall a, b :: rk.fieldSame(a, b, f) <==> key(a) == key(b))
    && (forall a, b :: rk.fieldLess(a, b, f) <==> key(a) < key(b))
  }

  /** Sorting by a field whose values are ordered puts larger values later for "asc" and earlier
      otherwise. */
  lemma FieldSortOrdersValues(hits: seq<Scored>, f: string, asc: bool, rk: Ranker, key: ContactRecord -> real)
    requires f != DefaultSortBy
    requires FieldByKey(rk, f, key)
    ensures var r := SortHits(hits, f, asc, rk);
      forall i, j :: 0 <= i < j < |r| ==>
        if asc then key(r[i].item) <= key(r[j].item) else key(r[i].item) >= key(r[j].item)
  {
    var cmp := FieldCmp(f, asc, rk);
    assert forall a, b :: NotAfter(cmp, a, b) <==>
      (if asc then key(a.item) <= key(b.item) else key(a.item) >= key(b.item));
    SortOrdered(hits, cmp);
  }

  // ----- pagination -----

  /** `s.slice(start, end)`: a negative bound counts from the end, and bounds are clamped. */
  function JsSlice<T>(s: seq<T>, start: int, end: int): (r: seq<T>)
    ensures 0 <= start <= end <= |s| ==> r == s[start..end]
    ensures |r| <= |s|
  {
    var from := if start < 0 then (if |s| + start < 0 then 0 else |s| + start)
                else (if start > |s| then |s| else start);
    var to := if end < 0 then (if |s| + end < 0 then 0 else |s| + end)
              else (if end > |s| then |s| else end);
    if from < to then s[from..to] else []
  }

  /** The page of results: `sorted.slice((page - 1) * limit, (page - 1) * limit + limit)`. */
  function PageOf<T>(sorted: seq<T>, page: int, limit: int): (r: seq<T>)
    ensures limit >= 0 ==> |r| <= limit
    ensures page >= 1 && limit >= 0 && (page - 1) * limit <= |sorted| ==>
      r == sorted[(page - 1) * limit..if (page - 1) * limit + limit <= |sorted| then (page - 1) * limit + limit else |sorted|]
  {
    var skip := (page - 1) * limit;
    JsSlice(sorted, skip, skip + limit)
  }

  /** `Math.ceil(a / b)` for integers, with `b` not zero. */
  function CeilDiv(a: int, b: int): (r: int)
    requires b != 0
    ensures b > 0 ==> (r - 1) * b < a <= r * b
    ensures b < 0 ==> r * b <= a < (r - 1) * b
  {
    if b > 0 then (a + b - 1) / b else -(a / -b)
  }

  function PageCount(total: nat, limit: int): (r: Pages)
    ensures limit == 0 <==> r.NotFinite?
    ensures limit > 0 ==> r.Whole? && (r.n - 1) * limit < total <= r.n * limit
  {
    if limit == 0 then NotFinite else Whole(CeilDiv(total, limit))
  }

  // ----- the handlers -----

  /** What follows retrieval: the geo filter, the fuzzy scoring, the ordering and the page. */
  function Rank(req: Request, docs: seq<ContactRecord>, rk: Ranker): (r: Response)
    ensures r == NoHits <==> GeoFilter(docs, req.near, rk) == []
    ensures r.NoHits? || r.Hits?
    ensures r.Hits? ==> var hits := rk.fuzzy(GeoFilter(docs, req.near, rk), req.q);
      && r.total == |hits| && r.page == req.page
      && r.pages == PageCount(|hits|, req.limit)
      && r.results == PageOf(SortHits(hits, req.sortBy, req.asc, rk), req.page, req.limit)
    ensures r.Hits? && req.limit >= 0 ==> |r.results| <= req.limit
  {
    var kept := GeoFilter(docs, req.near, rk);
    if kept == [] then NoHits
    else
      var hits := rk.fuzzy(kept, req.q);
      Hits(|hits|, req.page, PageCount(|hits|, req.limit),
           PageOf(SortHits(hits, req.sortBy, req.asc, rk), req.page, req.limit))
  }

  /** `search(request)`: a blank query is rejected (400) and nothing else is; otherwise the
      retrieval either answers directly or hands its candidates to the ranking. */
  function SearchContacts(req: Request, st: Store, rk: Ranker): (r: Response)
    ensures r == Rejected <==> Trim(req.q) == ""
    ensures Trim(req.q) != "" && Retrieve(req.q, req.page, st).Candidates? ==>
      r == Rank(req, Retrieve(req.q, req.page, st).docs, rk)
    ensures Trim(req.q) != "" && Retrieve(req.q, req.page, st).Answer? ==>
      r == Retrieve(req.q, req.page, st).response
  {
    if Trim(req.q) == "" then Rejected
    else
      var got := Retrieve(req.q, req.page, st);
      assert got.Answer? ==> got.response.Failed? || got.response.ById?;
      match got
      case Answer(response) => response
      case Candidates(docs) => Rank(req, docs, rk)
  }

  /** The regex tier is never consulted when text search finds something. */
  lemma RegexTierOnlyAfterEmptyText(req: Request, st: Store, rk: Ranker,
                                    other: string -> Attempt<seq<ContactRecord>>)
    requires st.textSearch(req.q).Done? && st.textSearch(req.q).value != []
    ensures SearchContacts(req, st, rk) == SearchContacts(req, st.(regexSearch := other), rk)
  {
    assert TextTier(req.q, st) != [];
  }

  /** A blank query is rejected before any retrieval: the backend is never consulted. */
  lemma BlankQueryNeedsNoLookup(req: Request, st1: Store, st2: Store, rk1: Ranker, rk2: Ranker)
    requires Trim(req.q) == ""
    ensures SearchContacts(req, st1, rk1) == SearchContacts(req, st2, rk2) == Rejected
  {
  }

  /** 45 hits, 20 per page: page 3 holds the last 5, and there are 3 pages. */
  lemma PaginationExample(sorted: seq<Scored>)
    requires |sorted| == 45
    ensures PageOf(sorted, 3, 20) == sorted[40..45]
    ensures |PageOf(sorted, 3, 20)| == 5
    ensures PageCount(45, 20) == Whole(3)
  {
  }

  /** `getById`: 200 "Contact found!" with the document, null included; 500 when the lookup
      throws. */
  datatype ByIdReply = Found(result: Option<ContactRecord>) | LookupFailed(message: string)

  const FoundMessage := "Contact found!"
  const NotFoundMessage := "Contact not found!"

  function GetById(id: int, st: Store): (r: ByIdReply)
    ensures st.findOne(id).Done? <==> r.Found?
    ensures st.findOne(id).Done? ==> r.result == st.findOne(id).value
    ensures st.findOne(id).Threw? ==> r.message == MessageOr(st.findOne(id).message, NotFoundMessage)
  {
    match st.findOne(id)
    case Done(doc) => Found(doc)
    case Threw(m) => LookupFailed(MessageOr(m, NotFoundMessage))
  }
}
