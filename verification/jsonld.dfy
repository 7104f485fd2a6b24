/** The structured-data search of src/scrapping/contact.scrapping.ts (`findGeo`, `findAddress`):
    a depth-first walk over a parsed JSON-LD value that returns the first hit in traversal order. */
module JsonLd {
  import opened Wrappers
  import opened Text
  import opened Records

  /** A value produced by `JSON.parse`. An object's `fields` are its own properties, one per key,
      in `Object.values` enumeration order. */
  datatype Json =
    | JNull
    | JBool(b: bool)
    | JNum(n: real)
    | JStr(s: string)
    | JArr(items: seq<Json>)
    | JObj(fields: seq<Field>)

  datatype Field = Field(key: string, value: Json)

  /** How numbers are turned into text and back: `Number.prototype.toString` and `parseFloat`. */
  datatype Numerals = Numerals(show: real -> string, parseFloat: string -> Number)

  /** `obj.key` (undefined is `None`): only objects have the properties looked up here. */
  function Get(v: Json, key: string): (r: Option<Json>)
    ensures r.Some? ==> v.JObj? && exists i :: 0 <= i < |v.fields| && v.fields[i] == Field(key, r.value)
  {
    match v
    case JObj(fields) => FieldValue(fields, key)
    case _ => None
  }

  function FieldValue(fields: seq<Field>, key: string): (r: Option<Json>)
    ensures r.Some? ==> exists i :: 0 <= i < |fields| && fields[i] == Field(key, r.value)
  {
    if |fields| == 0 then None
    else if fields[0].key == key then Some(fields[0].value)
    else
      var r := FieldValue(fields[1..], key);
      assert r.Some? ==> exists i :: 1 <= i < |fields| && fields[i] == Field(key, r.value) by {
        if r.Some? {
          var i :| 0 <= i < |fields[1..]| && fields[1..][i] == Field(key, r.value);
          assert fields[i + 1] == fields[1..][i];
        }
      }
      r
  }

  /** `o?.key`. */
  function Member(o: Option<Json>, key: string): Option<Json> {
    match o
    case Some(v) => Get(v, key)
    case None => None
  }

  /** JavaScript truthiness of a property read (`undefined` is `None`). */
  predicate Truthy(o: Option<Json>) {
    match o
    case None => false
    case Some(JNull) => false
    case Some(JBool(b)) => b
    case Some(JNum(n)) => n != 0.0
    case Some(JStr(s)) => s != ""
    case Some(JArr(_)) => true
    case Some(JObj(_)) => true
  }

  /** `String(v)`: arrays join their elements with "," (null elements give ""), objects give
      "[object Object]". */
  function ToText(v: Json, show: real -> string): string {
    match v
    case JNull => "null"
    case JBool(b) => if b then "true" else "false"
    case JNum(n) => show(n)
    case JStr(s) => s
    case JArr(items) =>
      Join(seq(|items|, i requires 0 <= i < |items| =>
        if items[i].JNull? then "" else ToText(items[i], show)), ",")
    case JObj(_) => "[object Object]"
  }

  /** `parseFloat(v)`: the value is turned into text first. */
  function ParseNumber(v: Json, num: Numerals): Number {
    num.parseFloat(ToText(v, num.show))
  }

  /** The number of values `Object.values` enumerates: none for primitives. */
  function Arity(v: Json): nat {
    match v
    case JArr(items) => |items|
    case JObj(fields) => |fields|
    case _ => 0
  }

  /** The `i`-th value `Object.values(v)` enumerates. */
  function ChildAt(v: Json, i: nat): (r: Json)
    requires i < Arity(v)
    ensures r < v
  {
    match v
    case JArr(items) => items[i]
    case JObj(fields) => fields[i].value
  }

  /** What looking at one node yields: a result, nothing, or a thrown TypeError. */
  datatype Probe<T> = Hit(value: T) | Miss | Fault

  /** A child's result lets the loop over `Object.values` go on: nothing found, or a found value
      the `if (found)` test rejects. */
  predicate Continues<T>(p: Probe<T>, accept: T -> bool) {
    p.Miss? || (p.Hit? && !accept(p.value))
  }

  /** The recursive search: the node's own probe first, then each value in enumeration order;
      the first child result that is accepted (or throws) ends the search. */
  function Search<T>(v: Json, probe: Json -> Probe<T>, accept: T -> bool): (r: Probe<T>)
    ensures probe(v).Hit? ==> r == probe(v)
    ensures probe(v).Fault? ==> r.Fault?
    ensures probe(v).Miss? && r.Hit? ==> accept(r.value) && exists k :: (0 <= k < Arity(v)
      && Search(ChildAt(v, k), probe, accept) == r
      && forall j :: 0 <= j < k ==> Continues(Search(ChildAt(v, j), probe, accept), accept))
    ensures probe(v).Miss? && r.Fault? ==> exists k :: (0 <= k < Arity(v)
      && Search(ChildAt(v, k), probe, accept).Fault?
      && forall j :: 0 <= j < k ==> Continues(Search(ChildAt(v, j), probe, accept), accept))
    ensures probe(v).Miss? && r.Miss? ==>
      forall j :: 0 <= j < Arity(v) ==> Continues(Search(ChildAt(v, j), probe, accept), accept)
    decreases v, 1
  {
    match probe(v)
    case Hit(x) => Hit(x)
    case Fault => Fault
    case Miss => SearchFrom(v, 0, probe, accept)
  }

  /** The loop `for (const val of Object.values(obj))` from the `i`-th value on. */
  function SearchFrom<T>(v: Json, i: nat, probe: Json -> Probe<T>, accept: T -> bool): (r: Probe<T>)
    ensures r.Hit? ==> accept(r.value) && exists k :: (i <= k < Arity(v)
      && Search(ChildAt(v, k), probe, accept) == r
      && forall j :: i <= j < k ==> Continues(Search(ChildAt(v, j), probe, accept), accept))
    ensures r.Fault? ==> exists k :: (i <= k < Arity(v)
      && Search(ChildAt(v, k), probe, accept).Fault?
      && forall j :: i <= j < k ==> Continues(Search(ChildAt(v, j), probe, accept), accept))
    ensures r.Miss? ==>
      forall j :: i <= j < Arity(v) ==> Continues(Search(ChildAt(v, j), probe, accept), accept)
    decreases v, 0, Arity(v) - i
  {
    if i >= Arity(v) then Miss
    else
      match Search(ChildAt(v, i), probe, accept)
      case Fault => Fault
      case Hit(x) => if accept(x) then Hit(x) else SearchFrom(v, i + 1, probe, accept)
      case Miss => SearchFrom(v, i + 1, probe, accept)
  }

  /** `u` is `v` or a value nested inside it. */
  ghost predicate Within(u: Json, v: Json)
    decreases v
  {
    u == v || exists k :: 0 <= k < Arity(v) && Within(u, ChildAt(v, k))
  }

  /** Whatever the search returns is the probe result of some node of the tree. */
  lemma {:induction false} SearchFindsANode<T>(v: Json, probe: Json -> Probe<T>, accept: T -> bool)
    ensures Search(v, probe, accept).Hit? ==>
      exists u :: Within(u, v) && probe(u) == Search(v, probe, accept)
    decreases v, 1
  {
    if probe(v).Miss? {
      SearchFromFindsANode(v, 0, probe, accept);
    }
  }

  lemma {:induction false} SearchFromFindsANode<T>(v: Json, i: nat, probe: Json -> Probe<T>, accept: T -> bool)
    ensures SearchFrom(v, i, probe, accept).Hit? ==>
      exists u :: Within(u, v) && probe(u) == SearchFrom(v, i, probe, accept)
    decreases v, 0, Arity(v) - i
  {
    if i < Arity(v) {
      var c := ChildAt(v, i);
      var rc := Search(c, probe, accept);
      if rc.Hit? && accept(rc.value) {
        SearchFindsANode(c, probe, accept);
        var u :| Within(u, c) && probe(u) == rc;
        assert Within(u, v);
      } else if !rc.Fault? {
        SearchFromFindsANode(v, i + 1, probe, accept);
      }
    }
  }

  /** A thrown error comes from some node of the tree whose own test throws. */
  lemma {:induction false} SearchFaultHasASource<T>(v: Json, probe: Json -> Probe<T>, accept: T -> bool)
    ensures Search(v, probe, accept).Fault? ==> exists u :: Within(u, v) && probe(u).Fault?
    decreases v, 1
  {
    if probe(v).Miss? {
      SearchFromFaultHasASource(v, 0, probe, accept);
    }
  }

  lemma {:induction false} SearchFromFaultHasASource<T>(v: Json, i: nat, probe: Json -> Probe<T>, accept: T -> bool)
    ensures SearchFrom(v, i, probe, accept).Fault? ==> exists u :: Within(u, v) && probe(u).Fault?
    decreases v, 0, Arity(v) - i
  {
    if i < Arity(v) {
      var c := ChildAt(v, i);
      var rc := Search(c, probe, accept);
      if rc.Fault? {
        SearchFaultHasASource(c, probe, accept);
        var u :| Within(u, c) && probe(u).Fault?;
        assert Within(u, v);
      } else if !(rc.Hit? && accept(rc.value)) {
        SearchFromFaultHasASource(v, i + 1, probe, accept);
      }
    }
  }

  /** The search misses nothing: when every hit in the tree is one the `if (found)` test accepts,
      finding nothing means that no node of the tree yields anything. */
  lemma {:induction false} SearchMissesNothing<T>(v: Json, probe: Json -> Probe<T>, accept: T -> bool)
    requires forall u :: Within(u, v) && probe(u).Hit? ==> accept(probe(u).value)
    ensures Search(v, probe, accept).Miss? ==> forall u :: Within(u, v) ==> probe(u).Miss?
    decreases v, 1
  {
    if probe(v).Miss? && Search(v, probe, accept).Miss? {
      SearchFromMissesNothing(v, 0, probe, accept);
      forall u | Within(u, v) ensures probe(u).Miss? {
        if u != v {
          var k :| 0 <= k < Arity(v) && Within(u, ChildAt(v, k));
        }
      }
    }
  }

  lemma {:induction false} SearchFromMissesNothing<T>(v: Json, i: nat, probe: Json -> Probe<T>, accept: T -> bool)
    requires forall u :: Within(u, v) && probe(u).Hit? ==> accept(probe(u).value)
    ensures SearchFrom(v, i, probe, accept).Miss? ==>
      forall k, u :: i <= k < Arity(v) && Within(u, ChildAt(v, k)) ==> probe(u).Miss?
    decreases v, 0, Arity(v) - i
  {
    if i < Arity(v) && SearchFrom(v, i, probe, accept).Miss? {
      var c := ChildAt(v, i);
      assert forall u :: Within(u, c) ==> Within(u, v);
      var rc := Search(c, probe, accept);
      SearchFindsANode(c, probe, accept);
      assert !rc.Hit?;
      SearchMissesNothing(c, probe, accept);
      SearchFromMissesNothing(v, i + 1, probe, accept);
    }
  }

  // ----- findGeo -----

  /** The node test of `findGeo`: a `geo` child with truthy `latitude` and `longitude` first,
      then the node's own `latitude` and `longitude`. */
  function GeoProbe(v: Json, num: Numerals): (r: Probe<Coord>)
    ensures !r.Fault?
  {
    var geo := Get(v, "geo");
    var gLat := Member(geo, "latitude");
    var gLng := Member(geo, "longitude");
    if Truthy(gLat) && Truthy(gLng) then
      Hit(Coord(ParseNumber(gLat.value, num), ParseNumber(gLng.value, num)))
    else
      var lat := Get(v, "latitude");
      var lng := Get(v, "longitude");
      if Truthy(lat) && Truthy(lng) then
        Hit(Coord(ParseNumber(lat.value, num), ParseNumber(lng.value, num)))
      else Miss
  }

  /** `findGeo(obj)`: the first coordinate pair in depth-first order, or `None` (null). */
  function FindGeo(v: Json, num: Numerals): (r: Option<Coord>)
    ensures var geo := Get(v, "geo");
      Truthy(Member(geo, "latitude")) && Truthy(Member(geo, "longitude")) ==>
        r == Some(Coord(ParseNumber(Member(geo, "latitude").value, num),
                        ParseNumber(Member(geo, "longitude").value, num)))
    ensures var geo := Get(v, "geo");
      !(Truthy(Member(geo, "latitude")) && Truthy(Member(geo, "longitude")))
      && Truthy(Get(v, "latitude")) && Truthy(Get(v, "longitude")) ==>
        r == Some(Coord(ParseNumber(Get(v, "latitude").value, num),
                        ParseNumber(Get(v, "longitude").value, num)))
    ensures r.Some? ==> exists u :: Within(u, v) && GeoProbe(u, num) == Hit(r.value)
    ensures r.None? <==> forall u :: Within(u, v) ==> GeoProbe(u, num).Miss?
  {
    var probe := GeoProbes(num);
    SearchFindsANode(v, probe, AnyCoord);
    FindGeoMissesNothing(v, num);
    match Search(v, probe, AnyCoord)
    case Hit(c) => Some(c)
    case _ => None
  }

  /** Below a node without coordinates of its own, `findGeo` returns what the first value that
      has any yields, in enumeration order. */
  lemma FindGeoTakesFirstChild(v: Json, num: Numerals)
    requires GeoProbe(v, num).Miss?
    ensures FindGeo(v, num).Some? ==> exists k :: (0 <= k < Arity(v)
      && FindGeo(ChildAt(v, k), num) == FindGeo(v, num)
      && forall j :: 0 <= j < k ==> FindGeo(ChildAt(v, j), num).None?)
    ensures FindGeo(v, num).None? ==> forall j :: 0 <= j < Arity(v) ==> FindGeo(ChildAt(v, j), num).None?
  {
    var probe := GeoProbes(num);
    if FindGeo(v, num).Some? {
      var k :| 0 <= k < Arity(v) && Search(ChildAt(v, k), probe, AnyCoord) == Search(v, probe, AnyCoord)
        && forall j :: 0 <= j < k ==> Continues(Search(ChildAt(v, j), probe, AnyCoord), AnyCoord);
      assert FindGeo(ChildAt(v, k), num) == FindGeo(v, num);
      forall j | 0 <= j < k ensures FindGeo(ChildAt(v, j), num).None? {
        assert Continues(Search(ChildAt(v, j), probe, AnyCoord), AnyCoord);
      }
    } else {
      forall j | 0 <= j < Arity(v) ensures FindGeo(ChildAt(v, j), num).None? {
        forall u | Within(u, ChildAt(v, j)) ensures GeoProbe(u, num).Miss? {
          assert Within(u, v);
        }
      }
    }
  }

  lemma FindGeoMissesNothing(v: Json, num: Numerals)
    ensures Search(v, GeoProbes(num), AnyCoord).Hit? || forall u :: Within(u, v) ==> GeoProbe(u, num).Miss?
  {
    var probe := GeoProbes(num);
    SearchFaultHasASource(v, probe, AnyCoord);
    SearchMissesNothing(v, probe, AnyCoord);
  }

  /** The node test of `findGeo` as a function value. */
  function GeoProbes(num: Numerals): Json -> Probe<Coord> {
    u => GeoProbe(u, num)
  }

  /** `if (found)` on a coordinate object: always true. */
  predicate AnyCoord(c: Coord) {
    true
  }

  // ----- findAddress -----

  /** The address parts of a PostalAddress, in the order they are joined. */
  const PostalKeys: seq<string> :=
    ["streetAddress", "addressLocality", "addressRegion", "postalCode", "addressCountry"]

  /** `obj?.["@type"]?.includes("PostalAddress")`: a substring test on a string, an element test on
      an array; any other non-null value has no `includes` method, so the call throws. */
  function IsPostalAddress(v: Json): (r: Probe<bool>)
    ensures r.Fault? <==> (Get(v, "@type").Some? && !Get(v, "@type").value.JNull?
      && !Get(v, "@type").value.JStr? && !Get(v, "@type").value.JArr?)
  {
    match Get(v, "@type")
    case None => Hit(false)
    case Some(JNull) => Hit(false)
    case Some(JStr(s)) => Hit(Contains(s, "PostalAddress"))
    case Some(JArr(items)) => Hit(JStr("PostalAddress") in items)
    case Some(_) => Fault
  }

  /** `[obj.streetAddress, …].filter(Boolean)` as text: the truthy parts among `keys`, in order. */
  function PostalParts(v: Json, keys: seq<string>, show: real -> string): (r: seq<string>)
    ensures |r| <= |keys|
    ensures |r| == 0 <==> forall k :: k in keys ==> !Truthy(Get(v, k))
  {
    if |keys| == 0 then []
    else
      var head := if Truthy(Get(v, keys[0])) then [ToText(Get(v, keys[0]).value, show)] else [];
      assert forall k :: k in keys <==> k == keys[0] || k in keys[1..];
      head + PostalParts(v, keys[1..], show)
  }

  /** The node test of `findAddress`. */
  function AddressProbe(v: Json, show: real -> string): (r: Probe<string>)
    ensures r.Fault? <==> IsPostalAddress(v).Fault?
  {
    var postal := IsPostalAddress(v);
    var parts := PostalParts(v, PostalKeys, show);
    var address := Get(v, "address");
    if postal.Fault? then Fault
    else if postal == Hit(true) && |parts| > 0 then Hit(Join(parts, ", "))
    else if address.Some? && address.value.JStr? && address.value.s != "" then Hit(address.value.s)
    else Miss
  }

  /** `findAddress(obj)`: the first address in depth-first order (`Hit`), none (`Miss`, null), or
      a thrown TypeError (`Fault`). */
  function FindAddress(v: Json, show: real -> string): (r: Probe<string>)
    ensures IsPostalAddress(v).Fault? ==> r.Fault?
    ensures IsPostalAddress(v) == Hit(true) && |PostalParts(v, PostalKeys, show)| > 0 ==>
      r == Hit(Join(PostalParts(v, PostalKeys, show), ", "))
    ensures (IsPostalAddress(v).Hit? && !(IsPostalAddress(v).value && |PostalParts(v, PostalKeys, show)| > 0)
      && Get(v, "address").Some? && Get(v, "address").value.JStr? && Get(v, "address").value.s != "") ==>
        r == Hit(Get(v, "address").value.s)
    ensures r.Hit? ==> exists u :: Within(u, v) && AddressProbe(u, show) == r
    ensures r.Fault? ==> exists u :: Within(u, v) && IsPostalAddress(u).Fault?
    ensures (forall u :: Within(u, v) && AddressProbe(u, show).Hit? ==> AddressProbe(u, show).value != "") ==>
      (r.Miss? <==> forall u :: Within(u, v) ==> AddressProbe(u, show).Miss?)
  {
    var probe := AddressProbes(show);
    SearchFindsANode(v, probe, NonEmpty);
    SearchFaultHasASource(v, probe, NonEmpty);
    FindAddressMissesNothing(v, show);
    Search(v, probe, NonEmpty)
  }

  lemma FindAddressMissesNothing(v: Json, show: real -> string)
    ensures (forall u :: Within(u, v) && AddressProbe(u, show).Hit? ==> AddressProbe(u, show).value != "") ==>
      (Search(v, AddressProbes(show), NonEmpty).Miss? ==> forall u :: Within(u, v) ==> AddressProbe(u, show).Miss?)
  {
    if forall u :: Within(u, v) && AddressProbe(u, show).Hit? ==> AddressProbe(u, show).value != "" {
      SearchMissesNothing(v, AddressProbes(show), NonEmpty);
    }
  }

  /** Below a node that is not a postal address, `findAddress` returns the first non-empty
      address a value yields, in enumeration order, unless an earlier value throws. */
  lemma FindAddressTakesFirstChild(v: Json, show: real -> string)
    requires AddressProbe(v, show).Miss?
    ensures FindAddress(v, show).Hit? ==> NonEmpty(FindAddress(v, show).value) && exists k :: (0 <= k < Arity(v)
      && FindAddress(ChildAt(v, k), show) == FindAddress(v, show)
      && forall j :: 0 <= j < k ==> Continues(FindAddress(ChildAt(v, j), show), NonEmpty))
    ensures FindAddress(v, show).Fault? ==> exists k :: (0 <= k < Arity(v)
      && FindAddress(ChildAt(v, k), show).Fault?
      && forall j :: 0 <= j < k ==> Continues(FindAddress(ChildAt(v, j), show), NonEmpty))
    ensures FindAddress(v, show).Miss? ==>
      forall j :: 0 <= j < Arity(v) ==> Continues(FindAddress(ChildAt(v, j), show), NonEmpty)
  {
  }

  /** The node test of `findAddress` as a function value. */
  function AddressProbes(show: real -> string): Json -> Probe<string> {
    u => AddressProbe(u, show)
  }

  /** `if (found)` on a string: it is non-empty. */
  predicate NonEmpty(s: string) {
    s != ""
  }
}
