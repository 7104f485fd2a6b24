/** The location cascade of src/scrapping/contact.scrapping.ts (the `page.evaluate` that returns
    `{ address, coords }`): each source is consulted only while what it could supply is still
    missing, so an earlier source always wins. */
module Location {
  import opened Wrappers
  import opened Seqs
  import opened Text
  import opened Records
  import opened JsonLd
  import opened Heuristics
  import opened Snapshot

  /** The two variables of the cascade. `address: None` is null; `Some("")` is an empty string,
      which is falsy but still a value. `coords` is an object whenever it is set, so it is truthy
      even when a component is NaN. */
  datatype Location = Location(address: Option<string>, coords: Option<Coord>)

  const Unset := Location(None, None)

  /** JavaScript truthiness of the address variable. */
  predicate Filled(a: Option<string>) {
    a.Some? && a.value != ""
  }

  /** `coords || address`: the test that ends a map-URL loop. */
  predicate HasAny(l: Location) {
    l.coords.Some? || Filled(l.address)
  }

  function CoordOf(p: (string, string), num: Numerals): Coord {
    Coord(num.parseFloat(p.0), num.parseFloat(p.1))
  }

  // ----- Google Maps iframes and links -----

  /** The coordinates a map URL carries, if any. */
  function OwnCoords(u: string, env: Env): Option<Coord> {
    match env.mapCoords(u)
    case None => None
    case Some(p) => Some(CoordOf(p, env.num))
  }

  /** The decoded `q=` value of a map URL, when it has one and it decodes. */
  function OwnAddress(u: string, env: Env): Option<string> {
    match env.mapQuery(u)
    case None => None
    case Some(q) => env.decodeUri(q)
  }

  /** `decodeURIComponent` throws on this URL's `q=` value. */
  predicate DecodeThrows(u: string, env: Env) {
    env.mapQuery(u).Some? && env.decodeUri(env.mapQuery(u).value).None?
  }

  /** The URL on its own ends the loop. */
  predicate UrlYields(u: string, env: Env) {
    OwnCoords(u, env).Some? || Filled(OwnAddress(u, env))
  }

  /** One pass of the loop body; `None` when `decodeURIComponent` throws. */
  function ReadMapUrl(u: string, loc: Location, env: Env): (r: Option<Location>)
    ensures r.None? <==> DecodeThrows(u, env)
    ensures r.Some? ==> r.value.coords == (if OwnCoords(u, env).Some? then OwnCoords(u, env) else loc.coords)
    ensures r.Some? ==> r.value.address == (if env.mapQuery(u).Some? then OwnAddress(u, env) else loc.address)
  {
    var coords := if OwnCoords(u, env).Some? then OwnCoords(u, env) else loc.coords;
    match env.mapQuery(u)
    case None => Some(Location(loc.address, coords))
    case Some(q) =>
      match env.decodeUri(q)
      case None => None
      case Some(a) => Some(Location(Some(a), coords))
  }

  /** The loop over the map iframes (or links), from a state that has neither variable set:
      the first URL that yields anything decides the coordinates, and the address when it has a
      usable one; a `q=` value that fails to decode before that makes the whole cascade throw. */
  function ScanMapUrls(urls: seq<string>, loc: Location, env: Env): (r: Option<Location>)
    requires !HasAny(loc)
    ensures r.None? <==> exists k :: (0 <= k < |urls| && DecodeThrows(urls[k], env)
      && forall j :: 0 <= j < k ==> !UrlYields(urls[j], env))
    ensures (exists k :: (0 <= k < |urls| && UrlYields(urls[k], env)
      && forall j :: 0 <= j <= k ==> !DecodeThrows(urls[j], env))) ==> r.Some? && HasAny(r.value)
    ensures r.Some? && HasAny(r.value) ==> exists k :: (0 <= k < |urls| && UrlYields(urls[k], env)
      && r.value.coords == OwnCoords(urls[k], env)
      && (Filled(r.value.address) ==> r.value.address == OwnAddress(urls[k], env))
      && forall j :: 0 <= j < k ==> !UrlYields(urls[j], env) && !DecodeThrows(urls[j], env))
    ensures r.Some? && !HasAny(r.value) ==>
      forall j :: 0 <= j < |urls| ==> !UrlYields(urls[j], env) && !DecodeThrows(urls[j], env)
  {
    if |urls| == 0 then Some(loc)
    else
      match ReadMapUrl(urls[0], loc, env)
      case None => None
      case Some(l) =>
        if HasAny(l) then Some(l)
        else
          var r := ScanMapUrls(urls[1..], l, env);
          assert forall j :: 1 <= j < |urls| ==> urls[j] == urls[1..][j - 1];
          r
  }

  // ----- JSON-LD -----

  /** One script's turn: `coords = coords || findGeo(data)`, then `address = address ||
      findAddress(data)`; a throwing `findAddress` leaves the address as it was. */
  function ReadScript(data: Json, loc: Location, num: Numerals): (r: Location)
    ensures loc.coords.Some? ==> r.coords == loc.coords
    ensures loc.coords.None? ==> r.coords == FindGeo(data, num)
    ensures Filled(loc.address) ==> r.address == loc.address
  {
    var coords := if loc.coords.Some? then loc.coords else FindGeo(data, num);
    if Filled(loc.address) then Location(loc.address, coords)
    else
      match FindAddress(data, num.show)
      case Fault => Location(loc.address, coords)
      case Hit(a) => Location(Some(a), coords)
      case Miss => Location(None, coords)
  }

  /** The script parses and `findGeo` finds coordinates in it. */
  predicate GeoIn(script: Option<Json>, num: Numerals) {
    script.Some? && FindGeo(script.value, num).Some?
  }

  /** The coordinates of the first parsed script that has any. */
  function FirstGeo(scripts: seq<Option<Json>>, num: Numerals): (r: Option<Coord>)
    ensures r.None? <==> forall k :: 0 <= k < |scripts| ==> !GeoIn(scripts[k], num)
    ensures r.Some? ==> exists k :: (0 <= k < |scripts| && GeoIn(scripts[k], num)
      && r == FindGeo(scripts[k].value, num) && forall j :: 0 <= j < k ==> !GeoIn(scripts[j], num))
  {
    FirstOf(scripts, GeoOf(num))
  }

  /** `findGeo` on a script that parses. */
  function GeoOf(num: Numerals): Option<Json> -> Option<Coord> {
    (script: Option<Json>) => if script.Some? then FindGeo(script.value, num) else None
  }

  /** The script parses and `findAddress` returns a non-empty address for it. */
  predicate AddressIn(script: Option<Json>, show: real -> string) {
    script.Some? && FindAddress(script.value, show).Hit? && FindAddress(script.value, show).value != ""
  }

  /** The address of the first parsed script that yields a non-empty one. */
  function FirstLdAddress(scripts: seq<Option<Json>>, show: real -> string): (r: Option<string>)
    ensures r.None? <==> forall k :: 0 <= k < |scripts| ==> !AddressIn(scripts[k], show)
    ensures r.Some? ==> Filled(r) && exists k :: (0 <= k < |scripts| && AddressIn(scripts[k], show)
      && r.value == FindAddress(scripts[k].value, show).value
      && forall j :: 0 <= j < k ==> !AddressIn(scripts[j], show))
  {
    var f := AddressOf(show);
    assert forall k :: 0 <= k < |scripts| ==>
      && (f(scripts[k]).None? <==> !AddressIn(scripts[k], show))
      && (AddressIn(scripts[k], show) ==> f(scripts[k]).value == FindAddress(scripts[k].value, show).value);
    FirstOf(scripts, f)
  }

  /** The non-empty address `findAddress` returns for a script that parses. */
  function AddressOf(show: real -> string): Option<Json> -> Option<string> {
    (script: Option<Json>) => if AddressIn(script, show) then Some(FindAddress(script.value, show).value) else None
  }

  /** The loop over the JSON-LD scripts; a script that fails to parse is skipped, and the loop ends
      once both variables are set. Unset coordinates become those of the first script that has
      any; a falsy address becomes the first non-empty address a script yields. */
  function ScanScripts(scripts: seq<Option<Json>>, loc: Location, num: Numerals): (r: Location)
    ensures loc.coords.Some? ==> r.coords == loc.coords
    ensures loc.coords.None? ==> r.coords == FirstGeo(scripts, num)
    ensures Filled(loc.address) ==> r.address == loc.address
    ensures !Filled(loc.address) ==> (Filled(r.address) <==> FirstLdAddress(scripts, num.show).Some?)
    ensures !Filled(loc.address) && Filled(r.address) ==> r.address == FirstLdAddress(scripts, num.show)
    ensures (forall k :: 0 <= k < |scripts| ==> scripts[k].None?) ==> r == loc
  {
    if |scripts| == 0 then loc
    else
      var l := if scripts[0].Some? then ReadScript(scripts[0].value, loc, num) else loc;
      if Filled(l.address) && l.coords.Some? then l
      else
        var r := ScanScripts(scripts[1..], l, num);
        assert forall j :: 1 <= j < |scripts| ==> scripts[j] == scripts[1..][j - 1];
        r
  }

  /** The JSON-LD stage runs only when no coordinates were found yet. */
  function LdStage(scripts: seq<Option<Json>>, loc: Location, num: Numerals): (r: Location)
    ensures loc.coords.Some? ==> r == loc
    ensures loc.coords.None? ==> r.coords == FirstGeo(scripts, num)
    ensures Filled(loc.address) ==> r.address == loc.address
    ensures loc.coords.None? && !Filled(loc.address) ==>
      (Filled(r.address) <==> FirstLdAddress(scripts, num.show).Some?)
      && (Filled(r.address) ==> r.address == FirstLdAddress(scripts, num.show))
  {
    if loc.coords.Some? then loc else ScanScripts(scripts, loc, num)
  }

  // ----- geo.position meta tag and OpenStreetMap iframes -----

  /** `content.split(";")[0]` and `[1]`, both truthy. */
  function MetaCoords(content: string, num: Numerals): (r: Option<Coord>)
    ensures r.Some? <==> ';' in content && Split(content, ';')[0] != "" && Split(content, ';')[1] != ""
    ensures r.Some? ==> r.value == Coord(num.parseFloat(Split(content, ';')[0]),
                                         num.parseFloat(Split(content, ';')[1]))
  {
    var parts := Split(content, ';');
    if |parts| > 1 && parts[0] != "" && parts[1] != "" then
      Some(Coord(num.parseFloat(parts[0]), num.parseFloat(parts[1])))
    else None
  }

  function MetaStage(meta: Option<string>, loc: Location, num: Numerals): (r: Location)
    ensures r.address == loc.address
    ensures loc.coords.Some? ==> r == loc
    ensures loc.coords.None? && meta.Some? ==> r.coords == MetaCoords(meta.value, num)
    ensures meta.None? ==> r == loc
  {
    if loc.coords.Some? then loc
    else
      match meta
      case None => loc
      case Some(content) => Location(loc.address, MetaCoords(content, num))
  }

  /** The first OpenStreetMap iframe whose `src` carries `mlat` and `mlon`. */
  function FirstOsm(srcs: seq<string>, env: Env): (r: Option<Coord>)
    ensures r.None? <==> forall k :: 0 <= k < |srcs| ==> env.osmCoords(srcs[k]).None?
    ensures r.Some? ==> exists k :: (0 <= k < |srcs| && env.osmCoords(srcs[k]).Some?
      && r.value == CoordOf(env.osmCoords(srcs[k]).value, env.num)
      && forall j :: 0 <= j < k ==> env.osmCoords(srcs[j]).None?)
  {
    if |srcs| == 0 then None
    else
      match env.osmCoords(srcs[0])
      case Some(p) => Some(CoordOf(p, env.num))
      case None =>
        assert forall j :: 1 <= j < |srcs| ==> srcs[j] == srcs[1..][j - 1];
        FirstOsm(srcs[1..], env)
  }

  function OsmStage(srcs: seq<string>, loc: Location, env: Env): (r: Location)
    ensures r.address == loc.address
    ensures loc.coords.Some? ==> r == loc
    ensures loc.coords.None? ==> r.coords == FirstOsm(srcs, env)
  {
    if loc.coords.Some? then loc else Location(loc.address, FirstOsm(srcs, env))
  }

  // ----- address fallbacks -----

  /** `text && text.length > 15 && text.length < 300`. */
  predicate PlausibleLength(text: string) {
    15 < |text| < 300
  }

  /** An `<address>` element worth taking: its trimmed text has a plausible length. */
  predicate TagFits(t: string) {
    PlausibleLength(Trim(t))
  }

  /** The trimmed text of the first `<address>` element of plausible length. */
  function FirstAddressTag(tags: seq<string>): (r: Option<string>)
    ensures r.None? <==> forall k :: 0 <= k < |tags| ==> !TagFits(tags[k])
    ensures r.Some? ==> exists k :: (0 <= k < |tags| && TagFits(tags[k]) && r.value == Trim(tags[k])
      && forall j :: 0 <= j < k ==> !TagFits(tags[j]))
  {
    match FindWhere(tags, TagFits)
    case None => None
    case Some(k) => Some(Trim(tags[k]))
  }

  function AddressTagStage(tags: seq<string>, loc: Location): (r: Location)
    ensures r.coords == loc.coords
    ensures Filled(loc.address) ==> r == loc
    ensures !Filled(loc.address) && FirstAddressTag(tags).Some? ==> r.address == FirstAddressTag(tags)
    ensures FirstAddressTag(tags).None? ==> r == loc
  {
    if Filled(loc.address) then loc
    else
      match FirstAddressTag(tags)
      case None => loc
      case Some(t) => Location(Some(t), loc.coords)
  }

  /** An element of an address selector worth reading: trimmed text of plausible length that the
      address pattern matches. */
  predicate Candidate(text: string, addressMatch: string -> Option<string>) {
    PlausibleLength(Trim(text)) && addressMatch(Trim(text)).Some?
  }

  /** The trimmed text of the first candidate element of one selector. */
  function FirstCandidate(texts: seq<string>, addressMatch: string -> Option<string>): (r: Option<string>)
    ensures r.None? <==> forall k :: 0 <= k < |texts| ==> !Candidate(texts[k], addressMatch)
    ensures r.Some? ==> exists k :: (0 <= k < |texts| && Candidate(texts[k], addressMatch)
      && r.value == Trim(texts[k])
      && forall j :: 0 <= j < k ==> !Candidate(texts[j], addressMatch))
  {
    if |texts| == 0 then None
    else if Candidate(texts[0], addressMatch) then Some(Trim(texts[0]))
    else
      assert forall j :: 1 <= j < |texts| ==> texts[j] == texts[1..][j - 1];
      FirstCandidate(texts[1..], addressMatch)
  }

  /** What one selector contributes: `None` when it has no candidate element, otherwise
      `extractAddressFromText` of the first one. */
  function SelectorContribution(texts: seq<string>, addressMatch: string -> Option<string>)
    : (r: Option<Option<string>>)
    ensures r.None? <==> FirstCandidate(texts, addressMatch).None?
  {
    match FirstCandidate(texts, addressMatch)
    case None => None
    case Some(text) => Some(ExtractAddressFromText(text, addressMatch))
  }

  /** The contribution `c` sets a non-empty address. */
  predicate FillsAddress(c: Option<Option<string>>) {
    c.Some? && Filled(c.value)
  }

  /** The address contributed by the first group whose contribution is non-empty. */
  function FirstFill(groups: seq<seq<string>>, contribute: seq<string> -> Option<Option<string>>)
    : (r: Option<string>)
    ensures r.None? <==> forall k :: 0 <= k < |groups| ==> !FillsAddress(contribute(groups[k]))
    ensures r.Some? ==> Filled(r) && exists k :: (0 <= k < |groups| && contribute(groups[k]) == Some(r)
      && forall j :: 0 <= j < k ==> !FillsAddress(contribute(groups[j])))
  {
    if |groups| == 0 then None
    else if FillsAddress(contribute(groups[0])) then contribute(groups[0]).value
    else
      assert forall j :: 1 <= j < |groups| ==> groups[j] == groups[1..][j - 1];
      FirstFill(groups[1..], contribute)
  }

  /** The loop over the selectors, each one's contribution given by `contribute`: a contribution
      replaces the address, and the loop ends once the address is non-empty. A falsy address ends
      up non-empty exactly when some selector contributes a non-empty one, and then it is the
      first such contribution. */
  function SelectorLoop(groups: seq<seq<string>>, loc: Location,
                        contribute: seq<string> -> Option<Option<string>>): (r: Location)
    ensures r.coords == loc.coords
    ensures Filled(loc.address) ==> r == loc
    ensures (forall k :: 0 <= k < |groups| ==> contribute(groups[k]).None?) ==> r == loc
    ensures !Filled(loc.address) ==> (Filled(r.address) <==> FirstFill(groups, contribute).Some?)
    ensures !Filled(loc.address) && Filled(r.address) ==> r.address == FirstFill(groups, contribute)
  {
    if Filled(loc.address) || |groups| == 0 then loc
    else
      var l := match contribute(groups[0])
        case None => loc
        case Some(a) => Location(a, loc.coords);
      var r := SelectorLoop(groups[1..], l, contribute);
      assert forall j :: 1 <= j < |groups| ==> groups[j] == groups[1..][j - 1];
      r
  }

  /** `SelectorContribution` as a function value. */
  function Contributions(addressMatch: string -> Option<string>): seq<string> -> Option<Option<string>> {
    texts => SelectorContribution(texts, addressMatch)
  }

  /** The address the selectors supply: `extractAddressFromText` of the first candidate element of
      the first selector for which that is non-empty. */
  function SelectorAddress(groups: seq<seq<string>>, addressMatch: string -> Option<string>): (r: Option<string>)
    ensures r.None? <==> forall k :: 0 <= k < |groups| ==> !FillsAddress(SelectorContribution(groups[k], addressMatch))
    ensures r.Some? ==> Filled(r) && exists k :: (0 <= k < |groups|
      && SelectorContribution(groups[k], addressMatch) == Some(r)
      && forall j :: 0 <= j < k ==> !FillsAddress(SelectorContribution(groups[j], addressMatch)))
  {
    FirstFill(groups, Contributions(addressMatch))
  }

  /** The selector stage of the cascade. */
  function SelectorStage(groups: seq<seq<string>>, loc: Location, addressMatch: string -> Option<string>)
    : (r: Location)
    ensures r.coords == loc.coords
    ensures Filled(loc.address) ==> r == loc
    ensures (forall k :: 0 <= k < |groups| ==> FirstCandidate(groups[k], addressMatch).None?) ==> r == loc
    ensures !Filled(loc.address) ==> (Filled(r.address) <==> SelectorAddress(groups, addressMatch).Some?)
    ensures !Filled(loc.address) && Filled(r.address) ==> r.address == SelectorAddress(groups, addressMatch)
  {
    SelectorLoop(groups, loc, Contributions(addressMatch))
  }

  /** The footer text joined over lines `i` to `i + 2` (fewer at the end). */
  function Window(lines: seq<string>, i: nat): string
    requires i < |lines|
  {
    Join(lines[i..if i + 3 < |lines| then i + 3 else |lines|], " ")
  }

  /** The first window, starting before the last line, that the address pattern matches. */
  function FirstWindow(lines: seq<string>, i: nat, addressMatch: string -> Option<string>): (r: Option<string>)
    ensures r.None? <==> forall j :: i <= j < |lines| - 1 ==> addressMatch(Window(lines, j)).None?
    ensures r.Some? ==> exists j :: (i <= j < |lines| - 1 && addressMatch(Window(lines, j)).Some?
      && r.value == Window(lines, j)
      && forall m :: i <= m < j ==> addressMatch(Window(lines, m)).None?)
    decreases |lines| - i
  {
    if i + 1 >= |lines| then None
    else if addressMatch(Window(lines, i)).Some? then Some(Window(lines, i))
    else FirstWindow(lines, i + 1, addressMatch)
  }

  /** `footerText.split("\n").map(l => l.trim())`: blank lines are kept. */
  function FooterLines(footer: string): (r: seq<string>)
    ensures |r| == |Split(footer, '\n')|
    ensures forall i :: 0 <= i < |r| ==> r[i] == Trim(Split(footer, '\n')[i])
  {
    var pieces := Split(footer, '\n');
    seq(|pieces|, i requires 0 <= i < |pieces| => Trim(pieces[i]))
  }

  /** The window of footer lines the footer stage takes, when there is a footer. */
  function FooterAddress(footer: Option<string>, addressMatch: string -> Option<string>): Option<string> {
    match footer
    case None => None
    case Some(text) => FirstWindow(FooterLines(text), 0, addressMatch)
  }

  function FooterStage(footer: Option<string>, loc: Location, addressMatch: string -> Option<string>)
    : (r: Location)
    ensures r.coords == loc.coords
    ensures Filled(loc.address) || footer.None? ==> r == loc
    ensures footer.Some? && '\n' !in footer.value ==> r == loc
    ensures !Filled(loc.address) && footer.Some? && FirstWindow(FooterLines(footer.value), 0, addressMatch).Some? ==>
      r.address == FirstWindow(FooterLines(footer.value), 0, addressMatch)
    ensures FooterAddress(footer, addressMatch).None? ==> r == loc
  {
    if Filled(loc.address) then loc
    else
      match footer
      case None => loc
      case Some(text) =>
        match FirstWindow(FooterLines(text), 0, addressMatch)
        case None => loc
        case Some(w) => Location(Some(w), loc.coords)
  }

  // ----- the whole cascade -----

  /** Some URL yields coordinates or an address before any `q=` value fails to decode. */
  predicate YieldsFirst(urls: seq<string>, env: Env) {
    exists k :: 0 <= k < |urls| && UrlYields(urls[k], env) && forall j :: 0 <= j <= k ==> !DecodeThrows(urls[j], env)
  }

  /** Some `q=` value fails to decode before any URL yields. */
  predicate ThrowsFirst(urls: seq<string>, env: Env) {
    exists k :: 0 <= k < |urls| && DecodeThrows(urls[k], env) && forall j :: 0 <= j < k ==> !UrlYields(urls[j], env)
  }

  /** The map iframes, then the map links when the iframes gave nothing; `None` when a `q=` value
      fails to decode. The links are read only when no iframe yields and none throws. */
  function MapStage(p: Page, env: Env): (r: Option<Location>)
    ensures ThrowsFirst(p.mapIframes, env) ==> r.None?
    ensures YieldsFirst(p.mapIframes, env) ==> r.Some? && HasAny(r.value)
    ensures !ThrowsFirst(p.mapIframes, env) && !YieldsFirst(p.mapIframes, env) ==>
      && (r.None? <==> ThrowsFirst(p.mapLinks, env))
      && (YieldsFirst(p.mapLinks, env) ==> r.Some? && HasAny(r.value))
  {
    match ScanMapUrls(p.mapIframes, Unset, env)
    case None => None
    case Some(s1) => if HasAny(s1) then Some(s1) else ScanMapUrls(p.mapLinks, s1, env)
  }

  /** Which loop decides: an iframe that yields first decides alone, and the links are scanned,
      from where the iframes left off, only when no iframe yields and none throws. */
  lemma MapStageReadsLinksLast(p: Page, env: Env)
    ensures YieldsFirst(p.mapIframes, env) ==> MapStage(p, env) == ScanMapUrls(p.mapIframes, Unset, env)
    ensures !ThrowsFirst(p.mapIframes, env) && !YieldsFirst(p.mapIframes, env) ==>
      && ScanMapUrls(p.mapIframes, Unset, env).Some?
      && !HasAny(ScanMapUrls(p.mapIframes, Unset, env).value)
      && MapStage(p, env) == ScanMapUrls(p.mapLinks, ScanMapUrls(p.mapIframes, Unset, env).value, env)
  {
  }

  /** `a || b` on the address variable. */
  function OrElse(a: Option<string>, b: Option<string>): Option<string> {
    if Filled(a) then a else b
  }

  /** `a || b` on the coordinates variable. */
  function OrSome(a: Option<Coord>, b: Option<Coord>): Option<Coord> {
    if a.Some? then a else b
  }

  /** The coordinates the `geo.position` meta tag supplies, if there is one. */
  function MetaOf(meta: Option<string>, num: Numerals): Option<Coord> {
    match meta
    case None => None
    case Some(content) => MetaCoords(content, num)
  }

  /** The coordinates the sources after the JSON-LD scripts supply, in priority order. */
  function LaterCoords(p: Page, env: Env): Option<Coord> {
    OrSome(MetaOf(p.geoMeta, env.num), FirstOsm(p.osmIframes, env))
  }

  /** The address the sources after the JSON-LD scripts supply, in priority order. */
  function LaterAddress(p: Page, env: Env): Option<string> {
    OrElse(FirstAddressTag(p.addressTags),
      OrElse(SelectorAddress(p.selectorHits, env.addressMatch), FooterAddress(p.footer, env.addressMatch)))
  }

  /** The coordinates every source after the maps supplies, in priority order, behind those the
      maps gave (`s`). */
  function CascadeCoords(p: Page, s: Location, env: Env): Option<Coord> {
    OrSome(s.coords, OrSome(FirstGeo(p.ldScripts, env.num), LaterCoords(p, env)))
  }

  /** The address every source after the maps supplies, in priority order, behind the one the
      maps gave (`s`); the JSON-LD scripts are read only when the maps gave no coordinates. */
  function CascadeAddress(p: Page, s: Location, env: Env): Option<string> {
    OrElse(s.address, OrElse(if s.coords.None? then FirstLdAddress(p.ldScripts, env.num.show) else None,
                             LaterAddress(p, env)))
  }

  /** The coordinate stages after the maps, and then the address stages: unset coordinates come
      from the first JSON-LD script that has any, else the later sources; a falsy address comes
      from the JSON-LD scripts only when the maps gave no coordinates, else the later sources. */
  function Cascade(p: Page, s: Location, env: Env): (r: Location)
    ensures r.coords == CascadeCoords(p, s, env)
    ensures Filled(r.address) <==> Filled(CascadeAddress(p, s, env))
    ensures Filled(r.address) ==> r.address == CascadeAddress(p, s, env)
  {
    LaterStages(p, LdStage(p.ldScripts, s, env.num), env)
  }

  /** The stages after the JSON-LD scripts: meta tag, OpenStreetMap, `<address>`, selectors, footer.
      Each fills only what is still unset, so what is set stays and the first source that has
      something supplies it. */
  function LaterStages(p: Page, s: Location, env: Env): (r: Location)
    ensures r.coords == OrSome(s.coords, LaterCoords(p, env))
    ensures Filled(r.address) <==> Filled(OrElse(s.address, LaterAddress(p, env)))
    ensures Filled(r.address) ==> r.address == OrElse(s.address, LaterAddress(p, env))
  {
    var s4 := MetaStage(p.geoMeta, s, env.num);
    var s5 := OsmStage(p.osmIframes, s4, env);
    var s6 := AddressTagStage(p.addressTags, s5);
    var s7 := SelectorStage(p.selectorHits, s6, env.addressMatch);
    FooterStage(p.footer, s7, env.addressMatch)
  }

  /** The `page.evaluate` call: `{ address, coords }`, or `None` when it throws. */
  function Locate(p: Page, env: Env): (r: Option<Location>)
    ensures r.None? <==> MapStage(p, env).None?
    ensures r.Some? ==> r.value.coords == CascadeCoords(p, MapStage(p, env).value, env)
    ensures r.Some? ==> (Filled(r.value.address) <==> Filled(CascadeAddress(p, MapStage(p, env).value, env)))
    ensures r.Some? && Filled(r.value.address) ==> r.value.address == CascadeAddress(p, MapStage(p, env).value, env)
  {
    match MapStage(p, env)
    case None => None
    case Some(s) => Some(Cascade(p, s, env))
  }

  /** The map links are consulted only when the iframes yield neither coordinates nor an address. */
  lemma MapLinksIgnoredWhenIframesYield(p: Page, links: seq<string>, env: Env)
    requires exists k :: (0 <= k < |p.mapIframes| && UrlYields(p.mapIframes[k], env)
      && forall j :: 0 <= j <= k ==> !DecodeThrows(p.mapIframes[j], env))
    ensures Locate(p, env) == Locate(p.(mapLinks := links), env)
    ensures Locate(p, env).Some?
  {
  }

  /** Coordinates found on a map are final: the JSON-LD, meta and OpenStreetMap sources are never
      consulted, and only the address stages still run. */
  lemma MapCoordinatesAreFinal(p: Page, env: Env, ld: seq<Option<Json>>, meta: Option<string>, osm: seq<string>)
    requires MapStage(p, env).Some? && MapStage(p, env).value.coords.Some?
    ensures Locate(p, env).Some? && Locate(p, env).value.coords == MapStage(p, env).value.coords
    ensures Locate(p, env) == Locate(p.(ldScripts := ld, geoMeta := meta, osmIframes := osm), env)
  {
  }

  /** Once an address is known after the coordinate stages, the `<address>` elements, the address
      selectors and the footer are never read. */
  lemma LaterAddressSourcesIgnored(p: Page, env: Env, tags: seq<string>, hits: seq<seq<string>>,
                                   footer: Option<string>)
    requires MapStage(p, env).Some?
    requires var s := MapStage(p, env).value;
      Filled(OsmStage(p.osmIframes, MetaStage(p.geoMeta, LdStage(p.ldScripts, s, env.num), env.num), env).address)
    ensures Locate(p, env) == Locate(p.(addressTags := tags, selectorHits := hits, footer := footer), env)
  {
  }

  /** The address stages never touch the coordinates: the result's coordinates are those the
      coordinate stages settled on. */
  lemma AddressStagesKeepCoordinates(p: Page, env: Env)
    requires MapStage(p, env).Some?
    ensures var s := MapStage(p, env).value;
      Locate(p, env).value.coords
        == OsmStage(p.osmIframes, MetaStage(p.geoMeta, LdStage(p.ldScripts, s, env.num), env.num), env).coords
  {
  }

  // ----- the script loop as written -----

  /** A script whose turn would reach the loop's `catch`: it does not parse, or `findAddress`
      throws on it while the address is still falsy. */
  predicate ScriptFails(script: Option<Json>, loc: Location, num: Numerals) {
    script.None? || (!Filled(loc.address) && FindAddress(script.value, num.show).Fault?)
  }

  /** The script loop as written. Its `catch` calls `logger`, a binding of the server's module
      that does not exist inside the page the callback is evaluated in, so reaching the `catch`
      throws out of the whole evaluation (`None`) instead of skipping the script. */
  function ScanScriptsAsWritten(scripts: seq<Option<Json>>, loc: Location, num: Numerals): (r: Option<Location>)
    ensures r.Some? ==> r.value == ScanScripts(scripts, loc, num)
    ensures |scripts| > 0 && ScriptFails(scripts[0], loc, num) ==> r.None?
  {
    if |scripts| == 0 then Some(loc)
    else if ScriptFails(scripts[0], loc, num) then None
    else
      var l := ReadScript(scripts[0].value, loc, num);
      if Filled(l.address) && l.coords.Some? then Some(l)
      else
        assert forall j :: 1 <= j < |scripts| ==> scripts[j] == scripts[1..][j - 1];
        ScanScriptsAsWritten(scripts[1..], l, num)
  }

  /** Some element of some selector has a trimmed text of plausible length, so the selector loop
      reaches its `addressRegex.test`. */
  predicate ReachesAddressPattern(groups: seq<seq<string>>) {
    exists k, i :: 0 <= k < |groups| && 0 <= i < |groups[k]| && PlausibleLength(Trim(groups[k][i]))
  }

  /** The selector stage as written. `addressRegex` and `extractAddressFromText` are bindings of
      the server's module that do not exist inside the page, so the first element of plausible
      length throws out of the whole evaluation (`None`); otherwise nothing is set. */
  function SelectorStageAsWritten(groups: seq<seq<string>>, loc: Location): (r: Option<Location>)
    ensures r.None? <==> !Filled(loc.address) && ReachesAddressPattern(groups)
    ensures r.Some? ==> r.value == loc
  {
    if Filled(loc.address) || !ReachesAddressPattern(groups) then Some(loc) else None
  }

  /** Where the written selector stage does not throw, it agrees with the corrected one. */
  lemma SelectorStageAgreesWhenItReturns(groups: seq<seq<string>>, loc: Location, addressMatch: string -> Option<string>)
    requires SelectorStageAsWritten(groups, loc).Some?
    ensures SelectorStageAsWritten(groups, loc).value == SelectorStage(groups, loc, addressMatch)
  {
    if !Filled(loc.address) {
      forall k | 0 <= k < |groups| ensures FirstCandidate(groups[k], addressMatch).None? {
        forall i | 0 <= i < |groups[k]| ensures !Candidate(groups[k][i], addressMatch) {
          assert !PlausibleLength(Trim(groups[k][i]));
        }
      }
    }
  }

  /** The footer stage as written: with two lines or more the loop reaches `addressRegex.test`,
      which throws for the same reason. */
  function FooterStageAsWritten(footer: Option<string>, loc: Location): (r: Option<Location>)
    ensures r.None? <==> !Filled(loc.address) && footer.Some? && '\n' in footer.value
    ensures r.Some? ==> r.value == loc
  {
    if Filled(loc.address) then Some(loc)
    else
      match footer
      case None => Some(loc)
      case Some(text) => if |FooterLines(text)| >= 2 then None else Some(loc)
  }

  /** Where the written footer stage does not throw, it agrees with the corrected one. */
  lemma FooterStageAgreesWhenItReturns(footer: Option<string>, loc: Location, addressMatch: string -> Option<string>)
    requires FooterStageAsWritten(footer, loc).Some?
    ensures FooterStageAsWritten(footer, loc).value == FooterStage(footer, loc, addressMatch)
  {
  }

  /** The `page.evaluate` call as written: the script loop, the selector loop and the footer loop
      can each throw it away, map coordinates included. */
  function LocateAsWritten(p: Page, env: Env): (r: Option<Location>)
    ensures r.Some? ==> r == Locate(p, env)
    ensures MapStage(p, env).None? ==> r.None?
  {
    match MapStage(p, env)
    case None => None
    case Some(s) =>
      var s3 := if s.coords.Some? then Some(s) else ScanScriptsAsWritten(p.ldScripts, s, env.num);
      match s3
      case None => None
      case Some(s3) =>
        assert s.coords.None? ==> s3 == LdStage(p.ldScripts, s, env.num);
        var s5 := OsmStage(p.osmIframes, MetaStage(p.geoMeta, s3, env.num), env);
        var s6 := AddressTagStage(p.addressTags, s5);
        match SelectorStageAsWritten(p.selectorHits, s6)
        case None => None
        case Some(s7) =>
          SelectorStageAgreesWhenItReturns(p.selectorHits, s6, env.addressMatch);
          match FooterStageAsWritten(p.footer, s7)
          case None => None
          case Some(s8) =>
            FooterStageAgreesWhenItReturns(p.footer, s7, env.addressMatch);
            Some(s8)
  }

  /** A Google Maps iframe with coordinates and no `q=`, no `<address>` element, no selector
      hits and a footer of two lines: the evaluation as written throws in the footer loop and the
      map coordinates are lost, while the corrected one keeps them. */
  lemma FooterLosesMapCoordinatesAsWritten(p: Page, env: Env)
    requires MapStage(p, env).Some? && MapStage(p, env).value.coords.Some?
    requires !Filled(MapStage(p, env).value.address)
    requires FirstAddressTag(p.addressTags).None? && p.selectorHits == []
    requires p.footer.Some? && '\n' in p.footer.value
    ensures LocateAsWritten(p, env).None?
    ensures Locate(p, env).Some? && Locate(p, env).value.coords == MapStage(p, env).value.coords
  {
    var s := MapStage(p, env).value;
    var s5 := OsmStage(p.osmIframes, MetaStage(p.geoMeta, s, env.num), env);
    assert s5 == s;
    assert AddressTagStage(p.addressTags, s5) == s;
    assert SelectorStageAsWritten(p.selectorHits, s) == Some(s);
  }

  /** A page with no map, one JSON-LD script that does not parse (an empty one, say) and an
      `<address>` element of plausible length: the evaluation as written returns nothing, while
      the corrected one finds the address. */
  lemma UnparsableScriptLosesAddressAsWritten(p: Page, env: Env)
    requires p.mapIframes == [] && p.mapLinks == [] && p.ldScripts == [None]
    requires FirstAddressTag(p.addressTags).Some?
    ensures LocateAsWritten(p, env).None?
    ensures Locate(p, env).Some? && Locate(p, env).value.address == FirstAddressTag(p.addressTags)
  {
    UnparsableScriptThrowsAsWritten(p, env);
    assert MapStage(p, env) == Some(Unset);
    assert FirstLdAddress(p.ldScripts, env.num.show).None?;
    assert Filled(FirstAddressTag(p.addressTags));
    assert CascadeAddress(p, Unset, env) == FirstAddressTag(p.addressTags);
  }

  lemma UnparsableScriptThrowsAsWritten(p: Page, env: Env)
    requires p.mapIframes == [] && p.mapLinks == [] && p.ldScripts == [None]
    ensures LocateAsWritten(p, env).None?
  {
    assert MapStage(p, env) == Some(Unset);
    assert ScanScriptsAsWritten(p.ldScripts, Unset, env.num).None?;
  }

  /** A script that parses and never throws is handled the same way by both versions: the
      corrected cascade differs only where the written one throws. */
  lemma {:induction false} ScanScriptsAgreeWithoutFailures(scripts: seq<Option<Json>>, loc: Location, num: Numerals)
    requires forall k :: 0 <= k < |scripts| ==> scripts[k].Some? && !FindAddress(scripts[k].value, num.show).Fault?
    ensures ScanScriptsAsWritten(scripts, loc, num) == Some(ScanScripts(scripts, loc, num))
    decreases |scripts|
  {
    if |scripts| > 0 {
      var l := ReadScript(scripts[0].value, loc, num);
      if !(Filled(l.address) && l.coords.Some?) {
        assert forall j :: 1 <= j < |scripts[1..]| ==> scripts[1..][j] == scripts[j + 1];
        ScanScriptsAgreeWithoutFailures(scripts[1..], l, num);
      }
    }
  }
}
