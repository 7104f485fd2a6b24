/** `contactScrapping` of src/scrapping/contact.scrapping.ts: the per-page extraction
    (`extractContactInfo`), the social-link scan, the choice of fallback pages and the merge of
    what they yield into the result. The browser is replaced by page snapshots and outcomes. */
module Extraction {
  import opened Wrappers
  import opened Seqs
  import opened Text
  import opened Records
  import opened Heuristics
  import opened Snapshot
  import opened Location

  /** What `extractContactInfo` returns for one page. `coords: None` is null. */
  datatype PageData = PageData(phones: seq<string>, socials: Socials, address: Option<string>,
                               coords: Option<Coord>)

  // ----- phones -----

  /** The canonical forms of the numbers libphonenumber accepts among `raws`, in order. */
  function ValidPhones(raws: seq<string>, canonical: string -> Option<string>): (r: seq<string>)
    ensures forall p :: p in r <==> exists raw :: raw in raws && canonical(raw) == Some(p)
  {
    if |raws| == 0 then []
    else
      var rest := ValidPhones(raws[1..], canonical);
      assert forall raw :: raw in raws <==> raw == raws[0] || raw in raws[1..];
      match canonical(raws[0])
      case None => rest
      case Some(p) => [p] + rest
  }

  /** The numbers of the `tel:` links: the anchors whose `href` attribute starts with `tel:`
      (case-sensitively), each read as its resolved `href` with the first `tel:` removed, trimmed. */
  function TelTargets(anchors: seq<Anchor>): (r: seq<string>)
    ensures |r| <= |anchors|
    ensures forall t :: t in r <==> exists a :: (a in anchors && StartsWith(a.attribute, "tel:")
      && t == Trim(ReplaceFirst(a.href, "tel:", "")))
  {
    if |anchors| == 0 then []
    else
      var a := anchors[0];
      var rest := TelTargets(anchors[1..]);
      assert forall x :: x in anchors <==> x == a || x in anchors[1..];
      if StartsWith(a.attribute, "tel:") then [Trim(ReplaceFirst(a.href, "tel:", ""))] + rest else rest
  }

  /** The visible text as the extraction reads it: white-space runs collapsed, then trimmed. */
  function VisibleText(p: Page): string {
    Trim(CollapseSpaces(p.bodyText))
  }

  /** The visible text keeps every other character of the body text, in order. */
  lemma VisibleTextKeepsWords(p: Page)
    ensures NonSpaces(VisibleText(p)) == NonSpaces(p.bodyText)
  {
    CollapseThenTrimKeepsNonSpaces(p.bodyText);
  }

  /** The only white space of the visible text is single plain spaces between words. */
  lemma VisibleTextSingleSpaced(p: Page)
    ensures var t := VisibleText(p); t == [] || (!IsSpace(t[0]) && !IsSpace(t[|t| - 1]))
    ensures SingleSpaced(VisibleText(p))
  {
    TrimKeepsSingleSpaces(CollapseSpaces(p.bodyText));
  }

  // ----- socials -----

  /** The lower-cased link names platform `p`. */
  predicate Marks(l: string, p: Platform) {
    match p
    case Facebook => Contains(l, "facebook.com")
    case Instagram => Contains(l, "instagram.com")
    case LinkedIn => Contains(l, "linkedin.com")
    case Twitter => Contains(l, "twitter.com") || Contains(l, "x.com")
    case TikTok => Contains(l, "tiktok.com")
  }

  /** One pass of the loop over the links: every platform the link names and that has no link yet
      gets this link, in its original case. */
  function AddLink(acc: Socials, link: string): (r: Socials)
    ensures forall p :: p in acc ==> p in r && r[p] == acc[p]
    ensures forall p :: p !in acc ==> (p in r <==> Marks(ToLower(link), p))
    ensures forall p :: p in r && p !in acc ==> r[p] == link
  {
    EveryPlatformListed();
    map p | p in AllPlatforms && (p in acc || Marks(ToLower(link), p)) :: if p in acc then acc[p] else link
  }

  lemma EveryPlatformListed()
    ensures forall p: Platform :: p in AllPlatforms
  {
    forall p: Platform ensures p in AllPlatforms {
      match p
      case Facebook =>
      case Instagram =>
      case LinkedIn =>
      case Twitter =>
      case TikTok =>
    }
  }

  /** The loop over every link of the page. */
  function CollectSocials(links: seq<string>, acc: Socials): (r: Socials)
    ensures forall p :: p in acc ==> p in r && r[p] == acc[p]
    decreases |links|
  {
    if |links| == 0 then acc else CollectSocials(links[1..], AddLink(acc, links[0]))
  }

  /** The reference definition, one platform at a time: the first link that names it. */
  function FirstMarked(links: seq<string>, p: Platform): (r: Option<string>)
    ensures r.Some? ==> r.value in links && Marks(ToLower(r.value), p)
    ensures r.None? ==> forall l :: l in links ==> !Marks(ToLower(l), p)
  {
    if |links| == 0 then None
    else if Marks(ToLower(links[0]), p) then Some(links[0])
    else
      assert forall l :: l in links ==> l == links[0] || l in links[1..];
      FirstMarked(links[1..], p)
  }

  /** The single pass over the links gives each platform the first link naming it. */
  lemma {:induction false} CollectSocialsIsFirstMarked(links: seq<string>, acc: Socials, p: Platform)
    requires p !in acc
    ensures p in CollectSocials(links, acc) <==> FirstMarked(links, p).Some?
    ensures p in CollectSocials(links, acc) ==> CollectSocials(links, acc)[p] == FirstMarked(links, p).value
    decreases |links|
  {
    if |links| > 0 {
      var next := AddLink(acc, links[0]);
      if p !in next {
        CollectSocialsIsFirstMarked(links[1..], next, p);
      }
    }
  }

  /** The socials of a page, as the per-platform first links. */
  function PageSocials(links: seq<string>): (r: Socials)
    ensures forall p :: p in r <==> FirstMarked(links, p).Some?
    ensures forall p :: p in r ==> r[p] == FirstMarked(links, p).value
  {
    var r := CollectSocials(links, map[]);
    assert forall p :: ((p in r <==> FirstMarked(links, p).Some?)
      && (p in r ==> r[p] == FirstMarked(links, p).value)) by {
      forall p ensures (p in r <==> FirstMarked(links, p).Some?)
        && (p in r ==> r[p] == FirstMarked(links, p).value) {
        CollectSocialsIsFirstMarked(links, map[], p);
      }
    }
    r
  }

  // ----- one page -----

  /** `x` is a phone of the page: the canonical form of a valid number in the text or in a `tel:`
      link, or a heuristic number of the address or of the text. */
  predicate FromPhoneSources(x: string, text: string, anchors: seq<Anchor>, address: Option<string>, env: Env) {
    || (exists raw :: raw in env.phoneMatches(text) && env.canonicalPhone(raw) == Some(x))
    || (exists t :: t in TelTargets(anchors) && env.canonicalPhone(t) == Some(x))
    || (address.Some? && x in ExtractPhoneNumbers(address.value, env.phoneMatches))
    || x in ExtractPhoneNumbers(text, env.phoneMatches)
  }

  /** The phones of one page: the libphonenumber-valid numbers of the text and of the `tel:`
      links, then the heuristic numbers of the address and of the text, without repeats and in
      that order of first appearance. */
  function PagePhones(text: string, anchors: seq<Anchor>, address: Option<string>, env: Env): (r: seq<string>)
    ensures NoDups(r)
    ensures forall x :: x in r <==> FromPhoneSources(x, text, anchors, address, env)
  {
    var valid := ValidPhones(env.phoneMatches(text), env.canonicalPhone)
                 + ValidPhones(TelTargets(anchors), env.canonicalPhone);
    var fromAddress := ExtractPhoneNumbers(if address.Some? then address.value else "", env.phoneMatches);
    Dedup(Dedup(valid) + fromAddress + ExtractPhoneNumbers(text, env.phoneMatches))
  }

  /** The address of one page: the cascade's when it is non-empty, else the first address line of
      the visible text. */
  function PageAddress(loc: Option<Location>, text: string, addressMatch: string -> Option<string>)
    : (r: Option<string>)
    ensures loc.Some? && Filled(loc.value.address) ==> r == loc.value.address
    ensures !(loc.Some? && Filled(loc.value.address)) ==> r == ExtractAddressFromText(text, addressMatch)
  {
    if loc.Some? && Filled(loc.value.address) then loc.value.address
    else ExtractAddressFromText(text, addressMatch)
  }

  /** `extractContactInfo(page)`. A cascade that threw contributes neither address nor
      coordinates. The coordinates are those of the highest-priority source that has any; the
      address is the highest-priority non-empty one, else the first address line of the visible
      text; the phones come from the text, the `tel:` links and the final address; each platform
      gets the first link naming it. */
  function ExtractPage(p: Page, env: Env): (r: PageData)
    ensures MapStage(p, env).None? ==> r.coords.None?
    ensures MapStage(p, env).Some? ==> r.coords == CascadeCoords(p, MapStage(p, env).value, env)
    ensures MapStage(p, env).Some? && Filled(CascadeAddress(p, MapStage(p, env).value, env)) ==>
      r.address == CascadeAddress(p, MapStage(p, env).value, env)
    ensures !(MapStage(p, env).Some? && Filled(CascadeAddress(p, MapStage(p, env).value, env))) ==>
      r.address == ExtractAddressFromText(VisibleText(p), env.addressMatch)
    ensures NoDups(r.phones)
    ensures forall x :: x in r.phones <==> FromPhoneSources(x, VisibleText(p), p.anchors, r.address, env)
    ensures forall pl :: pl in r.socials <==> FirstMarked(Hrefs(p.anchors), pl).Some?
    ensures forall pl :: pl in r.socials ==> r.socials[pl] == FirstMarked(Hrefs(p.anchors), pl).value
  {
    Assemble(VisibleText(p), p.anchors, Locate(p, env), env)
  }

  /** A page's data from its visible text, its anchors and the outcome of the location cascade. */
  function Assemble(text: string, anchors: seq<Anchor>, loc: Option<Location>, env: Env): (r: PageData)
    ensures r.address == PageAddress(loc, text, env.addressMatch)
    ensures r.coords == if loc.Some? then loc.value.coords else None
    ensures NoDups(r.phones)
    ensures forall x :: x in r.phones <==> FromPhoneSources(x, text, anchors, r.address, env)
    ensures forall pl :: pl in r.socials <==> FirstMarked(Hrefs(anchors), pl).Some?
    ensures forall pl :: pl in r.socials ==> r.socials[pl] == FirstMarked(Hrefs(anchors), pl).value
  {
    var address := PageAddress(loc, text, env.addressMatch);
    PageData(PagePhones(text, anchors, address, env), PageSocials(Hrefs(anchors)), address,
             if loc.Some? then loc.value.coords else None)
  }

  function Hrefs(anchors: seq<Anchor>): (r: seq<string>)
    ensures |r| == |anchors|
    ensures forall i :: 0 <= i < |anchors| ==> r[i] == anchors[i].href
  {
    seq(|anchors|, i requires 0 <= i < |anchors| => anchors[i].href)
  }

  // ----- fallback pages -----

  /** An anchor that may lead to a contact or location page on the same site: a keyword in the
      lower-cased `href` or text, and an absolute `http` link only when it mentions the host name. */
  function IsFallback(a: Anchor, host: string): (r: bool)
    ensures StartsWith(a.href, "http") && !Contains(a.href, host) ==> !r
    ensures !StartsWith(a.href, "http") && Contains(ToLower(a.href), "contact") ==> r
    ensures r ==>
      || Contains(ToLower(a.href), "contact") || Contains(ToLower(a.text), "find us")
      || Contains(ToLower(a.href), "location") || Contains(ToLower(a.text), "where")
      || Contains(ToLower(a.text), "directions") || Contains(ToLower(a.href), "about")
      || Contains(ToLower(a.href), "terms") || Contains(ToLower(a.href), "legal")
      || Contains(ToLower(a.href), "imprint") || Contains(ToLower(a.href), "impressum")
  {
    var href := ToLower(a.href);
    var text := ToLower(a.text);
    && (|| Contains(href, "contact") || Contains(text, "find us") || Contains(href, "location")
        || Contains(text, "where") || Contains(text, "directions") || Contains(href, "about")
        || Contains(href, "terms") || Contains(href, "legal") || Contains(href, "imprint")
        || Contains(href, "impressum"))
    && (StartsWith(a.href, "http") ==> Contains(a.href, host))
  }

  const MaxFallbacks := 7

  /** The fallback anchors, in document order, a repeated anchor as often as it occurs. */
  function FallbackAnchors(anchors: seq<Anchor>, host: string): (r: seq<Anchor>)
    ensures forall a :: a in r <==> a in anchors && IsFallback(a, host)
    ensures forall a :: multiset(r)[a] == if IsFallback(a, host) then multiset(anchors)[a] else 0
    ensures IsSubsequence(r, anchors)
  {
    var keep := (a: Anchor) => IsFallback(a, host);
    FilterIsSubsequence(anchors, keep);
    FilterCounts(anchors, keep);
    Filter(anchors, keep)
  }

  /** `possibleContactLinks`: the `href` of the first seven fallback anchors, in document order. */
  function FallbackLinks(anchors: seq<Anchor>, host: string): (r: seq<string>)
    ensures |r| == if |FallbackAnchors(anchors, host)| < MaxFallbacks then |FallbackAnchors(anchors, host)| else MaxFallbacks
    ensures forall i :: 0 <= i < |r| ==> r[i] == FallbackAnchors(anchors, host)[i].href
    ensures forall x :: x in r ==> exists a :: a in anchors && IsFallback(a, host) && a.href == x
  {
    var picked := FallbackAnchors(anchors, host);
    var r := Take(Hrefs(picked), MaxFallbacks);
    assert forall x :: x in r ==> exists a :: a in anchors && IsFallback(a, host) && a.href == x by {
      forall x | x in r ensures exists a :: a in anchors && IsFallback(a, host) && a.href == x {
        var j :| 0 <= j < |r| && r[j] == x;
        assert picked[j] in picked && picked[j].href == x;
      }
    }
    r
  }

  /** A contact link that appears twice, in the header and in the footer say, is kept twice and
      so takes two of the seven slots. */
  lemma RepeatedFallbackTakesTwoSlots(a: Anchor, host: string)
    requires IsFallback(a, host)
    ensures FallbackAnchors([a, a], host) == [a, a]
    ensures FallbackLinks([a, a], host) == [a.href, a.href]
  {
  }

  /** The merge of a fallback page into the result: new phones are appended without repeats, the
      page's socials override, and the address and coordinates are taken only while still missing. */
  function MergePage(acc: ContactData, d: PageData): (r: ContactData)
    ensures r.url == acc.url && r.success == acc.success && r.error == acc.error
    ensures Filled(acc.address) ==> r.address == acc.address
    ensures !Filled(acc.address) && Filled(d.address) ==> r.address == d.address
    ensures acc.coords.Val? ==> r.coords == acc.coords
    ensures !acc.coords.Val? && d.coords.Some? ==> r.coords == Val(d.coords.value)
    ensures forall s :: s in r.socials <==> s in acc.socials || s in d.socials
    ensures forall s :: s in d.socials ==> r.socials[s] == d.socials[s]
    ensures forall s :: s in acc.socials && s !in d.socials ==> r.socials[s] == acc.socials[s]
    ensures forall x :: x in r.phones <==> x in acc.phones || x in d.phones
    ensures NoDups(acc.phones) ==> (NoDups(r.phones) && |acc.phones| <= |r.phones|
      && r.phones[..|acc.phones|] == acc.phones)
  {
    var phones := if |d.phones| > 0 then Dedup(acc.phones + d.phones) else acc.phones;
    assert NoDups(acc.phones) && |d.phones| > 0 ==>
      |acc.phones| <= |phones| && phones[..|acc.phones|] == acc.phones by {
      if NoDups(acc.phones) && |d.phones| > 0 {
        DedupUnionKeepsPrefix(acc.phones, d.phones);
      }
    }
    acc.(phones := phones,
         socials := acc.socials + d.socials,
         address := if Filled(d.address) && !Filled(acc.address) then d.address else acc.address,
         coords := if d.coords.Some? && !acc.coords.Val? then Val(d.coords.value) else acc.coords)
  }

  /** Both the address and the coordinates are known: the loop over fallback pages stops. */
  predicate Resolved(acc: ContactData) {
    Filled(acc.address) && acc.coords.Val?
  }

  /** No successful visit of `links` yields a link for platform `s`. */
  predicate NoVisitNames(links: seq<string>, s: Platform, visit: string -> Attempt<PageData>) {
    forall k :: 0 <= k < |links| && visit(links[k]).Done? ==> s !in visit(links[k]).value.socials
  }

  /** Some successful visit of `links` yields phone `x`. */
  predicate SomeVisitHasPhone(links: seq<string>, x: string, visit: string -> Attempt<PageData>) {
    exists k :: 0 <= k < |links| && visit(links[k]).Done? && x in visit(links[k]).value.phones
  }

  /** The loop over the fallback links. `visit(link)` is the outcome of loading the page and
      extracting from it; a visit that throws is skipped. */
  function VisitFallbacks(links: seq<string>, acc: ContactData, visit: string -> Attempt<PageData>)
    : (r: ContactData)
    ensures r.url == acc.url && r.success == acc.success && r.error == acc.error
    ensures Filled(acc.address) ==> r.address == acc.address
    ensures acc.coords.Val? ==> r.coords == acc.coords
    ensures NoDups(acc.phones) ==> (NoDups(r.phones) && |acc.phones| <= |r.phones|
      && r.phones[..|acc.phones|] == acc.phones)
    ensures forall s :: s in acc.socials ==> s in r.socials
    ensures forall s :: s in acc.socials && NoVisitNames(links, s, visit) ==> r.socials[s] == acc.socials[s]
    ensures forall x :: x in acc.phones ==> x in r.phones
    ensures forall x :: x in r.phones ==> x in acc.phones || SomeVisitHasPhone(links, x, visit)
    ensures |links| > 0 && visit(links[0]).Done? ==> var d := visit(links[0]).value;
      && (forall x :: x in d.phones ==> x in r.phones)
      && (forall s :: s in d.socials ==> s in r.socials)
      && (!Filled(acc.address) && Filled(d.address) ==> r.address == d.address)
      && (!acc.coords.Val? && d.coords.Some? ==> r.coords == Val(d.coords.value))
    decreases |links|
  {
    if |links| == 0 then acc
    else
      assert forall k :: 1 <= k < |links| ==> links[k] == links[1..][k - 1];
      match visit(links[0])
      case Threw(_) => VisitFallbacks(links[1..], acc, visit)
      case Done(d) =>
        var merged := MergePage(acc, d);
        if Resolved(merged) then merged
        else
          var r := VisitFallbacks(links[1..], merged, visit);
          assert NoDups(acc.phones) ==> r.phones[..|acc.phones|] == r.phones[..|merged.phones|][..|acc.phones|];
          r
  }

  /** A visit that throws is swallowed: the loop goes on with the next link, from the same state. */
  lemma FailedVisitSkipped(links: seq<string>, acc: ContactData, visit: string -> Attempt<PageData>)
    requires |links| > 0 && visit(links[0]).Threw?
    ensures VisitFallbacks(links, acc, visit) == VisitFallbacks(links[1..], acc, visit)
  {
  }

  /** A page that leaves the address or the coordinates unknown is merged, and the loop goes on
      with the next link from the merged state. */
  lemma UnresolvedMergeContinues(links: seq<string>, acc: ContactData, visit: string -> Attempt<PageData>)
    requires |links| > 0 && visit(links[0]).Done?
    requires !Resolved(MergePage(acc, visit(links[0]).value))
    ensures VisitFallbacks(links, acc, visit) == VisitFallbacks(links[1..], MergePage(acc, visit(links[0]).value), visit)
  {
  }

  /** A run over `a` that ends unresolved never stopped early, so running over `a + b` is running
      over `a`, then over `b` from where `a` left off. */
  lemma {:induction false} VisitCompose(a: seq<string>, b: seq<string>, acc: ContactData,
                                        visit: string -> Attempt<PageData>)
    requires !Resolved(VisitFallbacks(a, acc, visit))
    ensures VisitFallbacks(a + b, acc, visit) == VisitFallbacks(b, VisitFallbacks(a, acc, visit), visit)
    decreases |a|
  {
    if |a| == 0 {
      assert a + b == b;
    } else {
      assert (a + b)[0] == a[0];
      assert (a + b)[1..] == a[1..] + b;
      match visit(a[0])
      case Threw(_) =>
        VisitCompose(a[1..], b, acc, visit);
      case Done(d) =>
        VisitCompose(a[1..], b, MergePage(acc, d), visit);
    }
  }

  /** Every link reached while the result is still unresolved is visited, and a successful visit
      contributes all its phones and platforms, and its address and coordinates where those are
      still unknown. */
  lemma EveryVisitBeforeResolvedContributes(links: seq<string>, k: nat, acc: ContactData,
                                            visit: string -> Attempt<PageData>)
    requires k < |links| && visit(links[k]).Done?
    requires !Resolved(VisitFallbacks(links[..k], acc, visit))
    ensures var d := visit(links[k]).value;
      var before := VisitFallbacks(links[..k], acc, visit);
      var r := VisitFallbacks(links, acc, visit);
      && (forall x :: x in d.phones ==> x in r.phones)
      && (forall s :: s in d.socials ==> s in r.socials)
      && (!Filled(before.address) && Filled(d.address) ==> r.address == d.address)
      && (!before.coords.Val? && d.coords.Some? ==> r.coords == Val(d.coords.value))
  {
    var rest := links[k..];
    var before := VisitFallbacks(links[..k], acc, visit);
    assert links[..k] + rest == links;
    assert |rest| > 0 && rest[0] == links[k];
    VisitCompose(links[..k], rest, acc, visit);
    assert VisitFallbacks(links, acc, visit) == VisitFallbacks(rest, before, visit);
  }

  /** When every visit throws, the result is untouched. */
  lemma {:induction false} AllVisitsFailing(links: seq<string>, acc: ContactData, visit: string -> Attempt<PageData>)
    requires forall k :: 0 <= k < |links| ==> visit(links[k]).Threw?
    ensures VisitFallbacks(links, acc, visit) == acc
    decreases |links|
  {
    if |links| > 0 {
      assert forall k :: 0 <= k < |links| - 1 ==> links[1..][k] == links[k + 1];
      AllVisitsFailing(links[1..], acc, visit);
    }
  }

  /** Once the loop has resolved both the address and the coordinates on some page, the links
      after that page are never visited. */
  lemma {:induction false} NoVisitsAfterResolved(links: seq<string>, more: seq<string>, acc: ContactData,
                                                 visit: string -> Attempt<PageData>)
    requires Resolved(VisitFallbacks(links, acc, visit))
    requires exists k :: 0 <= k < |links| && visit(links[k]).Done?
    ensures VisitFallbacks(links + more, acc, visit) == VisitFallbacks(links, acc, visit)
    decreases |links|
  {
    assert (links + more)[0] == links[0];
    assert (links + more)[1..] == links[1..] + more;
    assert forall k :: 0 <= k < |links| - 1 ==> links[1..][k] == links[k + 1];
    match visit(links[0])
    case Threw(_) =>
      NoVisitsAfterResolved(links[1..], more, acc, visit);
    case Done(d) =>
      var merged := MergePage(acc, d);
      if !Resolved(merged) {
        if forall k :: 0 <= k < |links| - 1 ==> visit(links[1..][k]).Threw? {
          AllVisitsFailing(links[1..], merged, visit);
        } else {
          NoVisitsAfterResolved(links[1..], more, merged, visit);
        }
      }
  }

  /** The first fallback page is loaded and merged even when the primary page already resolved
      both the address and the coordinates. */
  lemma FirstFallbackAlwaysVisited(links: seq<string>, acc: ContactData, visit: string -> Attempt<PageData>)
    requires Resolved(acc) && |links| > 0 && visit(links[0]).Done?
    ensures VisitFallbacks(links, acc, visit) == MergePage(acc, visit(links[0]).value)
  {
  }

  // ----- the whole scrape -----

  /** A site as the scraper meets it: the outcome of loading and extracting the primary page, its
      anchors, the outcome of `new URL(url).hostname`, and the outcome of visiting each link. */
  datatype Site = Site(
    primary: Attempt<PageData>,
    anchors: seq<Anchor>,
    host: Attempt<string>,
    visit: string -> Attempt<PageData>
  )

  /** `err.message || "scraping failed"`. */
  function ErrorText(message: string): (r: string)
    ensures r != ""
    ensures message != "" ==> r == message
  {
    if message != "" then message else "scraping failed"
  }

  /** The initial result object. */
  function Initial(url: string): (r: ContactData)
    ensures r.url == url && r.phones == [] && r.socials == map[] && !r.success
  {
    ContactData(url, [], map[], None, Missing, false, None)
  }

  /** `Object.assign(result, mainData)`: every key of the page data is set. */
  function AssignMain(acc: ContactData, d: PageData): (r: ContactData)
    ensures r.url == acc.url && r.success == acc.success && r.error == acc.error
    ensures r.phones == d.phones && r.socials == d.socials && r.address == d.address
    ensures d.coords.Some? <==> r.coords.Val?
    ensures d.coords.Some? ==> r.coords.value == d.coords.value
  {
    acc.(phones := d.phones, socials := d.socials, address := d.address,
         coords := if d.coords.Some? then Val(d.coords.value) else Null)
  }

  /** `contactScrapping(url)`. */
  function Scrape(url: string, site: Site): (r: ContactData)
    ensures r.url == url
    ensures r.success <==> site.primary.Done? && site.host.Done?
    ensures r.success <==> r.error.None?
    ensures site.primary.Threw? ==> r == Initial(url).(error := Some(ErrorText(site.primary.message)))
    ensures site.primary.Done? && site.host.Threw? ==>
      r == AssignMain(Initial(url), site.primary.value).(error := Some(ErrorText(site.host.message)))
    ensures site.primary.Done? && NoDups(site.primary.value.phones) ==> (NoDups(r.phones)
      && |site.primary.value.phones| <= |r.phones|
      && r.phones[..|site.primary.value.phones|] == site.primary.value.phones)
    ensures site.primary.Done? && Filled(site.primary.value.address) ==> r.address == site.primary.value.address
    ensures site.primary.Done? && site.primary.value.coords.Some? ==> r.coords == Val(site.primary.value.coords.value)
    ensures site.primary.Done? ==> !r.coords.Missing?
    ensures site.primary.Done? && site.host.Done? ==> var links := FallbackLinks(site.anchors, site.host.value);
      |links| > 0 && site.visit(links[0]).Done? ==> var d := site.visit(links[0]).value;
        && (forall x :: x in d.phones ==> x in r.phones)
        && (forall s :: s in d.socials ==> s in r.socials)
        && (!Filled(site.primary.value.address) && Filled(d.address) ==> r.address == d.address)
        && (site.primary.value.coords.None? && d.coords.Some? ==> r.coords == Val(d.coords.value))
    ensures site.primary.Done? && site.host.Done? ==> var links := FallbackLinks(site.anchors, site.host.value);
      && (forall x :: x in r.phones ==> x in site.primary.value.phones || SomeVisitHasPhone(links, x, site.visit))
      && (forall s :: s in site.primary.value.socials && NoVisitNames(links, s, site.visit) ==>
            s in r.socials && r.socials[s] == site.primary.value.socials[s])
  {
    var init := Initial(url);
    match site.primary
    case Threw(m) => init.(error := Some(ErrorText(m)))
    case Done(d) =>
      var main := AssignMain(init, d);
      match site.host
      case Threw(m) => main.(error := Some(ErrorText(m)))
      case Done(host) =>
        var merged := VisitFallbacks(FallbackLinks(site.anchors, host), main, site.visit);
        MergeNeverUnsetsCoords(FallbackLinks(site.anchors, host), main, site.visit);
        merged.(success := true)
  }

  /** Every fallback link the loop reaches while the address or the coordinates are still unknown
      is visited, and a successful visit contributes all its phones and platforms to the scrape. */
  lemma ScrapeKeepsEveryReachedVisit(url: string, site: Site, k: nat)
    requires site.primary.Done? && site.host.Done?
    requires var links := FallbackLinks(site.anchors, site.host.value);
      && k < |links| && site.visit(links[k]).Done?
      && !Resolved(VisitFallbacks(links[..k], AssignMain(Initial(url), site.primary.value), site.visit))
    ensures var links := FallbackLinks(site.anchors, site.host.value);
      var d := site.visit(links[k]).value;
      var before := VisitFallbacks(links[..k], AssignMain(Initial(url), site.primary.value), site.visit);
      var r := Scrape(url, site);
      && (forall x :: x in d.phones ==> x in r.phones)
      && (forall s :: s in d.socials ==> s in r.socials)
      && (!Filled(before.address) && Filled(d.address) ==> r.address == d.address)
      && (!before.coords.Val? && d.coords.Some? ==> r.coords == Val(d.coords.value))
  {
    var links := FallbackLinks(site.anchors, site.host.value);
    EveryVisitBeforeResolvedContributes(links, k, AssignMain(Initial(url), site.primary.value), site.visit);
  }

  /** The merge loop never turns stored coordinates back into a missing key. */
  lemma {:induction false} MergeNeverUnsetsCoords(links: seq<string>, acc: ContactData,
                                                  visit: string -> Attempt<PageData>)
    requires !acc.coords.Missing?
    ensures !VisitFallbacks(links, acc, visit).coords.Missing?
    decreases |links|
  {
    if |links| > 0 {
      match visit(links[0])
      case Threw(_) => MergeNeverUnsetsCoords(links[1..], acc, visit);
      case Done(d) => MergeNeverUnsetsCoords(links[1..], MergePage(acc, d), visit);
    }
  }

  /** The page-level extraction composed with the scrape: the primary page's non-empty address
      is the final one. */
  lemma PrimaryAddressIsFinal(url: string, p: Page, env: Env, anchors: seq<Anchor>, host: Attempt<string>,
                              visit: string -> Attempt<PageData>)
    requires Filled(ExtractPage(p, env).address)
    ensures Scrape(url, Site(Done(ExtractPage(p, env)), anchors, host, visit)).address
      == ExtractPage(p, env).address
  {
  }
}
