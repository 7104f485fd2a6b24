/** What the extraction reads from a rendered page, in place of the browser session, and the
    behaviour it borrows from code outside this model. */
module Snapshot {
  import opened Wrappers
  import opened JsonLd

  /** An anchor: its resolved `href` property, its `href` attribute as written in the markup, and
      its raw `innerText`. */
  datatype Anchor = Anchor(href: string, attribute: string, text: string)

  /** The selectors whose elements may hold an address, in the order they are tried. */
  const AddressSelectors: seq<string> := [
    "[class*=\"address\" i]",
    "[class*=\"location\" i]",
    "[id*=\"address\" i]",
    "[id*=\"location\" i]",
    "[data-location]",
    "[itemprop=\"address\"]"
  ]

  /** One rendered page, every list in document order:
      - `mapIframes`: the `src` of each `iframe[src*='google.com/maps']`;
      - `mapLinks`: the `href` of each `a[href*="google.com/maps"]`;
      - `ldScripts`: each `script[type="application/ld+json"]`, parsed (`None` when `JSON.parse` throws);
      - `geoMeta`: the `content` of `meta[name="geo.position"]` (`None` when there is none);
      - `osmIframes`: the `src` of each `iframe[src*='openstreetmap.org']`;
      - `addressTags`: the `innerText` of each `<address>`;
      - `selectorHits[k]`: the `innerText` of each element matching `AddressSelectors[k]`;
      - `footer`: the `innerText` of the first `<footer>` (`None` when there is none);
      - `bodyText`: `document.body.innerText`;
      - `anchors`: every `a[href]`. */
  datatype Page = Page(
    mapIframes: seq<string>,
    mapLinks: seq<string>,
    ldScripts: seq<Option<Json>>,
    geoMeta: Option<string>,
    osmIframes: seq<string>,
    addressTags: seq<string>,
    selectorHits: seq<seq<string>>,
    footer: Option<string>,
    bodyText: string,
    anchors: seq<Anchor>
  )

  /** The patterns and library calls the extraction uses, as functions:
      - `addressMatch`, `phoneMatches`: the address and phone patterns (see module Heuristics);
      - `mapCoords(u)`: groups 1 and 2 of `/[@!](-?\d+\.?\d*),(-?\d+\.?\d*)/`;
      - `mapQuery(u)`: group 1 of `/[?&]q=([^&]+)/`;
      - `osmCoords(u)`: groups 1 and 2 of `/[?&]mlat=(-?\d+\.?\d*).*[?&]mlon=(-?\d+\.?\d*)/`;
      - `decodeUri`: `decodeURIComponent` (`None` when it throws a URIError);
      - `num`: `parseFloat` and number-to-text conversion;
      - `canonicalPhone(raw)`: libphonenumber's E.164 form of `raw`, or `None` when parsing fails,
        throws, or the number is not valid. */
  datatype Env = Env(
    addressMatch: string -> Option<string>,
    phoneMatches: string -> seq<string>,
    mapCoords: string -> Option<(string, string)>,
    mapQuery: string -> Option<string>,
    osmCoords: string -> Option<(string, string)>,
    decodeUri: string -> Option<string>,
    num: Numerals,
    canonicalPhone: string -> Option<string>
  )
}
