/** The data model: the scrape result of src/types/contact.type.ts and the stored document of
    src/models/contact.model.ts, with the value types both share. */
module Records {
  import opened Wrappers

  /** A JavaScript number as `parseFloat` produces it: a real value or NaN. */
  datatype Number = NaN | Num(value: real)

  /** JavaScript truthiness of a number: NaN and zero are falsy. */
  predicate NumberTruthy(n: Number) {
    n.Num? && n.value != 0.0
  }

  /** `{ lat, lng }` as produced by `parseFloat` on the extracted coordinate texts. */
  datatype Coord = Coord(lat: Number, lng: Number)

  /** The five social platforms, in the order the source tests them. */
  datatype Platform = Facebook | Instagram | LinkedIn | Twitter | TikTok

  const AllPlatforms: set<Platform> := {Facebook, Instagram, LinkedIn, Twitter, TikTok}

  /** `socials`: at most one link per platform; an absent platform is an omitted key. */
  type Socials = map<Platform, string>

  /** An own property of a JavaScript object that may be absent, null, or hold a value. */
  datatype Prop<T> = Missing | Null | Val(value: T)

  /** The object `contactScrapping` returns (`ContactData` without the names the scheduler adds).
      `coords` is `Missing` until the primary page's data is merged in; `error` is `None` unless
      the attempt failed. */
  datatype ContactData = ContactData(
    url: string,
    phones: seq<string>,
    socials: Socials,
    address: Option<string>,
    coords: Prop<Coord>,
    success: bool,
    error: Option<string>
  )

  /** A stored document. `id` is the auto-increment field (starting at 1); `address: None` is a
      stored null; `coords: None` is the schema default `{}` or a stored null. */
  datatype ContactRecord = ContactRecord(
    id: nat,
    url: string,
    commercialName: string,
    legalName: string,
    allNames: seq<string>,
    phones: seq<string>,
    socials: Socials,
    address: Option<string>,
    coords: Option<Coord>,
    success: bool,
    error: string
  )
}
