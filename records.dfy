/**
 * The records the article browser works on: articles and lookup entities as
 * delivered by the data source, the three id-to-name maps, and the filter
 * criteria held by the session.
 */
module Records {
  import opened Wrappers

  /** Identifier of an article or a lookup entity. */
  type Id = int

  /** A tag, actor or location: an identifier and its display name. */
  datatype Entity = Entity(id: Id, name: string)

  /** An article's list of references; anything that is not an array reads as `NotAnArray`. */
  datatype Refs = IdList(ids: seq<Id>) | NotAnArray

  /**
   * An article as received. Optional text fields are `None` when absent.
   * `paywall` is `None` for any value that is not a boolean.
   * `location` is `None` when the article has no location id.
   */
  datatype Article = Article(
    id: Id,
    headline: Option<string>,
    author: Option<string>,
    publicationDate: Option<string>,
    sourceName: Option<string>,
    url: Option<string>,
    paywall: Option<bool>,
    coverageLevel: Option<string>,
    actorsMentioned: Refs,
    tags: Refs,
    location: Option<Id>)

  /** The three lookup maps; they are built separately and never merged. */
  datatype RefMaps = RefMaps(tags: map<Id, string>, actors: map<Id, string>, locations: map<Id, string>)

  /** The two date bounds as typed by the user; "" means the bound is not set. */
  datatype DateRange = DateRange(startDate: string, endDate: string)

  /**
   * The filter state. Text criteria are substring patterns ("" = no constraint),
   * `paywall` is `None` for `null`, and the two selections hold display names.
   */
  datatype Criteria = Criteria(
    publicationDate: DateRange,
    sourceName: string,
    paywall: Option<bool>,
    headline: string,
    url: string,
    author: string,
    coverageLevel: string,
    actorsMentioned: seq<string>,
    tags: seq<string>,
    location: string)

  /** The names of the criteria fields, as the handlers address them. */
  datatype Field =
    | StartDate | EndDate | SourceName | Paywall | Headline | Url
    | Author | CoverageLevel | ActorsMentioned | Tags | Location

  /** The fields set by a text input. */
  type TextField = f: Field | f.SourceName? || f.Headline? || f.Url? || f.Author? || f.CoverageLevel? || f.Location?
    witness Headline

  /** The two date bounds. */
  type DateField = f: Field | f.StartDate? || f.EndDate? witness StartDate

  /** The two multi-select lists. */
  type SelectField = f: Field | f.ActorsMentioned? || f.Tags? witness Tags

  function TextOf(c: Criteria, f: TextField): string {
    match f
    case SourceName => c.sourceName
    case Headline => c.headline
    case Url => c.url
    case Author => c.author
    case CoverageLevel => c.coverageLevel
    case Location => c.location
  }

  function DateOf(c: Criteria, f: DateField): string {
    if f.StartDate? then c.publicationDate.startDate else c.publicationDate.endDate
  }

  function SelectionOf(c: Criteria, f: SelectField): seq<string> {
    if f.Tags? then c.tags else c.actorsMentioned
  }

  /** `a` and `b` hold the same value in every field other than `f`. */
  predicate SameExcept(a: Criteria, b: Criteria, f: Field) {
    && (f == StartDate || a.publicationDate.startDate == b.publicationDate.startDate)
    && (f == EndDate || a.publicationDate.endDate == b.publicationDate.endDate)
    && (f == SourceName || a.sourceName == b.sourceName)
    && (f == Paywall || a.paywall == b.paywall)
    && (f == Headline || a.headline == b.headline)
    && (f == Url || a.url == b.url)
    && (f == Author || a.author == b.author)
    && (f == CoverageLevel || a.coverageLevel == b.coverageLevel)
    && (f == ActorsMentioned || a.actorsMentioned == b.actorsMentioned)
    && (f == Tags || a.tags == b.tags)
    && (f == Location || a.location == b.location)
  }

  /** The initial filter state: nothing is constrained. */
  function DefaultCriteria(): (c: Criteria)
    ensures forall f: TextField :: TextOf(c, f) == ""
    ensures forall f: DateField :: DateOf(c, f) == ""
    ensures forall f: SelectField :: SelectionOf(c, f) == []
    ensures c.paywall == None
  {
    Criteria(DateRange("", ""), "", None, "", "", "", "", [], [], "")
  }
}
